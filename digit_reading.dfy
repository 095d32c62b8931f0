/**
 * Cleaning up the text the seven-segment recogniser prints for one display
 * region (`GCOCRWorker.cleanInt`): keep the digits, pad with two zeros, keep
 * the last `numDigits` characters and read them as an integer.
 */
module DigitReading {
  import opened Decimal

  /** `re.sub("[^0-9]", "", s)`: the ASCII digits of `s`, in their order. */
  function DigitsOf(s: string): (d: string)
    ensures AllDigits(d) && |d| <= |s|
    ensures AllDigits(s) ==> d == s
    ensures (forall i :: 0 <= i < |s| ==> !IsDigitChar(s[i])) ==> d == []
  {
    if s == [] then []
    else (if IsDigitChar(s[0]) then [s[0]] else []) + DigitsOf(s[1..])
  }

  /** One character is kept exactly when it is a digit. */
  lemma DigitsOfChar(c: char)
    ensures DigitsOf([c]) == if IsDigitChar(c) then [c] else []
  {
    assert [c][1..] == [];
  }

  /** Filtering distributes over concatenation, so the digits keep their order. */
  lemma {:induction false} DigitsOfConcat(a: string, b: string)
    ensures DigitsOf(a + b) == DigitsOf(a) + DigitsOf(b)
  {
    if a == [] {
      assert a + b == b;
    } else {
      var head: string := if IsDigitChar(a[0]) then [a[0]] else [];
      assert (a + b)[0] == a[0] && (a + b)[1..] == a[1..] + b;
      assert DigitsOf(a + b) == head + DigitsOf(a[1..] + b);
      assert DigitsOf(a) == head + DigitsOf(a[1..]);
      DigitsOfConcat(a[1..], b);
      assert head + (DigitsOf(a[1..]) + DigitsOf(b)) == (head + DigitsOf(a[1..])) + DigitsOf(b);
    }
  }

  /**
   * `int(str('00' + digits)[-numDigits:])`. Python's `t[-0:]` is the whole of
   * `t`, and a slice reaching before the start is clamped to it, so both keep
   * the whole padded string.
   */
  function CleanInt(s: string, numDigits: nat): (r: nat)
    ensures numDigits >= 1 ==> r < Pow10(numDigits)
  {
    var padded := "00" + DigitsOf(s);
    var kept := if numDigits == 0 || numDigits > |padded| then padded
                else padded[|padded| - numDigits..];
    if numDigits > |padded| then
      Pow10Monotone(|padded|, numDigits);
      Value(kept)
    else Value(kept)
  }

  lemma PaddedValue(d: string)
    requires AllDigits(d)
    ensures AllDigits("00" + d) && Value("00" + d) == Value(d)
  {
    LeadingZero(d);
    LeadingZero("0" + d);
    assert "00" + d == "0" + ("0" + d);
  }

  /**
   * With `numDigits >= 1` the result is the value of all the digits of the
   * recogniser's text modulo 10^numDigits, hence below 10^numDigits.
   */
  lemma CleanIntLastDigits(s: string, numDigits: nat)
    requires numDigits >= 1
    ensures CleanInt(s, numDigits) == Value(DigitsOf(s)) % Pow10(numDigits)
    ensures CleanInt(s, numDigits) < Pow10(numDigits)
  {
    var d := DigitsOf(s);
    var padded := "00" + d;
    var p := Pow10(numDigits);
    PaddedValue(d);
    if numDigits > |padded| {
      Pow10Monotone(|padded|, numDigits);
      ModOfShifted(Value(d), 0, p, Value(d));
    } else {
      ValueSuffix(padded, numDigits);
      assert CleanInt(s, numDigits) == Value(padded) % p;
    }
  }

  /**
   * The result is the number formed by the last `numDigits` digit
   * characters of the text (by all of them when there are fewer).
   */
  lemma CleanIntSuffix(s: string, numDigits: nat)
    requires numDigits >= 1
    ensures var d := DigitsOf(s);
      CleanInt(s, numDigits) == if numDigits <= |d| then Value(d[|d| - numDigits..]) else Value(d)
  {
    var d := DigitsOf(s);
    CleanIntLastDigits(s, numDigits);
    if numDigits <= |d| {
      ValueSuffix(d, numDigits);
    } else {
      Pow10Monotone(|d|, numDigits);
      ModOfShifted(Value(d), 0, Pow10(numDigits), Value(d));
    }
  }

  /** A clock digit (`numDigits == 1`) is a single decimal digit. */
  lemma CleanDigitRange(s: string)
    ensures CleanInt(s, 1) < 10
  {
    CleanIntLastDigits(s, 1);
  }

  /** A score (`numDigits == 3`) is below 1000. */
  lemma CleanScoreRange(s: string)
    ensures CleanInt(s, 3) < 1000
  {
    CleanIntLastDigits(s, 3);
    assert Pow10(3) == 1000;
  }

  /** `numDigits == 0` keeps every digit. */
  lemma CleanIntAllDigits(s: string)
    ensures CleanInt(s, 0) == Value(DigitsOf(s))
  {
    PaddedValue(DigitsOf(s));
  }

  /** Text without any digit (an empty or unreadable recognition) reads as 0. */
  lemma CleanIntNoDigits(s: string, numDigits: nat)
    requires forall i :: 0 <= i < |s| ==> !IsDigitChar(s[i])
    ensures CleanInt(s, numDigits) == 0
  {
    assert DigitsOf(s) == [];
    assert Value([]) == 0;
    if numDigits == 0 {
      CleanIntAllDigits(s);
    } else {
      CleanIntLastDigits(s, numDigits);
    }
  }
}
