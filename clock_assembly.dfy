/**
 * Assembling the game clock string from the four filtered clock digits:
 * minutes `str(int('0' + str(c1) + str(c2)))`, seconds the same with a
 * leading '0' added when it has one character, joined by ':'.
 */
module ClockAssembly {
  import opened Decimal

  /** `str(int('0' + str(a) + str(b)))`, the minutes part of the clock. */
  function JoinedNumber(a: nat, b: nat): (r: string)
    ensures AllDigits(r) && |r| >= 1
  {
    var digits := "0" + Show(a) + Show(b);
    AllDigitsConcat("0" + Show(a), Show(b));
    Show(Value(digits))
  }
  /** The seconds part: the joined number with a '0' added in front when it is one character long. */
  function SecondsText(c3: nat, c4: nat): (r: string)
    ensures AllDigits(r) && |r| >= 2
  {
    var s := JoinedNumber(c3, c4);
    if |s| == 1 then "0" + s else s
  }
  lemma NoColon(s: string)
    requires AllDigits(s)
    ensures multiset(s)[':'] == 0
  {
    assert !IsDigitChar(':');
  }
  /**
   * `formatted_clock`: at least one minutes digit, exactly one ':', at least
   * two seconds digits, and nothing but digits besides the ':'.
   */
  function ClockText(c1: nat, c2: nat, c3: nat, c4: nat): (r: string)
    ensures |r| >= 4 && r[0] != ':' && r[|r| - 2] != ':' && r[|r| - 1] != ':'
    ensures multiset(r)[':'] == 1
    ensures forall i :: 0 <= i < |r| ==> IsDigitChar(r[i]) || r[i] == ':'
  {
    var m, s := JoinedNumber(c1, c2), SecondsText(c3, c4);
    JoinWithColon(m, s);
    m + ":" + s
  }

  /** Two digit strings joined by ':' hold that one colon and digits around it. */
  lemma JoinWithColon(m: string, s: string)
    requires AllDigits(m) && |m| >= 1 && AllDigits(s) && |s| >= 2
    ensures var r := m + ":" + s;
      |r| >= 4 && r[0] != ':' && r[|r| - 2] != ':' && r[|r| - 1] != ':' &&
      multiset(r)[':'] == 1 &&
      forall i :: 0 <= i < |r| ==> IsDigitChar(r[i]) || r[i] == ':'
  {
    var r := m + ":" + s;
    NoColon(m);
    NoColon(s);
    assert multiset(r) == multiset(m) + multiset{':'} + multiset(s);
    assert r[0] == m[0] && r[|r| - 1] == s[|s| - 1] && r[|r| - 2] == s[|s| - 2];
    assert !IsDigitChar(':');
    forall i | 0 <= i < |r|
      ensures IsDigitChar(r[i]) || r[i] == ':'
    {
      if i < |m| {
        assert r[i] == m[i];
      } else if i > |m| {
        assert r[i] == s[i - |m| - 1];
      }
    }
  }

  lemma TwoDigitNumber(a: nat, b: nat)
    requires a < 10 && b < 10
    ensures JoinedNumber(a, b) == Show(10 * a + b)
  {
    var digits := "0" + Show(a) + Show(b);
    assert digits == ['0', DigitChar(a), DigitChar(b)];
    assert digits[..2] == ['0', DigitChar(a)];
    assert digits[..2][..1] == ['0'];
    assert Value(['0']) == 0 by {
      assert ['0'][..0] == [];
    }
    assert Value(digits[..2]) == a;
    assert Value(digits) == 10 * a + b;
  }

  lemma TwoDigitSeconds(c3: nat, c4: nat)
    requires c3 < 10 && c4 < 10
    ensures SecondsText(c3, c4) == [DigitChar(c3), DigitChar(c4)]
  {
    TwoDigitNumber(c3, c4);
    var n := 10 * c3 + c4;
    if n >= 10 {
      assert n / 10 == c3 && n % 10 == c4;
      assert Show(n) == Show(c3) + [DigitChar(c4)];
    } else {
      assert c3 == 0;
    }
  }

  /**
   * For single-digit readings the clock is the minutes without leading zero,
   * then ':', then exactly the two seconds digits c3 c4.
   */
  lemma ClockTextOfDigits(c1: nat, c2: nat, c3: nat, c4: nat)
    requires c1 < 10 && c2 < 10 && c3 < 10 && c4 < 10
    ensures ClockText(c1, c2, c3, c4) == Show(10 * c1 + c2) + ":" + [DigitChar(c3), DigitChar(c4)]
    ensures Value([DigitChar(c3), DigitChar(c4)]) == 10 * c3 + c4
  {
    TwoDigitNumber(c1, c2);
    TwoDigitSeconds(c3, c4);
    var t := [DigitChar(c3), DigitChar(c4)];
    assert t[..1] == [DigitChar(c3)];
    assert t[..1][..0] == [];
  }
}
