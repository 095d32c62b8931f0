/**
 * The temporal consistency filter of `GCOCRWorker.run`: every frame each
 * clock digit's reading enters a 3-slot FIFO and each score's reading a
 * 7-slot FIFO (append, then pop the oldest). A clock digit whose newest
 * reading is the countdown successor of the reading before it is taken as
 * is; otherwise, and always for scores, the output is
 * `sorted(fifo, key=fifo.count)[-1]`.
 */
module ConsistencyFilter {
  import opened DigitReading
  import opened ClockAssembly

  datatype ClockSlot = Clock1 | Clock2 | Clock3 | Clock4
  datatype ScoreSide = Home | Away

  /** `_allowedNextDigits[slot]`, indexed by the previous reading. */
  function AllowedNextDigits(slot: ClockSlot): (t: seq<nat>)
    ensures |t| == 10 && forall i :: 0 <= i < |t| ==> t[i] < 10
  {
    if slot == Clock3 then [5, 0, 1, 2, 3, 4, 5, 6, 7, 8]
    else [9, 0, 1, 2, 3, 4, 5, 6, 7, 8]
  }

  /**
   * The digit shown one tick later on a counting-down clock: the tens of
   * seconds (clock_3) go 0 -> 5, every other digit goes 0 -> 9.
   */
  function CountdownSuccessor(slot: ClockSlot, d: nat): nat {
    if d == 0 then (if slot == Clock3 then 5 else 9) else d - 1
  }

  /** The table encodes the countdown cycle of each digit. */
  lemma AllowedNextIsCountdown(slot: ClockSlot, d: nat)
    requires d < 10
    ensures |AllowedNextDigits(slot)| == 10
    ensures AllowedNextDigits(slot)[d] == CountdownSuccessor(slot, d) < 10
    ensures slot != Clock3 ==> CountdownSuccessor(slot, d) == (d + 9) % 10
  {
  }

  /** `fifo.append(x); fifo.pop(0)`: the window slides by one. */
  function Shift(fifo: seq<nat>, x: nat): (r: seq<nat>)
    ensures |r| == |fifo|
    ensures |fifo| > 0 ==> r[|r| - 1] == x
    ensures forall i :: 0 <= i < |r| - 1 ==> r[i] == fifo[i + 1]
  {
    var appended := fifo + [x];
    appended[1..]
  }

  /** `w.count(x)` */
  function Occurrences(w: seq<nat>, x: nat): (c: nat)
    ensures c > 0 <==> x in w
  {
    multiset(w)[x]
  }

  /** `r` is ordered by non-decreasing `w.count`. */
  predicate SortedBy(r: seq<nat>, w: seq<nat>) {
    forall i, j :: 0 <= i < j < |r| ==> Occurrences(w, r[i]) <= Occurrences(w, r[j])
  }

  /**
   * Every element of `p`, which holds the elements of `t` before its last
   * and `x`, has a count at most that of `t`'s last element.
   */
  lemma BelowLast(p: seq<nat>, t: seq<nat>, x: nat, w: seq<nat>)
    requires |t| > 0 && SortedBy(t, w)
    requires Occurrences(w, x) < Occurrences(w, t[|t| - 1])
    requires multiset(p) == multiset(t[..|t| - 1]) + multiset{x}
    ensures forall i :: 0 <= i < |p| ==> Occurrences(w, p[i]) <= Occurrences(w, t[|t| - 1])
  {
    forall i | 0 <= i < |p|
      ensures Occurrences(w, p[i]) <= Occurrences(w, t[|t| - 1])
    {
      assert p[i] in multiset(p);
      if p[i] != x {
        assert p[i] in multiset(t[..|t| - 1]);
        var k :| 0 <= k < |t| - 1 && t[..|t| - 1][k] == p[i];
        assert t[k] == p[i];
      }
    }
  }

  /**
   * One step of a stable insertion sort keyed by `w.count`: `x`, which comes
   * after every element of `t` in the input, is placed after each element
   * whose count is at most its own.
   */
  function InsertByCount(t: seq<nat>, x: nat, w: seq<nat>): (r: seq<nat>)
    ensures |r| == |t| + 1 && multiset(r) == multiset(t) + multiset{x}
    ensures SortedBy(t, w) ==> SortedBy(r, w)
  {
    if t == [] then [x]
    else if Occurrences(w, t[|t| - 1]) <= Occurrences(w, x) then t + [x]
    else
      var init, last := t[..|t| - 1], t[|t| - 1];
      assert t == init + [last];
      var p := InsertByCount(init, x, w);
      if SortedBy(t, w) then
        BelowLast(p, t, x, w);
        p + [last]
      else p + [last]
  }

  /** `sorted(s, key=w.count)`; Python's sort is stable. */
  function SortedByCount(s: seq<nat>, w: seq<nat>): (r: seq<nat>)
    ensures |r| == |s| && multiset(r) == multiset(s)
    ensures SortedBy(r, w)
  {
    if s == [] then []
    else
      var init := s[..|s| - 1];
      assert s == init + [s[|s| - 1]];
      InsertByCount(SortedByCount(init, w), s[|s| - 1], w)
  }

  /** `sorted(fifo, key=fifo.count)[-1]` */
  function Vote(fifo: seq<nat>): (v: nat)
    requires |fifo| > 0
    ensures v in fifo
  {
    var sorted := SortedByCount(fifo, fifo);
    assert sorted[|sorted| - 1] in multiset(sorted);
    sorted[|sorted| - 1]
  }

  /**
   * Reference definition of the vote: the last position, among the first
   * `n`, whose value occurs in `w` at least as often as any other value.
   */
  function LastMostFrequent(w: seq<nat>, n: nat): (k: nat)
    requires 0 < n <= |w|
    ensures k < n
    ensures forall j :: 0 <= j < n ==> Occurrences(w, w[j]) <= Occurrences(w, w[k])
    ensures forall j :: k < j < n ==> Occurrences(w, w[j]) < Occurrences(w, w[k])
  {
    if n == 1 then 0
    else
      var k := LastMostFrequent(w, n - 1);
      if Occurrences(w, w[k]) <= Occurrences(w, w[n - 1]) then n - 1 else k
  }

  lemma InsertByCountLast(t: seq<nat>, x: nat, w: seq<nat>)
    requires |t| > 0
    ensures InsertByCount(t, x, w)[|t|] ==
      if Occurrences(w, t[|t| - 1]) <= Occurrences(w, x) then x else t[|t| - 1]
  {
  }

  lemma {:induction false} SortedByCountLast(w: seq<nat>, n: nat)
    requires 0 < n <= |w|
    ensures SortedByCount(w[..n], w)[n - 1] == w[LastMostFrequent(w, n)]
  {
    if n > 1 {
      assert w[..n][..n - 1] == w[..n - 1];
      assert w[..n][n - 1] == w[n - 1];
      SortedByCountLast(w, n - 1);
      InsertByCountLast(SortedByCount(w[..n - 1], w), w[n - 1], w);
    }
  }

  /** The stable sort's last element is the value at the last most-frequent position. */
  lemma VoteIsLastMostFrequent(fifo: seq<nat>)
    requires |fifo| > 0
    ensures Vote(fifo) == fifo[LastMostFrequent(fifo, |fifo|)]
  {
    assert fifo[..|fifo|] == fifo;
    SortedByCountLast(fifo, |fifo|);
  }

  /**
   * The vote is a mode of the window, and among values tied with it on
   * count it is the one that occurs latest: any position holding a value
   * as frequent as the vote is followed (or taken) by an occurrence of the vote.
   */
  lemma VoteIsLatestMode(fifo: seq<nat>)
    requires |fifo| > 0
    ensures Vote(fifo) in fifo
    ensures forall j :: 0 <= j < |fifo| ==> Occurrences(fifo, fifo[j]) <= Occurrences(fifo, Vote(fifo))
    ensures forall j :: 0 <= j < |fifo| && Occurrences(fifo, fifo[j]) == Occurrences(fifo, Vote(fifo)) ==>
      exists k :: j <= k < |fifo| && fifo[k] == Vote(fifo)
  {
    VoteIsLastMostFrequent(fifo);
    var k := LastMostFrequent(fifo, |fifo|);
    forall j | 0 <= j < |fifo| && Occurrences(fifo, fifo[j]) == Occurrences(fifo, Vote(fifo))
      ensures exists k :: j <= k < |fifo| && fifo[k] == Vote(fifo)
    {
      assert j <= k && fifo[k] == Vote(fifo);
    }
  }

  /** On a 3-slot window [a, b, c] the vote is c unless a == b != c. */
  lemma VoteOfThree(a: nat, b: nat, c: nat)
    ensures Vote([a, b, c]) == if a == b && b != c then a else c
  {
    var w := [a, b, c];
    VoteIsLastMostFrequent(w);
    assert multiset(w) == multiset{a, b, c};
  }

  /** application.py:905-919: the fast path when the newest reading follows the one before it, else the vote. */
  function ClockOutput(slot: ClockSlot, fifo: seq<nat>): (r: nat)
    requires |fifo| == 3 && fifo[1] < 10
    ensures r in fifo
  {
    if fifo[2] == AllowedNextDigits(slot)[fifo[1]] then fifo[2] else Vote(fifo)
  }

  /**
   * The whole rule for a clock digit with window [a, b, c]: the newest
   * reading c, except that two agreeing older readings a == b outvote a
   * c that is neither equal to them nor their countdown successor.
   */
  lemma ClockOutputRule(slot: ClockSlot, a: nat, b: nat, c: nat)
    requires b < 10
    ensures ClockOutput(slot, [a, b, c]) ==
      if a == b && b != c && c != CountdownSuccessor(slot, b) then a else c
  {
    AllowedNextIsCountdown(slot, b);
    VoteOfThree(a, b, c);
  }

  /** A reading that follows the previous one in the countdown is output at once, without lag. */
  lemma NoLagOnCountdown(slot: ClockSlot, fifo: seq<nat>, x: nat)
    requires |fifo| == 3 && fifo[2] < 10
    requires x == CountdownSuccessor(slot, fifo[2])
    ensures ClockOutput(slot, Shift(fifo, x)) == x
  {
    AllowedNextIsCountdown(slot, fifo[2]);
  }

  /**
   * One misread m between agreeing readings x is suppressed on both frames
   * in which it is in the window's newer slots.
   */
  lemma IsolatedMisreadSuppressed(slot: ClockSlot, p: nat, x: nat, m: nat)
    requires x < 10 && m < 10 && m != x && m != CountdownSuccessor(slot, x)
    ensures ClockOutput(slot, Shift([p, x, x], m)) == x
    ensures ClockOutput(slot, Shift(Shift([p, x, x], m), x)) == x
  {
    assert Shift([p, x, x], m) == [x, x, m];
    assert Shift([x, x, m], x) == [x, m, x];
    ClockOutputRule(slot, x, x, m);
    ClockOutputRule(slot, x, m, x);
  }

  /** The recogniser's texts for one frame, before cleaning. */
  datatype RawFrame = RawFrame(clock1: string, clock2: string, clock3: string, clock4: string,
                               home: string, away: string)
  {
    function Clock(slot: ClockSlot): string {
      match slot
      case Clock1 => clock1
      case Clock2 => clock2
      case Clock3 => clock3
      case Clock4 => clock4
    }

    function Score(side: ScoreSide): string {
      match side
      case Home => home
      case Away => away
    }
  }

  /** What the worker emits for one frame: the filtered values and the clock string. */
  datatype FilteredFrame = FilteredFrame(clock1: nat, clock2: nat, clock3: nat, clock4: nat,
                                         home: nat, away: nat, clock: string)
  {
    function Clock(slot: ClockSlot): nat {
      match slot
      case Clock1 => clock1
      case Clock2 => clock2
      case Clock3 => clock3
      case Clock4 => clock4
    }

    function Score(side: ScoreSide): nat {
      match side
      case Home => home
      case Away => away
    }
  }

  predicate IsClockWindow(f: seq<nat>) {
    |f| == 3 && forall i :: 0 <= i < |f| ==> f[i] < 10
  }

  predicate IsScoreWindow(f: seq<nat>) {
    |f| == 7 && forall i :: 0 <= i < |f| ==> f[i] < 1000
  }

  /** Every value of a window is below `bound`, hence so is its vote. */
  lemma VoteBelow(fifo: seq<nat>, bound: nat)
    requires |fifo| > 0 && forall i :: 0 <= i < |fifo| ==> fifo[i] < bound
    ensures Vote(fifo) < bound
  {
    var v := Vote(fifo);
    var i :| 0 <= i < |fifo| && fifo[i] == v;
  }

  /** A clock window's output is a single digit. */
  lemma ClockOutputBelow(slot: ClockSlot, fifo: seq<nat>)
    requires IsClockWindow(fifo)
    ensures ClockOutput(slot, fifo) < 10
  {
    var v := ClockOutput(slot, fifo);
    var i :| 0 <= i < |fifo| && fifo[i] == v;
  }

  /** One 3-digit window per clock slot. */
  predicate ClockWindows(m: map<ClockSlot, seq<nat>>) {
    forall slot: ClockSlot :: slot in m && IsClockWindow(m[slot])
  }

  /** One 7-reading window per score. */
  predicate ScoreWindows(m: map<ScoreSide, seq<nat>>) {
    forall side: ScoreSide :: side in m && IsScoreWindow(m[side])
  }

  /** The FIFO state of `GCOCRWorker` (`FIFO_clocks`, `FIFO_scores`). */
  class DigitFilter {
    var clockFifos: map<ClockSlot, seq<nat>>
    var scoreFifos: map<ScoreSide, seq<nat>>

    /** Every clock window holds 3 single digits, every score window 7 readings below 1000. */
    ghost predicate Valid()
      reads this
    {
      ClockWindows(clockFifos) && ScoreWindows(scoreFifos)
    }

    constructor ()
      ensures Valid()
      ensures forall slot: ClockSlot :: clockFifos[slot] == [0, 0, 0]
      ensures forall side: ScoreSide :: scoreFifos[side] == [0, 0, 0, 0, 0, 0, 0]
    {
      clockFifos := map[Clock1 := [0, 0, 0], Clock2 := [0, 0, 0],
                        Clock3 := [0, 0, 0], Clock4 := [0, 0, 0]];
      scoreFifos := map[Home := [0, 0, 0, 0, 0, 0, 0], Away := [0, 0, 0, 0, 0, 0, 0]];
      new;
      forall slot: ClockSlot
        ensures slot in clockFifos && clockFifos[slot] == [0, 0, 0]
      {
        assert slot == Clock1 || slot == Clock2 || slot == Clock3 || slot == Clock4;
      }
      forall side: ScoreSide
        ensures side in scoreFifos && scoreFifos[side] == [0, 0, 0, 0, 0, 0, 0]
      {
        assert side == Home || side == Away;
      }
    }

    /** application.py:884-891 for one clock digit: append the reading, pop the oldest. */
    method PushClock(slot: ClockSlot, x: nat)
      requires Valid() && x < 10
      modifies this
      ensures Valid()
      ensures clockFifos == old(clockFifos)[slot := Shift(old(clockFifos)[slot], x)]
      ensures scoreFifos == old(scoreFifos)
    {
      clockFifos := clockFifos[slot := clockFifos[slot] + [x]];
      clockFifos := clockFifos[slot := clockFifos[slot][1..]];
    }

    /** application.py:892-895 for one score: append the reading, pop the oldest. */
    method PushScore(side: ScoreSide, x: nat)
      requires Valid() && x < 1000
      modifies this
      ensures Valid()
      ensures scoreFifos == old(scoreFifos)[side := Shift(old(scoreFifos)[side], x)]
      ensures clockFifos == old(clockFifos)
    {
      scoreFifos := scoreFifos[side := scoreFifos[side] + [x]];
      scoreFifos := scoreFifos[side := scoreFifos[side][1..]];
    }

    /** application.py:874-895: clean the six readings and slide every window by one. */
    method Slide(raw: RawFrame)
      requires Valid()
      modifies this
      ensures Valid()
      ensures forall slot: ClockSlot ::
        clockFifos[slot] == Shift(old(clockFifos)[slot], CleanInt(raw.Clock(slot), 1))
      ensures forall side: ScoreSide ::
        scoreFifos[side] == Shift(old(scoreFifos)[side], CleanInt(raw.Score(side), 3))
    {
      CleanDigitRange(raw.clock1);
      CleanDigitRange(raw.clock2);
      CleanDigitRange(raw.clock3);
      CleanDigitRange(raw.clock4);
      CleanScoreRange(raw.home);
      CleanScoreRange(raw.away);

      PushClock(Clock1, CleanInt(raw.clock1, 1));
      PushClock(Clock2, CleanInt(raw.clock2, 1));
      PushClock(Clock3, CleanInt(raw.clock3, 1));
      PushClock(Clock4, CleanInt(raw.clock4, 1));
      PushScore(Home, CleanInt(raw.home, 3));
      PushScore(Away, CleanInt(raw.away, 3));
      forall slot: ClockSlot
        ensures clockFifos[slot] == Shift(old(clockFifos)[slot], CleanInt(raw.Clock(slot), 1))
      {
        assert slot == Clock1 || slot == Clock2 || slot == Clock3 || slot == Clock4;
      }
      forall side: ScoreSide
        ensures scoreFifos[side] == Shift(old(scoreFifos)[side], CleanInt(raw.Score(side), 3))
      {
        assert side == Home || side == Away;
      }
    }

    /** application.py:874-933 for one frame: slide the windows, then filter and format. */
    method Step(raw: RawFrame) returns (out: FilteredFrame)
      requires Valid()
      modifies this
      ensures Valid()
      ensures forall slot: ClockSlot ::
        clockFifos[slot] == Shift(old(clockFifos)[slot], CleanInt(raw.Clock(slot), 1))
      ensures forall side: ScoreSide ::
        scoreFifos[side] == Shift(old(scoreFifos)[side], CleanInt(raw.Score(side), 3))
      ensures out == Filtered(clockFifos, scoreFifos)
    {
      Slide(raw);
      out := Filtered(clockFifos, scoreFifos);
    }
  }

  /** application.py:905-933: the filtered values of the current windows and the clock string. */
  function Filtered(clocks: map<ClockSlot, seq<nat>>, scores: map<ScoreSide, seq<nat>>): (out: FilteredFrame)
    requires ClockWindows(clocks) && ScoreWindows(scores)
    ensures out.clock1 < 10 && out.clock2 < 10 && out.clock3 < 10 && out.clock4 < 10
    ensures out.home < 1000 && out.away < 1000
    ensures out.clock == ClockText(out.clock1, out.clock2, out.clock3, out.clock4)
  {
    assert IsClockWindow(clocks[Clock1]) && IsClockWindow(clocks[Clock2]);
    assert IsClockWindow(clocks[Clock3]) && IsClockWindow(clocks[Clock4]);
    assert IsScoreWindow(scores[Home]) && IsScoreWindow(scores[Away]);
    ClockOutputBelow(Clock1, clocks[Clock1]);
    ClockOutputBelow(Clock2, clocks[Clock2]);
    ClockOutputBelow(Clock3, clocks[Clock3]);
    ClockOutputBelow(Clock4, clocks[Clock4]);
    VoteBelow(scores[Home], 1000);
    VoteBelow(scores[Away], 1000);
    var c1 := ClockOutput(Clock1, clocks[Clock1]);
    var c2 := ClockOutput(Clock2, clocks[Clock2]);
    var c3 := ClockOutput(Clock3, clocks[Clock3]);
    var c4 := ClockOutput(Clock4, clocks[Clock4]);
    var home := Vote(scores[Home]);
    var away := Vote(scores[Away]);
    FilteredFrame(c1, c2, c3, c4, home, away, ClockText(c1, c2, c3, c4))
  }
}
