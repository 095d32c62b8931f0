/**
 * The shot-clock reader (`SCOCRWorker`): each of the two digit regions is
 * normalised to a 7x5 binary bitmap and compared exactly against every
 * reference variant of every digit 0-9. The loop never breaks, so the last
 * matching digit wins; with no match the previous reading is kept.
 */
module TemplateMatch {

  /** A grey-level image as rows of pixel values (0 or 255 after thresholding). */
  type Bitmap = seq<seq<int>>

  /** `digitL`/`digitR`: '' until the first match, then a digit index. */
  datatype ShotDigit = Unread | Digit(value: nat)

  const BitmapRows: nat := 7
  const BitmapColumns: nat := 5

  /** Number of reference variants per digit: `1A/1B.png` and `7A/7B.png` have two. */
  const VariantsPerDigit: seq<nat> := [1, 2, 1, 1, 1, 1, 1, 2, 1, 1]

  predicate IsNormalized(b: Bitmap) {
    |b| == BitmapRows && forall r :: 0 <= r < |b| ==> |b[r]| == BitmapColumns
  }

  /** The shape of `referenceDigits` as `loadReferenceMatrices` builds it. */
  predicate IsReferenceLibrary(lib: seq<seq<Bitmap>>) {
    |lib| == 10 &&
    forall d :: 0 <= d < 10 ==>
      |lib[d]| == VariantsPerDigit[d] &&
      forall v :: 0 <= v < |lib[d]| ==> IsNormalized(lib[d][v])
  }

  /**
   * What the match loop has made of `prev` after the digits `0 .. n-1`:
   * the largest of them with a variant equal to `bmp`, or `prev` when none has one.
   */
  function LastMatch(lib: seq<seq<Bitmap>>, bmp: Bitmap, n: nat, prev: ShotDigit): (r: ShotDigit)
    requires n <= |lib|
    ensures (forall d :: 0 <= d < n ==> bmp !in lib[d]) ==> r == prev
    ensures (exists d :: 0 <= d < n && bmp in lib[d]) ==>
      r.Digit? && r.value < n && bmp in lib[r.value] &&
      forall d :: r.value < d < n ==> bmp !in lib[d]
  {
    if n == 0 then prev
    else if bmp in lib[n - 1] then Digit(n - 1)
    else LastMatch(lib, bmp, n - 1, prev)
  }

  /** A reference variant is classified as its own digit when no later digit shares it. */
  lemma TemplateRoundTrip(lib: seq<seq<Bitmap>>, d: nat, v: nat, prev: ShotDigit)
    requires d < |lib| && v < |lib[d]|
    requires forall e :: d < e < |lib| ==> lib[d][v] !in lib[e]
    ensures LastMatch(lib, lib[d][v], |lib|, prev) == Digit(d)
  {
    assert lib[d][v] in lib[d];
  }

  /** Against the reference library a reading is a digit 0-9 or the previous one. */
  lemma ReadingInRange(lib: seq<seq<Bitmap>>, bmp: Bitmap, prev: ShotDigit)
    requires IsReferenceLibrary(lib)
    ensures var r := LastMatch(lib, bmp, |lib|, prev); r == prev || (r.Digit? && r.value <= 9)
  {
  }

  class ShotClockReader {
    const references: seq<seq<Bitmap>>
    var digitL: ShotDigit
    var digitR: ShotDigit

    /** application.py:962-965, with the reference bitmaps given instead of read from disk. */
    constructor (references: seq<seq<Bitmap>>)
      ensures this.references == references
      ensures digitL == Unread && digitR == Unread
    {
      this.references := references;
      digitL := Unread;
      digitR := Unread;
    }

    /**
     * application.py:1048-1053: both regions are compared against every variant of
     * every digit; each keeps its own last match, independently of the other.
     */
    method Compare(left: Bitmap, right: Bitmap)
      modifies this
      ensures digitL == LastMatch(references, left, |references|, old(digitL))
      ensures digitR == LastMatch(references, right, |references|, old(digitR))
    {
      var index := 0;
      while index < |references|
        invariant 0 <= index <= |references|
        invariant digitL == LastMatch(references, left, index, old(digitL))
        invariant digitR == LastMatch(references, right, index, old(digitR))
      {
        var refDigits := references[index];
        var v := 0;
        while v < |refDigits|
          invariant 0 <= v <= |refDigits|
          invariant digitL == if left in refDigits[..v] then Digit(index)
                              else LastMatch(references, left, index, old(digitL))
          invariant digitR == if right in refDigits[..v] then Digit(index)
                              else LastMatch(references, right, index, old(digitR))
        {
          if left == refDigits[v] {
            digitL := Digit(index);
          }
          if right == refDigits[v] {
            digitR := Digit(index);
          }
          assert refDigits[..v + 1] == refDigits[..v] + [refDigits[v]];
          v := v + 1;
        }
        assert refDigits[..v] == refDigits;
        index := index + 1;
      }
    }
  }
}
