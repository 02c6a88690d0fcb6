/** The padding of a scatterlist, as the machine computes it. */
module DmaSgWords {
  import opened FastBits
  import opened Words
  import opened DmaSg

  /** mask - iova_len + 1 */
  function Gap(mask: bv64, len: bv64): bv64 {
    mask - len + 1
  }

  function Minus(a: bv64, b: bv64): bv64 {
    a - b
  }

  lemma GapIs(mask: bv64, len: bv64, whole: bv64)
    requires whole == mask + 1
    ensures Gap(mask, len) == Minus(whole, len)
  {
  }

  lemma MinusIs(a: bv64, b: bv64, whole: bv64)
    requires whole == a + b
    ensures Minus(whole, a) == b
  {
  }

  lemma GapWord(mask: bv64, len: bv64)
    ensures Gap(mask, len) == Minus(Plus(mask, 1), len)
  {
    hide Gap, Minus, Plus;
    PlusIs(mask, 1, Plus(mask, 1));
    GapIs(mask, len, Plus(mask, 1));
  }

  lemma MinusWord(a: bv64, b: bv64)
    ensures Minus(Plus(a, b), a) == b
  {
    hide Minus, Plus;
    PlusIs(a, b, Plus(a, b));
    MinusIs(a, b, Plus(a, b));
  }

  /** pad_len, with the mask of a boundary of 2^k, is the word of the padding, for every position and k. */
  lemma PadWord(at: int, k: nat)
    ensures And(Gap(Mask(k), Num(at)), Mask(k)) == Num(Pad(at, Pow2(k)))
  {
    hide Num, Mask, Gap, Minus, IsMask, And, Plus, Pow2, Pad;
    var b := Pow2(k);
    MaskIs(k);
    GapWord(Mask(k), Num(at));
    NumAdd(at, b - at);
    MinusWord(Num(at), Num(b - at));
    MaskMod(b - at, k);
    PadIs(at, b);
  }

  lemma PadIs(at: int, b: int)
    requires b > 0
    ensures (b - at) % b == Pad(at, b)
  {
    var q, r := at / b, at % b;
    assert at == q * b + r;
    if r == 0 {
      assert b - at == (1 - q) * b + 0;
      ModUnique(b - at, b, 1 - q, 0);
    } else {
      ModUnique(b - at, b, -q, b - r);
    }
  }
}
