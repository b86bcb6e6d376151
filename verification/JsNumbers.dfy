/** The JavaScript numbers that bCrypt.js computes with: integers far below 2^53, here as 64-bit two's complement. */
module JsNumbers {
  import opened Words

  type Number = bv64

  /** A number that denotes a 32-bit word, read as a signed or as an unsigned integer. */
  type JsWord = n: Number | n < 0x1_0000_0000 || n >= 0xffff_ffff_8000_0000 witness 0

  /** The 32 bits that the bitwise operators see. */
  function Low(n: Number): Word {
    (n & 0xffff_ffff) as Word
  }

  /** The number that a bitwise operator returns: the signed reading of 32 bits. */
  function ToInt32(w: Word): JsWord {
    if w >= 0x8000_0000 then 0xffff_ffff_0000_0000 | w as Number else w as Number
  }

  /** Numbers as the language defines them: the remainder by 2^32, and from 2^31 on 2^32 less. */
  lemma Int32Value(n: Number, w: Word)
    ensures Low(n) as Number == n % 0x1_0000_0000
    ensures ToInt32(w) == if w < 0x8000_0000 then w as Number else w as Number - 0x1_0000_0000
  {
  }

  lemma LowBits(n: Number, w: Word)
    requires n == w as Number || n == 0xffff_ffff_0000_0000 | w as Number
    ensures (n & 0xffff_ffff) as Word == w
  {
  }

  lemma LowOfInt32(w: Word)
    ensures Low(ToInt32(w)) == w
  {
    var n := ToInt32(w);
    assert n == w as Number || n == 0xffff_ffff_0000_0000 | w as Number;
    LowBits(n, w);
    hide ToInt32;
  }

  /** `a ^ b`. */
  function JsXor(a: Number, b: Number): JsWord {
    ToInt32(Xor(Low(a), Low(b)))
  }

  lemma LowOfXor(a: Number, b: Number)
    ensures Low(JsXor(a, b)) == Xor(Low(a), Low(b))
  {
    LowOfInt32(Xor(Low(a), Low(b)));
    hide Low, ToInt32, Xor;
  }

  /** Sums may leave the 32-bit range, but their low 32 bits are the sum of the words. */
  lemma LowOfSum(a: Number, b: Number)
    ensures Low(a + b) == Add(Low(a), Low(b))
  {
    LowBitsOfSum(a, b);
    hide Add;
  }

  lemma LowBitsOfSum(a: Number, b: Number)
    ensures ((a + b) & 0xffff_ffff) as Word == Add((a & 0xffff_ffff) as Word, (b & 0xffff_ffff) as Word)
  {
  }

  /** `a + b`, named for the same reason as Add. */
  function JsSum(a: Number, b: Number): Number { a + b }

  lemma LowOfJsSum(a: Number, b: Number)
    ensures Low(JsSum(a, b)) == Add(Low(a), Low(b))
  {
    LowOfSum(a, b);
    hide Low, Add;
  }

  /** No sum of two word numbers comes near 2^53 in size, so the double holds it exactly. */
  lemma SumIsExact(a: JsWord, b: JsWord)
    ensures JsSum(a, b) + 0x1_0000_0000 < 0x3_0000_0000
  {
  }

  /** `a >> n` on 32 bits: the sign bit moves in from the left. */
  function SignedShift(w: Word, n: bv6): Word
    requires n < 32
  {
    if w >= 0x8000_0000 then (w >> n) | !(0xffff_ffff >> n) else w >> n
  }

  lemma MaskedShifts(w: Word)
    ensures SignedShift(w, 24) & 0xff == w >> 24
    ensures SignedShift(w, 16) & 0xff == (w >> 16) & 0xff
    ensures SignedShift(w, 8) & 0xff == (w >> 8) & 0xff
  {
    SignBitsMasked(w);
    if w >= 0x8000_0000 {
      assert SignedShift(w, 24) == (w >> 24) | !(0xffff_ffff >> 24);
      assert SignedShift(w, 16) == (w >> 16) | !(0xffff_ffff >> 16);
      assert SignedShift(w, 8) == (w >> 8) | !(0xffff_ffff >> 8);
    }
  }

  lemma SignBitsMasked(w: Word)
    ensures ((w >> 24) | !(0xffff_ffff >> 24)) & 0xff == w >> 24
    ensures ((w >> 16) | !(0xffff_ffff >> 16)) & 0xff == (w >> 16) & 0xff
    ensures ((w >> 8) | !(0xffff_ffff >> 8)) & 0xff == (w >> 8) & 0xff
    ensures (w >> 24) & 0xff == w >> 24
  {
  }

  /** The words that a list of numbers denotes. */
  function Lows(ns: seq<JsWord>): (ws: seq<Word>)
    ensures |ws| == |ns|
    ensures forall i :: 0 <= i < |ns| ==> ws[i] == Low(ns[i])
  {
    seq(|ns|, i requires 0 <= i < |ns| => Low(ns[i]))
  }

  lemma LowsOfUpdate(ns: seq<JsWord>, i: nat, n: JsWord)
    requires i < |ns|
    ensures Lows(ns[i := n]) == Lows(ns)[i := Low(n)]
  {
    hide Low;
  }
}
