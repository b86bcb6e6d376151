/** Words in the memory of a little- or big-endian machine, and BF_swap, which hides the difference. */
module Endianness {
  import opened Words

  /** The word that a machine loads from four bytes. */
  function Load(little: bool, a: Byte, b: Byte, c: Byte, d: Byte): Word {
    if little then BigEndian(d, c, b, a) else BigEndian(a, b, c, d)
  }

  /** A little-endian machine takes the first byte as the lowest digit, a big-endian one as the highest. */
  lemma LoadIsNumber(a: Byte, b: Byte, c: Byte, d: Byte)
    ensures Load(true, a, b, c, d)
         == a as Word + b as Word * 0x100 + c as Word * 0x1_0000 + d as Word * 0x100_0000
    ensures Load(false, a, b, c, d)
         == a as Word * 0x100_0000 + b as Word * 0x1_0000 + c as Word * 0x100 + d as Word
  {
    BigEndianIsNumber(a, b, c, d);
    BigEndianIsNumber(d, c, b, a);
    hide BigEndian;
  }

  /** The four bytes that a machine stores for a word. */
  function Stored(little: bool, w: Word): (r: seq<Byte>)
    ensures |r| == 4
  {
    if little then [Byte3(w), Byte2(w), Byte1(w), Byte0(w)] else [Byte0(w), Byte1(w), Byte2(w), Byte3(w)]
  }

  /** One turn of BF_swap, skipped on a big-endian machine. */
  function Swapped(little: bool, x: Word): Word {
    if little then
      var tmp := (x << 16) | (x >> 16);
      ((tmp & 0x00ff00ff) << 8) | ((tmp >> 8) & 0x00ff00ff)
    else x
  }

  /** On either machine, loading and swapping reads the bytes as one big-endian word. */
  lemma SwapAfterLoad(little: bool, a: Byte, b: Byte, c: Byte, d: Byte)
    ensures Swapped(little, Load(little, a, b, c, d)) == BigEndian(a, b, c, d)
  {
  }

  lemma SwapTwice(x: Word)
    ensures Byte3(Swapped(true, x)) == Byte0(x) && Byte2(Swapped(true, x)) == Byte1(x)
    ensures Byte1(Swapped(true, x)) == Byte2(x) && Byte0(Swapped(true, x)) == Byte3(x)
  {
  }

  /** On either machine, swapping and storing writes the bytes in big-endian order. */
  lemma StoreAfterSwap(little: bool, w: Word)
    ensures Stored(little, Swapped(little, w)) == [Byte0(w), Byte1(w), Byte2(w), Byte3(w)]
  {
    SwapTwice(w);
    hide Byte0, Byte1, Byte2, Byte3;
  }

  /** BF_swap on the first `n` words of an array. */
  method BfSwap(x: array<Word>, n: nat, little: bool)
    requires 1 <= n <= x.Length
    modifies x
    ensures forall i :: 0 <= i < n ==> x[i] == Swapped(little, old(x[i]))
    ensures forall i :: n <= i < x.Length ==> x[i] == old(x[i])
  {
    hide Swapped;
    if little {
      var i := 0;
      while i < n
        invariant 0 <= i <= n
        invariant forall k :: 0 <= k < i ==> x[k] == Swapped(little, old(x[k]))
        invariant forall k :: i <= k < x.Length ==> x[k] == old(x[k])
      {
        x[i] := Swapped(true, x[i]);
        i := i + 1;
      }
    } else {
      forall w: Word ensures Swapped(false, w) == w { BigEndianUnswapped(w); }
    }
  }

  lemma BigEndianUnswapped(w: Word)
    ensures Swapped(false, w) == w
  {
  }
}
