/** Regrouping of three bytes into four six-bit values and back, shared by both base-64 codecs. */
module Sextets {
  import opened Words

  function Sextet0(a: Byte): (v: Byte)
    ensures v < 64
  {
    a >> 2
  }

  function Sextet1(a: Byte, b: Byte): (v: Byte)
    ensures v < 64
  {
    ((a & 0x03) << 4) | (b >> 4)
  }

  function Sextet2(b: Byte, c: Byte): (v: Byte)
    ensures v < 64
  {
    ((b & 0x0f) << 2) | (c >> 6)
  }

  function Sextet3(c: Byte): (v: Byte)
    ensures v < 64
  {
    c & 0x3f
  }

  /** Both groups are the digits of one number, in base 256 and in base 64. */
  lemma SameNumber(a: Byte, b: Byte, c: Byte)
    ensures a as Word * 0x1_0000 + b as Word * 0x100 + c as Word
         == Sextet0(a) as Word * 0x4_0000 + Sextet1(a, b) as Word * 0x1000 + Sextet2(b, c) as Word * 0x40
            + Sextet3(c) as Word
  {
  }

  function Octet0(s0: Byte, s1: Byte): Byte {
    (s0 << 2) | ((s1 & 0x30) >> 4)
  }

  function Octet1(s1: Byte, s2: Byte): Byte {
    ((s1 & 0x0f) << 4) | ((s2 & 0x3c) >> 2)
  }

  function Octet2(s2: Byte, s3: Byte): Byte {
    ((s2 & 0x03) << 6) | s3
  }

  lemma OctetsOfSextets(a: Byte, b: Byte, c: Byte)
    ensures Octet0(Sextet0(a), Sextet1(a, b)) == a
    ensures Octet1(Sextet1(a, b), Sextet2(b, c)) == b
    ensures Octet2(Sextet2(b, c), Sextet3(c)) == c
  {
  }

  /** The six-bit values survive, except that the last one of an unfinished group keeps only its used bits. */
  lemma SextetsOfOctets(s0: Byte, s1: Byte, s2: Byte, s3: Byte)
    requires s0 < 64 && s1 < 64 && s2 < 64 && s3 < 64
    ensures Sextet0(Octet0(s0, s1)) == s0
    ensures Sextet1(Octet0(s0, s1), Octet1(s1, s2)) == s1
    ensures Sextet1(Octet0(s0, s1), 0) == s1 & 0x30
    ensures Sextet2(Octet1(s1, s2), Octet2(s2, s3)) == s2
    ensures Sextet2(Octet1(s1, s2), 0) == s2 & 0x3c
    ensures Sextet3(Octet2(s2, s3)) == s3
  {
  }
}
