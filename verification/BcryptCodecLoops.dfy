/** The loops of BF_encode and BF_decode, writing through pointers. */
module BcryptCodecLoops {
  import opened Words
  import opened Sextets
  import opened BcryptCodec

  function Prepend(p: seq<Byte>, r: Option<seq<Byte>>): Option<seq<Byte>> {
    match r
    case None => None
    case Some(x) => Some(p + x)
  }

  /** A refused character among those that the next group needs. */
  lemma DecodeRefuses(src: seq<Byte>, sptr: nat, n: nat, j: nat)
    requires n >= 1 && j < 4 && j <= n && sptr <= |src| && Atoi64(At(src, sptr + j)) > 63
    ensures Decode(src[sptr..], n) == None
  {
    assert At(src[sptr..], j) == At(src, sptr + j);
  }

  lemma DecodeGoesOn(src: seq<Byte>, sptr: nat, n: nat, before: seq<Byte>, c1: Byte, c2: Byte, c3: Byte, c4: Byte)
    requires sptr <= |src| && n >= 1
    requires c1 < 64 && Atoi64(At(src, sptr)) == c1
    requires c2 < 64 && Atoi64(At(src, sptr + 1)) == c2
    requires n >= 2 ==> c3 < 64 && Atoi64(At(src, sptr + 2)) == c3
    requires n >= 3 ==> c4 < 64 && Atoi64(At(src, sptr + 3)) == c4
    ensures n == 1 ==> Prepend(before, Decode(src[sptr..], n)) == Some(before + [Octet0(c1, c2)])
    ensures n == 2 ==> Prepend(before, Decode(src[sptr..], n)) == Some(before + [Octet0(c1, c2), Octet1(c2, c3)])
    ensures n >= 3 ==> sptr + 4 <= |src|
    ensures n >= 3 ==>
              Prepend(before, Decode(src[sptr..], n))
              == Prepend(before + [Octet0(c1, c2), Octet1(c2, c3), Octet2(c3, c4)], Decode(src[sptr + 4..], n - 3))
  {
    var s := src[sptr..];
    NulIsRefused();
    assert sptr + 1 < |src| && (n >= 2 ==> sptr + 2 < |src|) && (n >= 3 ==> sptr + 3 < |src|);
    hide Octet0, Octet1, Octet2, Atoi64, Decode;
    if n == 1 {
      DecodeEnd1(s, c1, c2);
    } else if n == 2 {
      DecodeEnd2(s, c1, c2, c3);
    } else {
      DecodeGroup(s, n, c1, c2, c3, c4);
      assert s[4..] == src[sptr + 4..];
      var three := [Octet0(c1, c2), Octet1(c2, c3), Octet2(c3, c4)];
      if Decode(s, n).Some? {
        var rest := Decode(s[4..], n - 3).value;
        assert before + (three + rest) == (before + three) + rest;
      }
    }
  }

  lemma NulIsRefused()
    ensures Atoi64(0) == 64
  {
  }

  /** BF_decode, reading from position `off` of a C string; -1 is its error. */
  method BfDecode(dst: array<Byte>, src: seq<Byte>, off: nat, size: nat) returns (rc: int)
    requires 1 <= size <= dst.Length && off <= |src|
    modifies dst
    ensures rc == 0 || rc == -1
    ensures rc == -1 ==> Decode(src[off..], size) == None
    ensures rc == 0 ==> Decode(src[off..], size) == Some(dst[..size])
  {
    hide *;
    var dptr, sptr := 0, off;
    assert dst[..0] == [] && Decode(src[off..], size) == Prepend([], Decode(src[off..], size)) by {
      PrependNothing(Decode(src[off..], size));
    }
    while dptr < size
      invariant 0 <= dptr <= size && 0 <= sptr <= |src|
      invariant Decode(src[off..], size) == Prepend(dst[..dptr], Decode(src[sptr..], size - dptr))
      decreases size - dptr
    {
      ghost var n, before, from := size - dptr, dst[..dptr], sptr;
      var c1 := Atoi64(At(src, sptr));
      var c2 := Atoi64(At(src, sptr + 1));
      if c1 > 63 { DecodeRefuses(src, from, n, 0); PrependNone(before); return -1; }
      if c2 > 63 { DecodeRefuses(src, from, n, 1); PrependNone(before); return -1; }
      dst[dptr] := Octet0(c1, c2);
      dptr := dptr + 1;
      if dptr >= size {
        DecodeGoesOn(src, from, n, before, c1, c2, 0, 0);
        assert dst[..size] == before + [Octet0(c1, c2)];
        return 0;
      }
      var c3 := Atoi64(At(src, sptr + 2));
      if c3 > 63 { DecodeRefuses(src, from, n, 2); PrependNone(before); return -1; }
      dst[dptr] := Octet1(c2, c3);
      dptr := dptr + 1;
      if dptr >= size {
        DecodeGoesOn(src, from, n, before, c1, c2, c3, 0);
        assert dst[..size] == before + [Octet0(c1, c2), Octet1(c2, c3)];
        return 0;
      }
      var c4 := Atoi64(At(src, sptr + 3));
      if c4 > 63 { DecodeRefuses(src, from, n, 3); PrependNone(before); return -1; }
      dst[dptr] := Octet2(c3, c4);
      dptr := dptr + 1;
      sptr := sptr + 4;
      DecodeGoesOn(src, from, n, before, c1, c2, c3, c4);
      assert dst[..dptr] == before + [Octet0(c1, c2), Octet1(c2, c3), Octet2(c3, c4)];
    }
    DecodeNothing(src[sptr..], dst[..size]);
    rc := 0;
  }

  lemma PrependNothing(r: Option<seq<Byte>>)
    ensures Prepend([], r) == r
  {
    if r.Some? {
      assert [] + r.value == r.value;
    }
  }

  lemma PrependNone(p: seq<Byte>)
    ensures Prepend(p, None) == None
  {
  }

  lemma DecodeNothing(s: seq<Byte>, p: seq<Byte>)
    ensures Prepend(p, Decode(s, 0)) == Some(p)
  {
    assert p + [] == p;
  }

  /** `*dptr++ = c`. */
  method Store(dst: array<Byte>, dptr: nat, c: Byte, ghost stop: nat)
    requires dptr < stop <= dst.Length
    modifies dst
    ensures dst[..dptr + 1] == old(dst[..dptr]) + [c]
    ensures dst[stop..] == old(dst[stop..])
  {
    dst[dptr] := c;
  }

  /** The last two characters of a group. */
  method StoreTwo(dst: array<Byte>, dptr: nat, c: Byte, d: Byte, ghost stop: nat)
    requires dptr + 1 < stop <= dst.Length
    modifies dst
    ensures dst[..dptr + 2] == old(dst[..dptr]) + [c, d]
    ensures dst[stop..] == old(dst[stop..])
  {
    Store(dst, dptr, c, stop);
    Store(dst, dptr + 1, d, stop);
  }

  lemma AppendedTwice(b: seq<Byte>, x: Byte, y: Byte, z: Byte, w: Byte)
    ensures b + [x] + [y] + [z, w] == b + [x, y, z, w]
  {
  }

  lemma EncodeGoesOn(src: seq<Byte>, sptr: nat, before: seq<Byte>)
    requires sptr < |src|
    ensures sptr + 1 == |src| ==>
              before + Encode(src[sptr..]) == before + [Itoa64(Sextet0(src[sptr])), Itoa64(Sextet1(src[sptr], 0))]
    ensures sptr + 2 == |src| ==>
              before + Encode(src[sptr..])
              == before + [Itoa64(Sextet0(src[sptr])), Itoa64(Sextet1(src[sptr], src[sptr + 1])),
                           Itoa64(Sextet2(src[sptr + 1], 0))]
    ensures sptr + 3 <= |src| ==>
              before + Encode(src[sptr..])
              == before + [Itoa64(Sextet0(src[sptr])), Itoa64(Sextet1(src[sptr], src[sptr + 1])),
                           Itoa64(Sextet2(src[sptr + 1], src[sptr + 2])), Itoa64(Sextet3(src[sptr + 2]))]
                 + Encode(src[sptr + 3..])
  {
    hide *;
    var s := src[sptr..];
    if sptr + 1 == |src| {
      assert s == [src[sptr]];
      EncodeEnd1(src[sptr]);
    } else if sptr + 2 == |src| {
      assert s == [src[sptr], src[sptr + 1]];
      EncodeEnd2(src[sptr], src[sptr + 1]);
    } else {
      assert s == [src[sptr], src[sptr + 1], src[sptr + 2]] + src[sptr + 3..];
      EncodeGroup(src[sptr], src[sptr + 1], src[sptr + 2], src[sptr + 3..]);
    }
  }

  lemma Appended(b: seq<Byte>, x: Byte, y: Byte, z: Byte, w: Byte)
    ensures b + [x] + [y] == b + [x, y]
    ensures b + [x] + [y] + [z] == b + [x, y, z]
    ensures b + [x] + [y] + [z] + [w] == b + [x, y, z, w]
  {
  }

  lemma RoomNeeded(n: nat)
    ensures n == 0 ==> EncodedLength(n) == 0
    ensures n == 1 ==> EncodedLength(n) == 2
    ensures n == 2 ==> EncodedLength(n) == 3
    ensures n >= 3 ==> EncodedLength(n) == 4 + EncodedLength(n - 3)
  {
  }

  lemma NothingLeft(before: seq<Byte>, src: seq<Byte>)
    ensures before + Encode(src[|src|..]) == before
  {
  }

  /** One turn of the loop of BF_encode: `done` where it breaks off, at the end of an unfinished group. */
  method EncodeTurn(dst: array<Byte>, dptr0: nat, src: seq<Byte>, sptr0: nat, ghost stop: nat)
    returns (dptr: nat, sptr: nat, done: bool)
    requires sptr0 < |src| && dptr0 + EncodedLength(|src| - sptr0) == stop <= dst.Length
    modifies dst
    ensures dst[stop..] == old(dst[stop..]) && sptr <= |src| && dptr <= stop
    ensures dst[..dptr] + Encode(src[sptr..]) == old(dst[..dptr0]) + Encode(src[sptr0..])
    ensures if done then sptr == |src| && dptr == stop
            else sptr == sptr0 + 3 && dptr + EncodedLength(|src| - sptr) == stop
  {
    hide *;
    dptr, sptr := dptr0, sptr0;
    ghost var b := dst[..dptr];
    RoomNeeded(|src| - sptr);
    EncodeGoesOn(src, sptr, b);
    var c1 := src[sptr];
    sptr := sptr + 1;
    Store(dst, dptr, Itoa64(Sextet0(c1)), stop);
    if sptr >= |src| {
      Store(dst, dptr + 1, Itoa64(Sextet1(c1, 0)), stop);
      Appended(b, Itoa64(Sextet0(c1)), Itoa64(Sextet1(c1, 0)), 0, 0);
      NothingLeft(dst[..dptr + 2], src);
      return dptr + 2, sptr, true;
    }
    var c2 := src[sptr];
    sptr := sptr + 1;
    Store(dst, dptr + 1, Itoa64(Sextet1(c1, c2)), stop);
    if sptr >= |src| {
      Store(dst, dptr + 2, Itoa64(Sextet2(c2, 0)), stop);
      Appended(b, Itoa64(Sextet0(c1)), Itoa64(Sextet1(c1, c2)), Itoa64(Sextet2(c2, 0)), 0);
      NothingLeft(dst[..dptr + 3], src);
      return dptr + 3, sptr, true;
    }
    ghost var x := c1;
    c1 := c2;
    c2 := src[sptr];
    sptr := sptr + 1;
    StoreTwo(dst, dptr + 2, Itoa64(Sextet2(c1, c2)), Itoa64(Sextet3(c2)), stop);
    AppendedTwice(b, Itoa64(Sextet0(x)), Itoa64(Sextet1(x, c1)), Itoa64(Sextet2(c1, c2)), Itoa64(Sextet3(c2)));
    return dptr + 4, sptr, false;
  }

  /** BF_encode, writing from position `off` of a buffer. */
  method BfEncode(dst: array<Byte>, off: nat, src: seq<Byte>)
    requires |src| >= 1 && off + EncodedLength(|src|) <= dst.Length
    modifies dst
    ensures dst[..off + EncodedLength(|src|)] == old(dst[..off]) + Encode(src)
    ensures dst[off + EncodedLength(|src|)..] == old(dst[off + EncodedLength(|src|)..])
  {
    hide *;
    var sptr, dptr, done := 0, off, false;
    ghost var stop := off + EncodedLength(|src|);
    assert src[0..] == src;
    while sptr < |src| && !done
      invariant 0 <= sptr <= |src| && 0 <= dptr <= stop
      invariant dst[..dptr] + Encode(src[sptr..]) == old(dst[..off]) + Encode(src)
      invariant dst[stop..] == old(dst[stop..])
      invariant if done then sptr == |src| && dptr == stop else dptr + EncodedLength(|src| - sptr) == stop
      decreases |src| - sptr, if done then 0 else 1
    {
      dptr, sptr, done := EncodeTurn(dst, dptr, src, sptr, stop);
    }
    RoomNeeded(|src| - sptr);
    NothingLeft(dst[..dptr], src);
  }
}
