/** The strings of bCrypt.js and its base-64. */
module BcryptJsText {
  import opened Words
  import opened Sextets
  import opened BcryptCodec
  import opened BcryptCodecLoops

  type CodeUnit = bv16
  type JsString = seq<CodeUnit>

  function UnitOf(b: Byte): CodeUnit { b as CodeUnit }

  /** The string whose code units are the given bytes. */
  function Widen(s: seq<Byte>): (r: JsString)
    ensures |r| == |s|
    ensures forall i :: 0 <= i < |s| ==> r[i] == UnitOf(s[i])
  {
    seq(|s|, i requires 0 <= i < |s| => UnitOf(s[i]))
  }

  lemma WidenAppend(a: seq<Byte>, b: seq<Byte>)
    ensures Widen(a + b) == Widen(a) + Widen(b)
  {
  }

  /** char64; 64 stands for -1, and the undefined entry behind the table acts as 0. */
  function Char64(c: CodeUnit): (v: Byte)
    ensures v <= 64
  {
    if c > 128 then 64 else if c == 128 then 0 else Atoi64(c as Byte)
  }

  /** Below 128 char64 knows bcrypt's alphabet and nothing else; the entry at 128 is undefined, the others are -1. */
  lemma Char64Cases(c: CodeUnit)
    ensures c < 128 && IsAlphabet(c as Byte) ==> Char64(c) < 64 && Itoa64(Char64(c)) == c as Byte
    ensures c < 128 && !IsAlphabet(c as Byte) ==> Char64(c) == 64
    ensures Char64(128) == 0 && (c > 128 ==> Char64(c) == 64)
  {
    if c < 128 && IsAlphabet(c as Byte) {
      ItoaOfAtoi(c as Byte);
    }
  }

  lemma Char64OfByte(b: Byte)
    requires IsAlphabet(b)
    ensures Char64(UnitOf(b)) == Atoi64(b)
  {
  }

  /** getByte, as far as its lowest eight bits go: all its results are masked with 0xff before use. */
  function GetByte(c: CodeUnit): Byte {
    if c > 127 then 0x80 | (c & 0x7f) as Byte else c as Byte
  }

  /** From 128 on getByte gives a negative number, whose low bits are 128 and the remainder by 128. */
  lemma GetByteValue(c: CodeUnit)
    ensures GetByte(c) as CodeUnit == if c < 128 then c else 128 + c % 128
  {
  }

  lemma GetByteOfByte(b: Byte)
    ensures GetByte(UnitOf(b)) == b
  {
  }

  /** encode_base64 throws for a useless length. */
  method EncodeBase64(d: seq<Byte>, len: int) returns (r: Option<JsString>)
    ensures r == if len <= 0 || len > |d| then None else Some(Widen(Encode(d[..len])))
  {
    if len <= 0 || len > |d| {
      return None;
    }
    var rs: seq<Byte> := [];
    var off := 0;
    ghost var src := d[..len];
    assert src[0..] == src;
    hide Encode, Itoa64, Sextet0, Sextet1, Sextet2, Sextet3, IsAlphabet, Widen;
    while off < len
      invariant 0 <= off <= len
      invariant rs + Encode(src[off..]) == Encode(src)
      decreases len - off
    {
      EncodeGoesOn(src, off, rs);
      ghost var before := rs;
      var c1 := d[off];
      off := off + 1;
      rs := rs + [Itoa64(Sextet0(c1))];
      if off >= len {
        rs := rs + [Itoa64(Sextet1(c1, 0))];
        Appended(before, Itoa64(Sextet0(c1)), Itoa64(Sextet1(c1, 0)), 0, 0);
        return Some(Widen(rs));
      }
      var c2 := d[off];
      off := off + 1;
      rs := rs + [Itoa64(Sextet1(c1, c2))];
      if off >= len {
        rs := rs + [Itoa64(Sextet2(c2, 0))];
        Appended(before, Itoa64(Sextet0(c1)), Itoa64(Sextet1(c1, c2)), Itoa64(Sextet2(c2, 0)), 0);
        return Some(Widen(rs));
      }
      ghost var x := c1;
      c1 := c2;
      c2 := d[off];
      off := off + 1;
      rs := rs + [Itoa64(Sextet2(c1, c2))];
      rs := rs + [Itoa64(Sextet3(c2))];
      Appended(before, Itoa64(Sextet0(x)), Itoa64(Sextet1(x, c1)), Itoa64(Sextet2(c1, c2)), Itoa64(Sextet3(c2)));
    }
    NothingLeft(rs, src);
    r := Some(Widen(rs));
  }

  /** What decode_base64 returns for at most `n` bytes. */
  function JsDecode(s: JsString, n: nat): (r: seq<Byte>)
    ensures |r| <= n
    decreases n
  {
    if |s| < 2 || n == 0 then []
    else
      var c1, c2 := Char64(s[0]), Char64(s[1]);
      if c1 == 64 || c2 == 64 then []
      else if n == 1 || |s| == 2 then [Octet0(c1, c2)]
      else
        var c3 := Char64(s[2]);
        if c3 == 64 then [Octet0(c1, c2)]
        else if n == 2 || |s| == 3 then [Octet0(c1, c2), Octet1(c2, c3)]
        else [Octet0(c1, c2), Octet1(c2, c3), LastOctet(c3, Char64(s[3]))] + JsDecode(s[4..], n - 3)
  }

  /** The third byte of a group; its last character is not checked, and `o |= -1` sets all bits. */
  function LastOctet(c3: Byte, c4: Byte): Byte {
    if c4 == 64 then 0xff else Octet2(c3, c4)
  }

  /** A character outside the alphabet ends the decoding, but as the fourth of a group it makes a byte 0xff. */
  lemma UncheckedCharacter(s: JsString, n: nat)
    requires |s| >= 4 && n >= 3 && forall i :: 0 <= i < 3 ==> s[i] < 128 && IsAlphabet(s[i] as Byte)
    requires s[3] > 128 || (s[3] < 128 && !IsAlphabet(s[3] as Byte))
    ensures |JsDecode(s, n)| >= 3 && JsDecode(s, n)[2] == 0xff
  {
    hide Atoi64, Octet0, Octet1, Octet2, IsAlphabet;
  }

  lemma JsDecodeIs(f: JsString, n: nat)
    requires |f| > 1 && n >= 1
    ensures var c1, c2, all := Char64(f[0]), Char64(f[1]), JsDecode(f, n);
            if c1 == 64 || c2 == 64 then all == []
            else if n == 1 || |f| == 2 || Char64(f[2]) == 64 then all == [Octet0(c1, c2)]
            else
              var c3 := Char64(f[2]);
              if n == 2 || |f| == 3 then all == [Octet0(c1, c2), Octet1(c2, c3)]
              else all == [Octet0(c1, c2), Octet1(c2, c3), LastOctet(c3, Char64(f[3]))] + JsDecode(f[4..], n - 3)
  {
    hide Octet0, Octet1, LastOctet, Char64;
  }

  lemma Prefixed(before: seq<Byte>, a: Byte, b: Byte, c: Byte, rest: seq<Byte>)
    ensures before + [] == before
    ensures before + [a, b] == before + [a] + [b]
    ensures before + ([a, b, c] + rest) == before + [a] + [b] + [c] + rest
  {
  }

  lemma JsDecodeGoesOn(s: JsString, off: nat, n: nat, before: seq<Byte>)
    requires off + 1 < |s| && n >= 1
    ensures var c1, c2, all := Char64(s[off]), Char64(s[off + 1]), before + JsDecode(s[off..], n);
            if c1 == 64 || c2 == 64 then all == before
            else if n == 1 || off + 2 == |s| || Char64(s[off + 2]) == 64 then all == before + [Octet0(c1, c2)]
            else
              var c3 := Char64(s[off + 2]);
              if n == 2 || off + 3 == |s| then all == before + [Octet0(c1, c2)] + [Octet1(c2, c3)]
              else all == before + [Octet0(c1, c2)] + [Octet1(c2, c3)] + [LastOctet(c3, Char64(s[off + 3]))]
                          + JsDecode(s[off + 4..], n - 3)
  {
    hide *;
    var f := s[off..];
    JsDecodeIs(f, n);
    var c1, c2 := Char64(f[0]), Char64(f[1]);
    var c3 := if |f| > 2 then Char64(f[2]) else 0;
    if |f| > 3 && n > 2 {
      assert f[4..] == s[off + 4..];
      Prefixed(before, Octet0(c1, c2), Octet1(c2, c3), LastOctet(c3, Char64(f[3])), JsDecode(f[4..], n - 3));
    } else {
      Prefixed(before, Octet0(c1, c2), Octet1(c2, c3), 0, []);
    }
  }

  lemma JsDecodeStops(s: JsString, off: nat, n: nat, r: seq<Byte>)
    requires off <= |s| && (off + 1 >= |s| || n == 0)
    ensures r + JsDecode(s[off..], n) == r
  {
  }

  /** decode_base64. */
  method DecodeBase64(s: JsString, maxolen: nat) returns (r: seq<Byte>)
    requires maxolen > 0
    ensures r == JsDecode(s, maxolen)
  {
    hide *;
    var off, olen := 0, 0;
    r := [];
    assert s[0..] == s;
    while off < |s| - 1 && olen < maxolen
      invariant 0 <= off <= |s| && 0 <= olen <= maxolen && |r| == olen
      invariant r + JsDecode(s[off..], maxolen - olen) == JsDecode(s, maxolen)
      decreases maxolen - olen
    {
      JsDecodeGoesOn(s, off, maxolen - olen, r);
      var c1 := Char64(s[off]);
      var c2 := Char64(s[off + 1]);
      off := off + 2;
      if c1 == 64 || c2 == 64 {
        return r;
      }
      r := r + [Octet0(c1, c2)];
      olen := olen + 1;
      if olen >= maxolen || off >= |s| {
        return r;
      }
      var c3 := Char64(s[off]);
      off := off + 1;
      if c3 == 64 {
        return r;
      }
      r := r + [Octet1(c2, c3)];
      olen := olen + 1;
      if olen >= maxolen || off >= |s| {
        return r;
      }
      var c4 := Char64(s[off]);
      off := off + 1;
      r := r + [LastOctet(c3, c4)];
      olen := olen + 1;
    }
    JsDecodeStops(s, off, maxolen - olen, r);
  }

  lemma WidenedGroup(s: seq<Byte>)
    ensures forall i :: 0 <= i < |s| && IsAlphabet(s[i]) ==> Char64(Widen(s)[i]) == Atoi64(s[i])
  {
    hide Char64, IsAlphabet, Atoi64;
    forall i | 0 <= i < |s| && IsAlphabet(s[i])
      ensures Char64(Widen(s)[i]) == Atoi64(s[i])
    {
      Char64OfByte(s[i]);
    }
  }

  /** Where BF_decode accepts a text, decode_base64 returns the same bytes. */
  lemma {:induction false} JsDecodeLikeC(s: seq<Byte>, n: nat)
    requires Decode(s, n).Some?
    ensures JsDecode(Widen(s), n) == Decode(s, n).value
    decreases n
  {
    DecodeAccepts(s, n);
    WidenedGroup(s);
    hide Atoi64, IsAlphabet, Char64, Octet0, Octet1, Octet2;
    if n == 1 {
      DecodeEnd1(s, Atoi64(s[0]), Atoi64(s[1]));
    } else if n == 2 {
      DecodeEnd2(s, Atoi64(s[0]), Atoi64(s[1]), Atoi64(s[2]));
    } else if n >= 3 {
      DecodeGroup(s, n, Atoi64(s[0]), Atoi64(s[1]), Atoi64(s[2]), Atoi64(s[3]));
      JsDecodeLikeC(s[4..], n - 3);
      assert Widen(s)[4..] == Widen(s[4..]);
    }
  }
}
