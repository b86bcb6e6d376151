/** bcrypt's own base-64: BF_encode and BF_decode of crypt_blowfish.c. */
module BcryptCodec {
  import opened Words
  import opened Sextets

  /** The characters "./", '0'..'9', 'A'..'Z' and 'a'..'z'. */
  predicate IsAlphabet(c: Byte) {
    0x2e <= c <= 0x39 || 0x41 <= c <= 0x5a || 0x61 <= c <= 0x7a
  }

  /** The table BF_itoa64: "./", 'A'..'Z', 'a'..'z', '0'..'9' in this order. */
  function Itoa64(v: Byte): (c: Byte)
    requires v < 64
    ensures IsAlphabet(c)
    ensures Atoi64(c) == v
  {
    if v < 2 then v + 0x2e
    else if v < 28 then v - 2 + 0x41
    else if v < 54 then v - 28 + 0x61
    else v - 54 + 0x30
  }

  /** The table BF_atoi64 with the range check in front of it; 64 stands for a refused character. */
  function Atoi64(c: Byte): (v: Byte)
    ensures v <= 64
    ensures v < 64 <==> IsAlphabet(c)
  {
    if 0x2e <= c <= 0x2f then c - 0x2e
    else if 0x30 <= c <= 0x39 then c - 0x30 + 54
    else if 0x41 <= c <= 0x5a then c - 0x41 + 2
    else if 0x61 <= c <= 0x7a then c - 0x61 + 28
    else 64
  }

  /** bcrypt's alphabet in its order. */
  lemma AlphabetInOrder()
    ensures [Itoa64(0) as char, Itoa64(1) as char, Itoa64(2) as char, Itoa64(3) as char, Itoa64(4) as char,
             Itoa64(5) as char, Itoa64(6) as char, Itoa64(7) as char, Itoa64(8) as char, Itoa64(9) as char,
             Itoa64(10) as char, Itoa64(11) as char, Itoa64(12) as char, Itoa64(13) as char, Itoa64(14) as char,
             Itoa64(15) as char, Itoa64(16) as char, Itoa64(17) as char, Itoa64(18) as char, Itoa64(19) as char,
             Itoa64(20) as char, Itoa64(21) as char, Itoa64(22) as char, Itoa64(23) as char, Itoa64(24) as char,
             Itoa64(25) as char, Itoa64(26) as char, Itoa64(27) as char, Itoa64(28) as char, Itoa64(29) as char,
             Itoa64(30) as char, Itoa64(31) as char, Itoa64(32) as char, Itoa64(33) as char, Itoa64(34) as char,
             Itoa64(35) as char, Itoa64(36) as char, Itoa64(37) as char, Itoa64(38) as char, Itoa64(39) as char,
             Itoa64(40) as char, Itoa64(41) as char, Itoa64(42) as char, Itoa64(43) as char, Itoa64(44) as char,
             Itoa64(45) as char, Itoa64(46) as char, Itoa64(47) as char, Itoa64(48) as char, Itoa64(49) as char,
             Itoa64(50) as char, Itoa64(51) as char, Itoa64(52) as char, Itoa64(53) as char, Itoa64(54) as char,
             Itoa64(55) as char, Itoa64(56) as char, Itoa64(57) as char, Itoa64(58) as char, Itoa64(59) as char,
             Itoa64(60) as char, Itoa64(61) as char, Itoa64(62) as char, Itoa64(63) as char]
         == "./ABCDEFGHIJKLMNOPQRSTUVWXYZabcdefghijklmnopqrstuvwxyz0123456789"
  {
    hide Atoi64;
  }

  lemma ItoaOfAtoi(c: Byte)
    requires IsAlphabet(c)
    ensures Itoa64(Atoi64(c)) == c
  {
  }

  /** Character `i` of a C string; everything from its end on is read as NUL. */
  function At(s: seq<Byte>, i: nat): Byte {
    if i < |s| then s[i] else 0
  }

  /** Number of characters that encode `n` bytes: 4n/3 rounded up. */
  function EncodedLength(n: nat): nat {
    (4 * n + 2) / 3
  }

  function Encode(b: seq<Byte>): (s: seq<Byte>)
    ensures |s| == EncodedLength(|b|)
    ensures forall i :: 0 <= i < |s| ==> IsAlphabet(s[i])
  {
    if |b| == 0 then []
    else if |b| == 1 then [Itoa64(Sextet0(b[0])), Itoa64(Sextet1(b[0], 0))]
    else if |b| == 2 then
      [Itoa64(Sextet0(b[0])), Itoa64(Sextet1(b[0], b[1])), Itoa64(Sextet2(b[1], 0))]
    else
      [Itoa64(Sextet0(b[0])), Itoa64(Sextet1(b[0], b[1])), Itoa64(Sextet2(b[1], b[2])), Itoa64(Sextet3(b[2]))]
      + Encode(b[3..])
  }

  function Decode(s: seq<Byte>, n: nat): (r: Option<seq<Byte>>)
    ensures r.Some? ==> |r.value| == n
    decreases n
  {
    if n == 0 then Some([])
    else
      var c1, c2, c3, c4 := Atoi64(At(s, 0)), Atoi64(At(s, 1)), Atoi64(At(s, 2)), Atoi64(At(s, 3));
      if c1 == 64 || c2 == 64 then None
      else if n == 1 then Some([Octet0(c1, c2)])
      else if c3 == 64 then None
      else if n == 2 then Some([Octet0(c1, c2), Octet1(c2, c3)])
      else if c4 == 64 then None
      else
        match Decode(s[4..], n - 3)
        case None => None
        case Some(rest) => Some([Octet0(c1, c2), Octet1(c2, c3), Octet2(c3, c4)] + rest)
  }

  /** The string with the unused low bits of its last character cleared, for an encoding of `n` bytes. */
  function Canonical(s: seq<Byte>, n: nat): (r: seq<Byte>)
    requires |s| == EncodedLength(n)
    requires forall i :: 0 <= i < |s| ==> IsAlphabet(s[i])
    ensures |r| == |s|
  {
    if n % 3 == 0 then s
    else s[|s| - 1 := Itoa64(Atoi64(s[|s| - 1]) & (if n % 3 == 1 then 0x30 else 0x3c))]
  }

  /** Exactly the strings that start with enough alphabet characters are accepted. */
  lemma {:induction false} DecodeAccepts(s: seq<Byte>, n: nat)
    ensures Decode(s, n).Some? <==>
            |s| >= EncodedLength(n) && forall i :: 0 <= i < EncodedLength(n) ==> IsAlphabet(s[i])
    decreases n
  {
    if n > 3 && |s| >= 4 {
      DecodeAccepts(s[4..], n - 3);
      assert forall i :: 4 <= i < |s| ==> s[i] == s[4..][i - 4];
    }
    if |s| > 0 && n > 0 {
      assert s[0] == At(s, 0);
      if |s| > 1 { assert s[1] == At(s, 1); }
      if |s| > 2 && n > 1 { assert s[2] == At(s, 2); }
      if |s| > 3 && n > 2 { assert s[3] == At(s, 3); }
    }
  }

  lemma EncodeEnd1(a: Byte)
    ensures Encode([a]) == [Itoa64(Sextet0(a)), Itoa64(Sextet1(a, 0))]
  {
  }

  lemma EncodeEnd2(a: Byte, b: Byte)
    ensures Encode([a, b]) == [Itoa64(Sextet0(a)), Itoa64(Sextet1(a, b)), Itoa64(Sextet2(b, 0))]
  {
  }

  lemma EncodeGroup(a: Byte, b: Byte, c: Byte, rest: seq<Byte>)
    ensures Encode([a, b, c] + rest)
         == [Itoa64(Sextet0(a)), Itoa64(Sextet1(a, b)), Itoa64(Sextet2(b, c)), Itoa64(Sextet3(c))] + Encode(rest)
  {
    assert ([a, b, c] + rest)[3..] == rest;
  }

  lemma DecodeEnd1(s: seq<Byte>, c1: Byte, c2: Byte)
    requires |s| >= 2 && c1 < 64 && c2 < 64 && Atoi64(s[0]) == c1 && Atoi64(s[1]) == c2
    ensures Decode(s, 1) == Some([Octet0(c1, c2)])
  {
  }

  lemma DecodeEnd2(s: seq<Byte>, c1: Byte, c2: Byte, c3: Byte)
    requires |s| >= 3 && c1 < 64 && c2 < 64 && c3 < 64
    requires Atoi64(s[0]) == c1 && Atoi64(s[1]) == c2 && Atoi64(s[2]) == c3
    ensures Decode(s, 2) == Some([Octet0(c1, c2), Octet1(c2, c3)])
  {
  }

  lemma DecodeGroup(s: seq<Byte>, n: nat, c1: Byte, c2: Byte, c3: Byte, c4: Byte)
    requires |s| >= 4 && n >= 3 && c1 < 64 && c2 < 64 && c3 < 64 && c4 < 64
    requires Atoi64(s[0]) == c1 && Atoi64(s[1]) == c2 && Atoi64(s[2]) == c3 && Atoi64(s[3]) == c4
    ensures Decode(s, n).Some? <==> Decode(s[4..], n - 3).Some?
    ensures Decode(s, n).Some? ==>
              Decode(s, n).value
              == [Octet0(c1, c2), Octet1(c2, c3), Octet2(c3, c4)] + Decode(s[4..], n - 3).value
  {
  }

  lemma DecodeEncodeEnd1(x: Byte, tail: seq<Byte>)
    ensures Decode(Encode([x]) + tail, 1) == Some([x])
  {
    hide *;
    var s0, s1 := Sextet0(x), Sextet1(x, 0);
    OctetsOfSextets(x, 0, 0);
    EncodeEnd1(x);
    DecodeEnd1([Itoa64(s0), Itoa64(s1)] + tail, s0, s1);
  }

  lemma DecodeEncodeEnd2(x: Byte, y: Byte, tail: seq<Byte>)
    ensures Decode(Encode([x, y]) + tail, 2) == Some([x, y])
  {
    hide *;
    var s0, s1, s2 := Sextet0(x), Sextet1(x, y), Sextet2(y, 0);
    OctetsOfSextets(x, y, 0);
    EncodeEnd2(x, y);
    DecodeEnd2([Itoa64(s0), Itoa64(s1), Itoa64(s2)] + tail, s0, s1, s2);
  }

  lemma DecodeEncodeGroup(x: Byte, y: Byte, z: Byte, rest: seq<Byte>, tail: seq<Byte>)
    requires Decode(Encode(rest) + tail, |rest|) == Some(rest)
    ensures Decode(Encode([x, y, z] + rest) + tail, 3 + |rest|) == Some([x, y, z] + rest)
  {
    hide *;
    var s0, s1, s2, s3 := Sextet0(x), Sextet1(x, y), Sextet2(y, z), Sextet3(z);
    OctetsOfSextets(x, y, z);
    EncodeGroup(x, y, z, rest);
    var text := [Itoa64(s0), Itoa64(s1), Itoa64(s2), Itoa64(s3)] + (Encode(rest) + tail);
    assert Encode([x, y, z] + rest) + tail == text;
    assert text[4..] == Encode(rest) + tail;
    DecodeGroup(text, 3 + |rest|, s0, s1, s2, s3);
  }

  /** Decoding undoes encoding, whatever follows the encoded text. */
  lemma {:induction false} DecodeEncode(b: seq<Byte>, tail: seq<Byte>)
    ensures Decode(Encode(b) + tail, |b|) == Some(b)
    decreases |b|
  {
    if |b| == 1 {
      assert b == [b[0]];
      DecodeEncodeEnd1(b[0], tail);
    } else if |b| == 2 {
      assert b == [b[0], b[1]];
      DecodeEncodeEnd2(b[0], b[1], tail);
    } else if |b| >= 3 {
      assert b == [b[0], b[1], b[2]] + b[3..];
      DecodeEncode(b[3..], tail);
      DecodeEncodeGroup(b[0], b[1], b[2], b[3..], tail);
    }
  }

  lemma EncodeDecodeEnd1(s: seq<Byte>)
    requires |s| >= 2 && IsAlphabet(s[0]) && IsAlphabet(s[1])
    ensures Decode(s, 1).Some? && Encode(Decode(s, 1).value) == [s[0], Itoa64(Atoi64(s[1]) & 0x30)]
  {
    hide *;
    var c1, c2 := Atoi64(s[0]), Atoi64(s[1]);
    SextetsOfOctets(c1, c2, 0, 0);
    ItoaOfAtoi(s[0]);
    DecodeEnd1(s, c1, c2);
    EncodeEnd1(Octet0(c1, c2));
  }

  lemma EncodeDecodeEnd2(s: seq<Byte>)
    requires |s| >= 3 && IsAlphabet(s[0]) && IsAlphabet(s[1]) && IsAlphabet(s[2])
    ensures Decode(s, 2).Some? && Encode(Decode(s, 2).value) == [s[0], s[1], Itoa64(Atoi64(s[2]) & 0x3c)]
  {
    hide *;
    var c1, c2, c3 := Atoi64(s[0]), Atoi64(s[1]), Atoi64(s[2]);
    SextetsOfOctets(c1, c2, c3, 0);
    ItoaOfAtoi(s[0]);
    ItoaOfAtoi(s[1]);
    DecodeEnd2(s, c1, c2, c3);
    EncodeEnd2(Octet0(c1, c2), Octet1(c2, c3));
  }

  lemma EncodeDecodeGroup(s: seq<Byte>, n: nat)
    requires n >= 3 && |s| >= 4 && Decode(s, n).Some?
    requires IsAlphabet(s[0]) && IsAlphabet(s[1]) && IsAlphabet(s[2]) && IsAlphabet(s[3])
    ensures Decode(s[4..], n - 3).Some?
    ensures Encode(Decode(s, n).value) == s[..4] + Encode(Decode(s[4..], n - 3).value)
  {
    hide *;
    var c1, c2, c3, c4 := Atoi64(s[0]), Atoi64(s[1]), Atoi64(s[2]), Atoi64(s[3]);
    SextetsOfOctets(c1, c2, c3, c4);
    ItoaOfAtoi(s[0]);
    ItoaOfAtoi(s[1]);
    ItoaOfAtoi(s[2]);
    ItoaOfAtoi(s[3]);
    DecodeGroup(s, n, c1, c2, c3, c4);
    EncodeGroup(Octet0(c1, c2), Octet1(c2, c3), Octet2(c3, c4), Decode(s[4..], n - 3).value);
    assert s[..4] == [s[0], s[1], s[2], s[3]];
  }

  lemma CanonicalGroup(s: seq<Byte>, n: nat)
    requires n >= 3 && |s| == EncodedLength(n)
    requires forall i :: 0 <= i < |s| ==> IsAlphabet(s[i])
    ensures |s| - 4 == EncodedLength(n - 3)
    ensures Canonical(s, n) == s[..4] + Canonical(s[4..], n - 3)
  {
    hide Itoa64, Atoi64, IsAlphabet;
    var rest := s[4..];
    if n % 3 != 0 {
      assert rest[|rest| - 1] == s[|s| - 1];
    }
  }

  lemma CanonicalEnd(s: seq<Byte>, n: nat)
    requires |s| == EncodedLength(n) && forall i :: 0 <= i < |s| ==> IsAlphabet(s[i])
    ensures n == 1 ==> Canonical(s, n) == [s[0], Itoa64(Atoi64(s[1]) & 0x30)]
    ensures n == 2 ==> Canonical(s, n) == [s[0], s[1], Itoa64(Atoi64(s[2]) & 0x3c)]
  {
  }

  lemma EncodeDecodeStep(s: seq<Byte>, n: nat)
    requires n >= 3 && Decode(s, n).Some?
    requires |s| >= EncodedLength(n) && forall i :: 0 <= i < EncodedLength(n) ==> IsAlphabet(s[i])
    requires Decode(s[4..], n - 3).Some? && 4 + EncodedLength(n - 3) == EncodedLength(n)
    requires forall i :: 0 <= i < EncodedLength(n - 3) ==> IsAlphabet(s[4..][i])
    requires Encode(Decode(s[4..], n - 3).value) == Canonical(s[4..][..EncodedLength(n - 3)], n - 3)
    ensures Encode(Decode(s, n).value) == Canonical(s[..EncodedLength(n)], n)
  {
    hide *;
    var text := s[..EncodedLength(n)];
    assert text[4..] == s[4..][..EncodedLength(n - 3)];
    assert text[..4] == s[..4];
    EncodeDecodeGroup(s, n);
    CanonicalGroup(text, n);
  }

  /** Encoding a decoded text gives the text back up to the unused bits of its last character. */
  lemma {:induction false} EncodeDecode(s: seq<Byte>, n: nat)
    requires Decode(s, n).Some?
    ensures |s| >= EncodedLength(n) && forall i :: 0 <= i < EncodedLength(n) ==> IsAlphabet(s[i])
    ensures Encode(Decode(s, n).value) == Canonical(s[..EncodedLength(n)], n)
    decreases n
  {
    DecodeAccepts(s, n);
    if n == 0 {
      assert s[..0] == [];
    } else if n == 1 {
      assert EncodedLength(n) == 2;
      hide *;
      EncodeDecodeEnd1(s);
      CanonicalEnd(s[..2], n);
    } else if n == 2 {
      assert EncodedLength(n) == 3;
      hide *;
      EncodeDecodeEnd2(s);
      CanonicalEnd(s[..3], n);
    } else {
      assert EncodedLength(n) == 4 + EncodedLength(n - 3);
      hide *;
      EncodeDecodeGroup(s, n);
      EncodeDecode(s[4..], n - 3);
      EncodeDecodeStep(s, n);
    }
  }
}
