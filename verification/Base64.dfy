/** base64_encode and base64_decode of base64.cpp against section 4 of RFC 4648. */
module Base64 {
  import opened Words

  /** The three octets of a group, most significant first. */
  type Quantum = bv24

  function Group(a: Byte, b: Byte, c: Byte): Quantum {
    (a as Quantum << 16) | (b as Quantum << 8) | c as Quantum
  }

  /** Its four six-bit values, most significant first. */
  function Six0(q: Quantum): (v: Byte) ensures v < 64 { (q >> 18) as Byte }
  function Six1(q: Quantum): (v: Byte) ensures v < 64 { ((q >> 12) & 63) as Byte }
  function Six2(q: Quantum): (v: Byte) ensures v < 64 { ((q >> 6) & 63) as Byte }
  function Six3(q: Quantum): (v: Byte) ensures v < 64 { (q & 63) as Byte }

  function Eight0(q: Quantum): Byte { (q >> 16) as Byte }
  function Eight1(q: Quantum): Byte { ((q >> 8) & 255) as Byte }
  function Eight2(q: Quantum): Byte { (q & 255) as Byte }

  function Join(s: Byte, t: Byte, u: Byte, v: Byte): Quantum {
    (s as Quantum << 18) | (t as Quantum << 12) | (u as Quantum << 6) | v as Quantum
  }

  /** Section 4 of RFC 4648: the 24 bits as one number, of three octets and of four six-bit values. */
  lemma GroupIsNumber(a: Byte, b: Byte, c: Byte)
    ensures Group(a, b, c) == a as Quantum * 0x1_0000 + b as Quantum * 0x100 + c as Quantum
  {
  }

  lemma SixesOfNumber(q: Quantum)
    ensures q == Six0(q) as Quantum * 0x4_0000 + Six1(q) as Quantum * 0x1000 + Six2(q) as Quantum * 0x40
                 + Six3(q) as Quantum
  {
  }

  /** The base 64 alphabet: 'A'..'Z', 'a'..'z', '0'..'9', '+', '/'. */
  function Letter(v: Byte): (c: Byte)
    requires v < 64
    ensures IsBase64(c) && Find(c) == v
  {
    if v < 26 then v + 0x41
    else if v < 52 then v - 26 + 0x61
    else if v < 62 then v - 52 + 0x30
    else if v == 62 then 0x2b
    else 0x2f
  }

  /** isalnum in the C locale, or '+' or '/'. */
  predicate IsBase64(c: Byte) {
    0x30 <= c <= 0x39 || 0x41 <= c <= 0x5a || 0x61 <= c <= 0x7a || c == 0x2b || c == 0x2f
  }

  /** The position of a character in the alphabet as an unsigned char; npos becomes 0xff. */
  function Find(c: Byte): (v: Byte)
    ensures v < 64 <==> IsBase64(c)
    ensures !IsBase64(c) ==> v == 0xff
  {
    if 0x41 <= c <= 0x5a then c - 0x41
    else if 0x61 <= c <= 0x7a then c - 0x61 + 26
    else if 0x30 <= c <= 0x39 then c - 0x30 + 52
    else if c == 0x2b then 62
    else if c == 0x2f then 63
    else 0xff
  }

  /** The alphabet of table 1 of RFC 4648, in its order. */
  lemma AlphabetInOrder()
    ensures [Letter(0) as char, Letter(1) as char, Letter(2) as char, Letter(3) as char, Letter(4) as char,
             Letter(5) as char, Letter(6) as char, Letter(7) as char, Letter(8) as char, Letter(9) as char,
             Letter(10) as char, Letter(11) as char, Letter(12) as char, Letter(13) as char, Letter(14) as char,
             Letter(15) as char, Letter(16) as char, Letter(17) as char, Letter(18) as char, Letter(19) as char,
             Letter(20) as char, Letter(21) as char, Letter(22) as char, Letter(23) as char, Letter(24) as char,
             Letter(25) as char, Letter(26) as char, Letter(27) as char, Letter(28) as char, Letter(29) as char,
             Letter(30) as char, Letter(31) as char, Letter(32) as char, Letter(33) as char, Letter(34) as char,
             Letter(35) as char, Letter(36) as char, Letter(37) as char, Letter(38) as char, Letter(39) as char,
             Letter(40) as char, Letter(41) as char, Letter(42) as char, Letter(43) as char, Letter(44) as char,
             Letter(45) as char, Letter(46) as char, Letter(47) as char, Letter(48) as char, Letter(49) as char,
             Letter(50) as char, Letter(51) as char, Letter(52) as char, Letter(53) as char, Letter(54) as char,
             Letter(55) as char, Letter(56) as char, Letter(57) as char, Letter(58) as char, Letter(59) as char,
             Letter(60) as char, Letter(61) as char, Letter(62) as char, Letter(63) as char]
         == "ABCDEFGHIJKLMNOPQRSTUVWXYZabcdefghijklmnopqrstuvwxyz0123456789+/"
  {
    hide Find;
  }

  lemma LetterOfFind(c: Byte)
    requires IsBase64(c)
    ensures Letter(Find(c)) == c
  {
  }

  const PAD: Byte := 0x3d

  function Four(q: Quantum): seq<Byte> {
    [Letter(Six0(q)), Letter(Six1(q)), Letter(Six2(q)), Letter(Six3(q))]
  }

  function Three(q: Quantum): seq<Byte> {
    [Eight0(q), Eight1(q), Eight2(q)]
  }

  /** Section 4 of RFC 4648: the letters, without the padding; zero bits fill an unfinished group. */
  function Letters(b: seq<Byte>): seq<Byte> {
    if |b| == 0 then []
    else if |b| == 1 then Four(Group(b[0], 0, 0))[..2]
    else if |b| == 2 then Four(Group(b[0], b[1], 0))[..3]
    else Four(Group(b[0], b[1], b[2])) + Letters(b[3..])
  }

  function Padding(n: nat): seq<Byte> {
    if n % 3 == 0 then [] else if n % 3 == 1 then [PAD, PAD] else [PAD]
  }

  function Encode(b: seq<Byte>): seq<Byte> {
    Letters(b) + Padding(|b|)
  }

  /** The value of a letter, 0 past the end. */
  function Value(p: seq<Byte>, i: nat): Byte {
    if i < |p| then Find(p[i]) else 0
  }

  /** The octets that a string of letters carries; an unfinished group of k letters carries k - 1. */
  function Octets(p: seq<Byte>): seq<Byte> {
    if |p| < 2 then []
    else
      var q := Join(Value(p, 0), Value(p, 1), Value(p, 2), Value(p, 3));
      if |p| < 4 then Three(q)[..|p| - 1] else Three(q) + Octets(p[4..])
  }

  /** Length of the longest prefix of letters. */
  function PrefixLength(s: seq<Byte>): (m: nat)
    ensures m <= |s|
    ensures forall i :: 0 <= i < m ==> IsBase64(s[i])
    ensures m < |s| ==> !IsBase64(s[m])
  {
    if s == [] || !IsBase64(s[0]) then 0 else 1 + PrefixLength(s[1..])
  }

  function Decode(s: seq<Byte>): seq<Byte> {
    Octets(s[..PrefixLength(s)])
  }

  lemma {:induction false} LettersLength(b: seq<Byte>)
    ensures |Letters(b)| == (4 * |b| + 2) / 3
    ensures forall i :: 0 <= i < |Letters(b)| ==> IsBase64(Letters(b)[i])
  {
    if |b| >= 3 {
      LettersLength(b[3..]);
    }
  }

  /** The encoding of n bytes has 4 * ceil(n / 3) characters, few enough for the decoder's int below 2^30 bytes. */
  lemma EncodedLength(b: seq<Byte>)
    ensures |Encode(b)| == 4 * ((|b| + 2) / 3)
    ensures |b| < 0x4000_0000 ==> |Encode(b)| < 0x8000_0000
  {
    LettersLength(b);
    PaddedLength(|b|);
    hide Letters, Padding;
  }

  lemma PaddedLength(n: nat)
    ensures (4 * n + 2) / 3 + |Padding(n)| == 4 * ((n + 2) / 3)
  {
    var k := n / 3;
    assert n == 3 * k || n == 3 * k + 1 || n == 3 * k + 2;
  }

  /** The test vectors of section 10 of RFC 4648: "", "f" ("Zg=="), "fo" ("Zm8="), "foo" ("Zm9v"), "foob" ("Zm9vYg=="),
      "fooba" ("Zm9vYmE=") and "foobar" ("Zm9vYmFy"). */
  lemma TestVectors()
    ensures Encode([]) == []
    ensures Encode([0x66]) == [0x5a, 0x67, 0x3d, 0x3d]
    ensures Encode([0x66, 0x6f]) == [0x5a, 0x6d, 0x38, 0x3d]
    ensures Encode([0x66, 0x6f, 0x6f]) == [0x5a, 0x6d, 0x39, 0x76]
    ensures Encode([0x66, 0x6f, 0x6f, 0x62])
         == [0x5a, 0x6d, 0x39, 0x76, 0x59, 0x67, 0x3d, 0x3d]
    ensures Encode([0x66, 0x6f, 0x6f, 0x62, 0x61])
         == [0x5a, 0x6d, 0x39, 0x76, 0x59, 0x6d, 0x45, 0x3d]
    ensures Encode([0x66, 0x6f, 0x6f, 0x62, 0x61, 0x72])
         == [0x5a, 0x6d, 0x39, 0x76, 0x59, 0x6d, 0x46, 0x79]
  {
  }

  lemma {:induction false} OctetsLength(p: seq<Byte>)
    ensures |Octets(p)| == 3 * (|p| / 4) + if |p| % 4 == 0 then 0 else |p| % 4 - 1
  {
    if |p| >= 4 {
      OctetsLength(p[4..]);
    }
  }

  /** Decoding gives three bytes for each four letters in front and k - 1 for the k left over. */
  lemma DecodedLength(s: seq<Byte>)
    ensures var m := PrefixLength(s);
            |Decode(s)| == 3 * (m / 4) + (if m % 4 == 0 then 0 else m % 4 - 1)
  {
    OctetsLength(s[..PrefixLength(s)]);
  }

  lemma {:induction false} PrefixIs(p: seq<Byte>, rest: seq<Byte>)
    requires forall i :: 0 <= i < |p| ==> IsBase64(p[i])
    requires rest != [] ==> !IsBase64(rest[0])
    ensures PrefixLength(p + rest) == |p| && (p + rest)[..|p|] == p
  {
    if p == [] {
      assert p + rest == rest;
    } else {
      PrefixIs(p[1..], rest);
      assert (p + rest)[1..] == p[1..] + rest;
      assert (p + rest)[..|p|] == p;
    }
  }

  /** Everything from the first character on that is not a letter is ignored. */
  lemma OnlyPrefixMatters(p: seq<Byte>, rest: seq<Byte>)
    requires forall i :: 0 <= i < |p| ==> IsBase64(p[i])
    requires rest != [] ==> !IsBase64(rest[0])
    ensures Decode(p + rest) == Decode(p) == Octets(p)
  {
    PrefixIs(p, rest);
    PrefixIs(p, []);
    assert p + [] == p;
    hide Octets;
  }

  lemma JoinOfGroup(q: Quantum)
    ensures Join(Six0(q), Six1(q), Six2(q), Six3(q)) == q
  {
  }

  lemma EightOfGroup(a: Byte, b: Byte, c: Byte)
    ensures Eight0(Group(a, b, c)) == a && Eight1(Group(a, b, c)) == b && Eight2(Group(a, b, c)) == c
  {
  }

  lemma ThreeOfFour(a: Byte, b: Byte, c: Byte)
    ensures Octets(Four(Group(a, b, c))) == [a, b, c]
  {
    var q := Group(a, b, c);
    var p := Four(q);
    JoinOfGroup(q);
    EightOfGroup(a, b, c);
    assert Value(p, 0) == Six0(q) && Value(p, 1) == Six1(q) && Value(p, 2) == Six2(q) && Value(p, 3) == Six3(q);
    assert p[4..] == [];
  }

  lemma LowBitsClear(a: Byte, b: Byte)
    ensures Six2(Group(a, 0, 0)) == 0 && Six3(Group(a, 0, 0)) == 0 && Six3(Group(a, b, 0)) == 0
  {
  }

  lemma {:induction false} OctetsOfLetters(b: seq<Byte>)
    ensures Octets(Letters(b)) == b
  {
    if |b| == 1 {
      var q := Group(b[0], 0, 0);
      LowBitsClear(b[0], 0);
      JoinOfGroup(q);
      EightOfGroup(b[0], 0, 0);
    } else if |b| == 2 {
      var q := Group(b[0], b[1], 0);
      LowBitsClear(b[0], b[1]);
      JoinOfGroup(q);
      EightOfGroup(b[0], b[1], 0);
    } else if |b| >= 3 {
      var p := Four(Group(b[0], b[1], b[2]));
      ThreeOfFour(b[0], b[1], b[2]);
      OctetsOfLetters(b[3..]);
      OctetsAppend(p, Letters(b[3..]));
      assert [b[0], b[1], b[2]] + b[3..] == b;
    }
  }

  /** Decoding undoes encoding, for every byte string. */
  lemma DecodeEncode(b: seq<Byte>)
    ensures Decode(Encode(b)) == b
  {
    LettersLength(b);
    OnlyPrefixMatters(Letters(b), Padding(|b|));
    OctetsOfLetters(b);
  }

  /** Whole groups of letters are decoded on their own. */
  lemma {:induction false} OctetsAppend(p: seq<Byte>, q: seq<Byte>)
    requires |p| % 4 == 0
    ensures Octets(p + q) == Octets(p) + Octets(q)
  {
    hide Join, Three, Find, Octets;
    if p == [] {
      NoOctets();
      assert p + q == q;
    } else {
      OctetsAppend(p[4..], q);
      OctetsIs(p + q);
      OctetsIs(p);
      FrontOfAppend(p, q);
      Regroup(Three(Join(Find(p[0]), Find(p[1]), Find(p[2]), Find(p[3]))), Octets(p[4..]), Octets(q));
    }
  }

  lemma NoOctets()
    ensures Octets([]) == []
  {
  }

  lemma Regroup(a: seq<Byte>, b: seq<Byte>, c: seq<Byte>)
    ensures a + (b + c) == a + b + c
  {
  }

  lemma FrontOfAppend(p: seq<Byte>, q: seq<Byte>)
    requires |p| >= 4
    ensures (p + q)[0] == p[0] && (p + q)[1] == p[1] && (p + q)[2] == p[2] && (p + q)[3] == p[3]
    ensures (p + q)[4..] == p[4..] + q
  {
  }

  lemma OctetsIs(p: seq<Byte>)
    requires |p| >= 4
    ensures Octets(p) == Three(Join(Find(p[0]), Find(p[1]), Find(p[2]), Find(p[3]))) + Octets(p[4..])
  {
  }

  /** Whole groups of bytes are encoded on their own. */
  lemma {:induction false} LettersAppend(a: seq<Byte>, b: seq<Byte>)
    requires |a| % 3 == 0
    ensures Letters(a + b) == Letters(a) + Letters(b)
  {
    hide Four, Group;
    if a == [] {
      assert a + b == b;
    } else {
      hide Letters;
      LettersAppend(a[3..], b);
      assert (a + b)[3..] == a[3..] + b;
      LettersIs(a + b);
      LettersIs(a);
      assert (a + b)[0] == a[0] && (a + b)[1] == a[1] && (a + b)[2] == a[2];
    }
  }

  lemma LettersIs(b: seq<Byte>)
    requires |b| >= 3
    ensures Letters(b) == Four(Group(b[0], b[1], b[2])) + Letters(b[3..])
  {
  }

  lemma GroupOfJoin(s: Byte, t: Byte, u: Byte, v: Byte)
    requires s < 64 && t < 64 && u < 64 && v < 64
    ensures var q := Join(s, t, u, v); Six0(q) == s && Six1(q) == t && Six2(q) == u && Six3(q) == v
  {
  }

  lemma GroupOfEight(q: Quantum)
    ensures Group(Eight0(q), Eight1(q), Eight2(q)) == q
  {
  }

  /** The two or four highest of six bits. */
  function HighTwo(v: Byte): (r: Byte) ensures r < 64 { v & 0x30 }
  function HighFour(v: Byte): (r: Byte) ensures r < 64 { v & 0x3c }

  /** The first octet of a quantum, or the first two, the rest cleared. */
  function KeepOne(q: Quantum): Quantum { q & 0xff0000 }
  function KeepTwo(q: Quantum): Quantum { q & 0xffff00 }

  /** A string of letters without what does not count: a letter alone in its group, and the unused low bits of the last
      letter of an unfinished group. */
  function Canonical(p: seq<Byte>): seq<Byte>
    requires forall i :: 0 <= i < |p| ==> IsBase64(p[i])
  {
    var n := |p|;
    if n % 4 == 0 then p
    else if n % 4 == 1 then p[..n - 1]
    else p[..n - 1] + [Letter(if n % 4 == 2 then HighTwo(Find(p[n - 1])) else HighFour(Find(p[n - 1])))]
  }

  lemma CanonicalGroup(p: seq<Byte>)
    requires |p| >= 4 && forall i :: 0 <= i < |p| ==> IsBase64(p[i])
    ensures Canonical(p) == p[..4] + Canonical(p[4..])
  {
    hide Letter, Find, IsBase64, HighTwo, HighFour;
    var q := p[4..];
    assert |p| % 4 == |q| % 4 && (|q| > 0 ==> q[|q| - 1] == p[|p| - 1]);
    if |q| > 0 {
      assert p[..|p| - 1] == p[..4] + q[..|q| - 1];
    } else {
      assert p == p[..4] + q;
    }
  }

  /** What is left of a quantum of which only the first one or two octets are kept. */
  lemma KeptOctets(q: Quantum)
    ensures Group(Eight0(q), 0, 0) == KeepOne(q)
    ensures Group(Eight0(q), Eight1(q), 0) == KeepTwo(q)
  {
  }

  lemma KeptBits(q: Quantum)
    ensures Six0(KeepOne(q)) == Six0(q) && Six1(KeepOne(q)) == HighTwo(Six1(q))
    ensures Six0(KeepTwo(q)) == Six0(q) && Six1(KeepTwo(q)) == Six1(q) && Six2(KeepTwo(q)) == HighFour(Six2(q))
  {
  }

  lemma UnusedBits(s: Byte, t: Byte, u: Byte)
    requires s < 64 && t < 64 && u < 64
    ensures var q := Group(Eight0(Join(s, t, 0, 0)), 0, 0); Six0(q) == s && Six1(q) == HighTwo(t)
    ensures var q := Group(Eight0(Join(s, t, u, 0)), Eight1(Join(s, t, u, 0)), 0);
            Six0(q) == s && Six1(q) == t && Six2(q) == HighFour(u)
  {
    hide *;
    GroupOfJoin(s, t, 0, 0);
    GroupOfJoin(s, t, u, 0);
    KeptOctets(Join(s, t, 0, 0));
    KeptOctets(Join(s, t, u, 0));
    KeptBits(Join(s, t, 0, 0));
    KeptBits(Join(s, t, u, 0));
  }

  lemma ShortLetters(b: seq<Byte>)
    requires |b| <= 2
    ensures |b| == 0 ==> Letters(b) == []
    ensures |b| == 1 ==> var q := Group(b[0], 0, 0); Letters(b) == [Letter(Six0(q)), Letter(Six1(q))]
    ensures |b| == 2 ==>
      var q := Group(b[0], b[1], 0); Letters(b) == [Letter(Six0(q)), Letter(Six1(q)), Letter(Six2(q))]
  {
    hide Letter, Group, Six0, Six1, Six2, Six3;
  }

  lemma ShortOctets(p: seq<Byte>)
    requires |p| <= 3
    ensures |p| <= 1 ==> Octets(p) == []
    ensures |p| == 2 ==> Octets(p) == [Eight0(Join(Find(p[0]), Find(p[1]), 0, 0))]
    ensures |p| == 3 ==> var q := Join(Find(p[0]), Find(p[1]), Find(p[2]), 0); Octets(p) == [Eight0(q), Eight1(q)]
  {
    hide Find, Join, Eight0, Eight1, Eight2;
  }

  lemma LettersOfTwo(c: Byte, d: Byte)
    requires IsBase64(c) && IsBase64(d)
    ensures Letters(Octets([c, d])) == [c, Letter(HighTwo(Find(d)))]
  {
    hide *;
    ShortOctets([c, d]);
    ShortLetters(Octets([c, d]));
    UnusedBits(Find(c), Find(d), 0);
    LetterOfFind(c);
  }

  lemma LettersOfThree(c: Byte, d: Byte, e: Byte)
    requires IsBase64(c) && IsBase64(d) && IsBase64(e)
    ensures Letters(Octets([c, d, e])) == [c, d, Letter(HighFour(Find(e)))]
  {
    hide *;
    ShortOctets([c, d, e]);
    ShortLetters(Octets([c, d, e]));
    UnusedBits(Find(c), Find(d), Find(e));
    LetterOfFind(c);
    LetterOfFind(d);
  }

  lemma CanonicalOfUnfinished(p: seq<Byte>)
    requires |p| < 4 && forall i :: 0 <= i < |p| ==> IsBase64(p[i])
    ensures |p| <= 1 ==> Canonical(p) == []
    ensures |p| == 2 ==> Canonical(p) == [p[0], Letter(HighTwo(Find(p[1])))]
    ensures |p| == 3 ==> Canonical(p) == [p[0], p[1], Letter(HighFour(Find(p[2])))]
  {
    hide Letter, Find, IsBase64, HighTwo, HighFour;
  }

  /** An unfinished group decoded and encoded again. */
  lemma LettersOfUnfinished(p: seq<Byte>)
    requires |p| < 4 && forall i :: 0 <= i < |p| ==> IsBase64(p[i])
    ensures Letters(Octets(p)) == Canonical(p)
  {
    hide *;
    CanonicalOfUnfinished(p);
    if |p| == 2 {
      assert p == [p[0], p[1]];
      LettersOfTwo(p[0], p[1]);
    } else if |p| == 3 {
      assert p == [p[0], p[1], p[2]];
      LettersOfThree(p[0], p[1], p[2]);
    } else {
      ShortOctets(p);
      ShortLetters([]);
    }
  }

  lemma FourOfJoin(p: seq<Byte>)
    requires |p| >= 4 && forall i :: 0 <= i < 4 ==> IsBase64(p[i])
    ensures var q := Join(Find(p[0]), Find(p[1]), Find(p[2]), Find(p[3]));
            Four(Group(Eight0(q), Eight1(q), Eight2(q))) == p[..4]
  {
    GroupOfJoin(Find(p[0]), Find(p[1]), Find(p[2]), Find(p[3]));
    GroupOfEight(Join(Find(p[0]), Find(p[1]), Find(p[2]), Find(p[3])));
    LetterOfFind(p[0]);
    LetterOfFind(p[1]);
    LetterOfFind(p[2]);
    LetterOfFind(p[3]);
    hide Letter, Find, IsBase64, Six0, Six1, Six2, Six3, Eight0, Eight1, Eight2, Join, Group;
  }

  lemma {:induction false} LettersOfOctets(p: seq<Byte>)
    requires forall i :: 0 <= i < |p| ==> IsBase64(p[i])
    ensures Letters(Octets(p)) == Canonical(p)
  {
    hide Letters, Octets, Canonical, Letter, Find, IsBase64;
    hide Six0, Six1, Six2, Six3, Eight0, Eight1, Eight2, Join, Group, Four;
    if |p| < 4 {
      LettersOfUnfinished(p);
    } else {
      var q := Join(Find(p[0]), Find(p[1]), Find(p[2]), Find(p[3]));
      OctetsIs(p);
      LettersOfOctets(p[4..]);
      LettersIs(Octets(p));
      assert Octets(p)[3..] == Octets(p[4..]);
      FourOfJoin(p);
      CanonicalGroup(p);
    }
  }

  /** Encoding what was decoded gives the letters in front again in their canonical form, with the padding. */
  lemma EncodeDecode(s: seq<Byte>)
    ensures Encode(Decode(s)) == Canonical(s[..PrefixLength(s)]) + Padding(|Decode(s)|)
  {
    LettersOfOctets(s[..PrefixLength(s)]);
    hide Letters, Octets, Canonical, Padding;
  }
}
