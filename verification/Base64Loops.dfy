/** The loops of base64.cpp, with their two small buffers. */
module Base64Loops {
  import opened Words
  import opened Base64

  /** What the three lines of the encoder compute from the buffer of three. */
  lemma EncodeFormulas(a: Byte, b: Byte, c: Byte)
    ensures (a & 0xfc) >> 2 == Six0(Group(a, b, c))
    ensures ((a & 0x03) << 4) + ((b & 0xf0) >> 4) == Six1(Group(a, b, c))
    ensures ((b & 0x0f) << 2) + ((c & 0xc0) >> 6) == Six2(Group(a, b, c))
    ensures c & 0x3f == Six3(Group(a, b, c))
  {
  }

  /** What the three lines of the decoder compute; only values of at least 64 could disturb the octet they are in. */
  lemma DecodeFormulas(s: Byte, t: Byte, u: Byte, v: Byte)
    requires s < 64 && t < 64
    ensures (s << 2) + ((t & 0x30) >> 4) == Eight0(Join(s, t, 0, 0))
    ensures u < 64 ==> ((t & 0xf) << 4) + ((u & 0x3c) >> 2) == Eight1(Join(s, t, u, 0))
    ensures u < 64 && v < 64 ==> ((u & 0x3) << 6) + v == Eight2(Join(s, t, u, v))
  {
  }

  lemma JoinParts(s: Byte, t: Byte, u: Byte, v: Byte)
    requires s < 64 && t < 64 && u < 64 && v < 64
    ensures Eight0(Join(s, t, u, v)) == Eight0(Join(s, t, 0, 0))
    ensures Eight1(Join(s, t, u, v)) == Eight1(Join(s, t, u, 0))
  {
  }

  /** Fills char_array_4 from char_array_3. */
  method Split(three: array<Byte>, four: array<Byte>)
    requires three.Length == 3 && four.Length == 4
    modifies four
    ensures var q := Group(three[0], three[1], three[2]);
            four[0] == Six0(q) && four[1] == Six1(q) && four[2] == Six2(q) && four[3] == Six3(q)
  {
    hide *;
    EncodeFormulas(three[0], three[1], three[2]);
    four[0] := (three[0] & 0xfc) >> 2;
    four[1] := ((three[0] & 0x03) << 4) + ((three[1] & 0xf0) >> 4);
    four[2] := ((three[1] & 0x0f) << 2) + ((three[2] & 0xc0) >> 6);
    four[3] := three[2] & 0x3f;
  }

  /** Appends the letters of the first `n` values of the buffer. */
  method AppendLetters(ret: seq<Byte>, four: array<Byte>, n: nat, ghost q: Quantum) returns (longer: seq<Byte>)
    requires n <= 4 == four.Length
    requires four[0] == Six0(q) && four[1] == Six1(q) && four[2] == Six2(q) && four[3] == Six3(q)
    ensures longer == ret + Four(q)[..n]
  {
    hide Six0, Six1, Six2, Six3, Letter, IsBase64;
    longer := ret;
    var j := 0;
    while j < n
      invariant j <= n && longer == ret + Four(q)[..j]
    {
      assert Four(q)[j] == Letter(four[j]) && Four(q)[..j + 1] == Four(q)[..j] + [Four(q)[j]];
      longer := longer + [Letter(four[j])];
      j := j + 1;
    }
  }

  /** What the bytes read so far amount to: letters of the whole groups, and the rest in the buffer. */
  lemma OneGroup(bytes: seq<Byte>, at: nat, ret: seq<Byte>, q: Quantum)
    requires 3 <= at <= |bytes| && at % 3 == 0
    requires q == Group(bytes[at - 3], bytes[at - 2], bytes[at - 1])
    ensures Letters(bytes[..at]) == Letters(bytes[..at - 3]) + Four(q)
  {
    var last := bytes[at - 3..at];
    assert bytes[..at] == bytes[..at - 3] + last;
    LettersAppend(bytes[..at - 3], last);
    assert last[3..] == [];
  }

  lemma LastGroup(bytes: seq<Byte>, n: nat, i: nat, q: Quantum)
    requires n <= |bytes| && i <= n && 0 < i < 3 && n % 3 == i
    requires q == Group(bytes[n - i], if i == 2 then bytes[n - 1] else 0, 0)
    ensures Letters(bytes[..n]) == Letters(bytes[..n - i]) + Four(q)[..i + 1]
  {
    var last := bytes[n - i..n];
    assert bytes[..n] == bytes[..n - i] + last;
    LettersAppend(bytes[..n - i], last);
  }

  /** base64_encode of the first `inLen` bytes. */
  method Base64Encode(bytes: seq<Byte>, inLen: nat) returns (ret: seq<Byte>)
    requires inLen <= |bytes| && inLen < 0x1_0000_0000
    ensures ret == Encode(bytes[..inLen])
  {
    hide Letters, Four, Group, Six0, Six1, Six2, Six3;
    var three, four := new Byte[3], new Byte[4];
    ret := [];
    var i := 0;
    var left, at := inLen, 0;
    NoLetters();
    while left != 0
      invariant left >= 0 && at + left == inLen && 0 <= i < 3 && i == at % 3 && i <= at
      invariant i > 0 ==> three[i - 1] == bytes[at - 1]
      invariant i > 1 ==> three[0] == bytes[at - 2]
      invariant ret == Letters(bytes[..at - i])
    {
      left := left - 1;
      three[i] := bytes[at];
      i, at := i + 1, at + 1;
      if i == 3 {
        Split(three, four);
        ghost var q := Group(three[0], three[1], three[2]);
        ret := AppendLetters(ret, four, 4, q);
        OneGroup(bytes, at, ret, q);
        FourIsFour(q);
        i := 0;
      }
    }
    if i != 0 {
      var j := i;
      while j < 3
        invariant i <= j <= 3
        invariant forall k :: i <= k < j ==> three[k] == 0
        invariant three[i - 1] == bytes[at - 1]
        invariant i > 1 ==> three[0] == bytes[at - 2]
      {
        three[j] := 0;
        j := j + 1;
      }
      Split(three, four);
      ghost var q := Group(three[0], three[1], three[2]);
      ret := AppendLetters(ret, four, i + 1, q);
      LastGroup(bytes, at, i, q);
      ghost var letters := ret;
      ghost var r := i;
      while i < 3
        invariant r <= i <= 3
        invariant ret == letters + Padding(r)[..i - r]
      {
        ret := ret + [PAD];
        i := i + 1;
      }
      assert Padding(r)[..3 - r] == Padding(inLen);
    } else {
      assert ret + Padding(inLen) == ret;
    }
  }

  lemma NoLetters()
    ensures Letters([]) == []
  {
  }

  lemma FourIsFour(q: Quantum)
    ensures Four(q)[..4] == Four(q)
  {
  }

  /** Fills char_array_3 from char_array_4: whole octets come right as far as the values are letters'. */
  method Merge(four: array<Byte>, three: array<Byte>)
    requires three.Length == 3 && four.Length == 4 && four != three
    requires four[0] < 64
    modifies three
    ensures four[1] < 64 ==> three[0] == Eight0(Join(four[0], four[1], 0, 0))
    ensures four[1] < 64 && four[2] < 64 ==> three[1] == Eight1(Join(four[0], four[1], four[2], 0))
    ensures four[1] < 64 && four[2] < 64 && four[3] < 64 ==>
      three[2] == Eight2(Join(four[0], four[1], four[2], four[3]))
  {
    hide *;
    if four[1] < 64 {
      DecodeFormulas(four[0], four[1], four[2], four[3]);
    }
    three[0] := (four[0] << 2) + ((four[1] & 0x30) >> 4);
    three[1] := ((four[1] & 0xf) << 4) + ((four[2] & 0x3c) >> 2);
    three[2] := ((four[2] & 0x3) << 6) + four[3];
  }

  /** Replaces the characters in the buffer by their positions in the alphabet. */
  method FindAll(four: array<Byte>)
    requires four.Length == 4
    modifies four
    ensures forall k :: 0 <= k < 4 ==> four[k] == Find(old(four[k]))
  {
    hide Find;
    var i := 0;
    while i < 4
      invariant 0 <= i <= 4
      invariant forall k :: 0 <= k < i ==> four[k] == Find(old(four[k]))
      invariant forall k :: i <= k < 4 ==> four[k] == old(four[k])
    {
      four[i] := Find(four[i]);
      i := i + 1;
    }
  }

  /** The quantum of up to four letters, zero bits where letters are missing. */
  function Quad(p: seq<Byte>): Quantum {
    Join(Value(p, 0), Value(p, 1), Value(p, 2), Value(p, 3))
  }

  lemma OctetsOfQuad(p: seq<Byte>)
    requires 2 <= |p| <= 4 && forall i :: 0 <= i < |p| ==> IsBase64(p[i])
    ensures Octets(p) == Three(Quad(p))[..|p| - 1]
  {
    assert |p| == 4 ==> p[4..] == [];
  }

  /** The octets in the buffer are those of the letters, as far as the letters reach. */
  lemma MergedOctets(p: seq<Byte>, o0: Byte, o1: Byte, o2: Byte)
    requires 2 <= |p| <= 4 && forall i :: 0 <= i < |p| ==> IsBase64(p[i])
    requires o0 == Eight0(Join(Find(p[0]), Find(p[1]), 0, 0))
    requires |p| > 2 ==> o1 == Eight1(Join(Find(p[0]), Find(p[1]), Find(p[2]), 0))
    requires |p| > 3 ==> o2 == Eight2(Join(Find(p[0]), Find(p[1]), Find(p[2]), Find(p[3])))
    ensures Octets(p) == [o0, o1, o2][..|p| - 1]
  {
    hide Octets, Join, Eight0, Eight1, Eight2, Find, IsBase64;
    OctetsOfQuad(p);
    JoinParts(Value(p, 0), Value(p, 1), Value(p, 2), Value(p, 3));
    if |p| == 2 {
      assert Value(p, 2) == 0 && Value(p, 3) == 0;
    }
  }

  /** Turns the letters in front of the buffer into the octets they carry. */
  method MergeLetters(four: array<Byte>, three: array<Byte>, ghost p: seq<Byte>)
    requires three.Length == 3 && four.Length == 4 && four != three
    requires 1 <= |p| <= 4 && four[..|p|] == p && forall k :: 0 <= k < |p| ==> IsBase64(p[k])
    modifies three, four
    ensures Octets(p) == three[..|p| - 1]
  {
    hide Octets, Join, Eight0, Eight1, Eight2, Find, IsBase64;
    assert forall k :: 0 <= k < |p| ==> four[k] == p[k];
    FindAll(four);
    LetterValues(p);
    Merge(four, three);
    if |p| > 1 {
      MergedOctets(p, three[0], three[1], three[2]);
    } else {
      OneLetter(p);
    }
  }

  method AppendOctets(ret: seq<Byte>, three: array<Byte>, n: nat) returns (longer: seq<Byte>)
    requires n <= 3 == three.Length
    ensures longer == ret + three[..n]
  {
    longer := ret;
    var j := 0;
    while j < n
      invariant j <= n && longer == ret + three[..j]
    {
      longer := longer + [three[j]];
      j := j + 1;
    }
  }

  lemma CutOctets(s: seq<Byte>, at: nat, i: nat)
    requires i <= at <= |s| && (at - i) % 4 == 0
    ensures Octets(s[..at]) == Octets(s[..at - i]) + Octets(s[at - i..at])
  {
    assert s[..at] == s[..at - i] + s[at - i..at];
    OctetsAppend(s[..at - i], s[at - i..at]);
  }

  /** base64_decode. Its length is kept in an int, so it is below 2^31. */
  method Base64Decode(encoded: seq<Byte>) returns (ret: seq<Byte>)
    requires |encoded| < 0x8000_0000
    ensures ret == Decode(encoded)
  {
    hide Octets, Find, IsBase64, PrefixLength;
    var three, four := new Byte[3], new Byte[4];
    ret := [];
    var i := 0;
    var left, at := |encoded|, 0;
    NoOctets();
    while left != 0 && encoded[at] != PAD && IsBase64(encoded[at])
      invariant left >= 0 && at + left == |encoded| && 0 <= i < 4 && i == at % 4 && i <= at
      invariant forall k :: 0 <= k < at ==> IsBase64(encoded[k])
      invariant forall k :: 0 <= k < i ==> four[k] == encoded[at - i + k]
      invariant ret == Octets(encoded[..at - i])
    {
      left := left - 1;
      four[i] := encoded[at];
      i, at := i + 1, at + 1;
      if i == 4 {
        ret := AppendGroup(ret, four, three, encoded, at);
        i := 0;
      }
    }
    PrefixEnds(encoded, at);
    if i != 0 {
      ret := AppendUnfinished(ret, four, three, i, encoded[at - i..at]);
      CutOctets(encoded, at, i);
    }
  }

  /** The letters of a full buffer. */
  method AppendGroup(ret: seq<Byte>, four: array<Byte>, three: array<Byte>, ghost s: seq<Byte>, ghost at: nat)
    returns (longer: seq<Byte>)
    requires three.Length == 3 && four.Length == 4 && four != three
    requires 4 <= at <= |s| && at % 4 == 0 && forall k :: 0 <= k < at ==> IsBase64(s[k])
    requires forall k :: 0 <= k < 4 ==> four[k] == s[at - 4 + k]
    requires ret == Octets(s[..at - 4])
    modifies three, four
    ensures longer == Octets(s[..at])
  {
    hide Octets, IsBase64;
    assert four[..4] == s[at - 4..at];
    MergeLetters(four, three, s[at - 4..at]);
    longer := AppendOctets(ret, three, 3);
    CutOctets(s, at, 4);
  }

  /** The letters left over when the loop ends. */
  method AppendUnfinished(ret: seq<Byte>, four: array<Byte>, three: array<Byte>, i: nat, ghost p: seq<Byte>)
    returns (longer: seq<Byte>)
    requires three.Length == 3 && four.Length == 4 && four != three
    requires 1 <= |p| == i < 4 && forall k :: 0 <= k < i ==> four[k] == p[k] && IsBase64(p[k])
    modifies three, four
    ensures longer == ret + Octets(p)
  {
    hide Octets, IsBase64;
    assert four[..i] == p;
    var j := i;
    while j < 4
      invariant i <= j <= 4 && four[..i] == p
    {
      four[j] := 0;
      j := j + 1;
    }
    MergeLetters(four, three, p);
    longer := AppendOctets(ret, three, i - 1);
  }

  lemma OneLetter(p: seq<Byte>)
    requires |p| == 1
    ensures Octets(p) == []
  {
  }

  lemma LetterValues(p: seq<Byte>)
    requires forall k :: 0 <= k < |p| ==> IsBase64(p[k])
    ensures forall k :: 0 <= k < |p| ==> Find(p[k]) < 64
  {
  }

  /** The loop stops exactly at the end of the longest prefix of letters; '=' is not a letter. */
  lemma PrefixEnds(s: seq<Byte>, at: nat)
    requires at <= |s| && forall k :: 0 <= k < at ==> IsBase64(s[k])
    requires at < |s| ==> s[at] == PAD || !IsBase64(s[at])
    ensures PrefixLength(s) == at
  {
    assert s == s[..at] + s[at..];
    PrefixIs(s[..at], s[at..]);
  }
}
