/** How BF_set_key reads a password: bytes are taken from the string and its final NUL in turn, for ever. */
module KeyFeeding {
  import opened Words
  import opened BcryptCodec
  import opened Blowfish

  /** A C string ends at its first NUL. */
  function CString(s: seq<Byte>): (r: seq<Byte>)
    ensures |r| <= |s| && r == s[..|r|] && 0 !in r
    ensures |r| < |s| ==> s[|r|] == 0
  {
    if s == [] || s[0] == 0 then [] else [s[0]] + CString(s[1..])
  }

  lemma {:induction false} CStringOfNulFree(s: seq<Byte>)
    requires 0 !in s
    ensures CString(s) == s
  {
    if s != [] {
      CStringOfNulFree(s[1..]);
    }
  }

  /** The characters of the key and its NUL. */
  function KeyStream(key: seq<Byte>): Stream {
    CString(key) + [0]
  }

  /** A character as the operand of `tmp |=`: with the sign extension bug it is a signed char. */
  function Extended(c: Byte, signed: bool): Word {
    if signed && c >= 0x80 then 0xffffff00 | c as Word else c as Word
  }

  /** `tmp <<= 8; tmp |= x`. */
  function Append(tmp: Word, x: Word): Word {
    (tmp << 8) | x
  }

  /** The word `tmp` after `n` characters from position `pos` of the stream. */
  function Fed(d: Stream, pos: nat, n: nat, signed: bool): Word
    decreases n
  {
    if n == 0 then 0 else Append(Fed(d, pos, n - 1, signed), Extended(StreamByte(d, pos + n - 1), signed))
  }

  /** The 18 expanded words. */
  function FedKey(d: Stream, signed: bool): (k: KeyWords)
    ensures forall i :: 0 <= i < 18 ==> k[i] == Fed(d, 4 * i, 4, signed)
  {
    seq(18, i requires 0 <= i < 18 => Fed(d, 4 * i, 4, signed))
  }

  function FourFed(a: Byte, b: Byte, c: Byte, d: Byte, signed: bool): Word {
    var high := Append(Append(0, Extended(a, signed)), Extended(b, signed));
    Append(Append(high, Extended(c, signed)), Extended(d, signed))
  }

  lemma FedIsFourFed(d: Stream, pos: nat, signed: bool)
    ensures Fed(d, pos, 4, signed)
         == FourFed(StreamByte(d, pos), StreamByte(d, pos + 1), StreamByte(d, pos + 2), StreamByte(d, pos + 3), signed)
  {
    hide Append, Extended, StreamByte;
    assert Fed(d, pos, 1, signed) == Append(Fed(d, pos, 0, signed), Extended(StreamByte(d, pos), signed));
    assert Fed(d, pos, 3, signed) == Append(Fed(d, pos, 2, signed), Extended(StreamByte(d, pos + 2), signed));
  }

  lemma FourFedUnsigned(a: Byte, b: Byte, c: Byte, d: Byte)
    ensures FourFed(a, b, c, d, false) == BigEndian(a, b, c, d)
  {
    FirstByteHigh(a, b, c, d);
    hide Append, BigEndian;
  }

  /** Where the sign extension leaves a word alone: a byte from 0x80 on may only follow bytes 0xff of the word. */
  predicate SignHarmless(a: Byte, b: Byte, c: Byte, d: Byte) {
    && (b >= 0x80 ==> a == 0xff)
    && (c >= 0x80 ==> a == 0xff && b == 0xff)
    && (d >= 0x80 ==> a == 0xff && b == 0xff && c == 0xff)
  }

  lemma LastByteHigh(x: Word, a: Byte, b: Byte, c: Byte, d: Byte)
    ensures Append(x, 0xffffff00 | d as Word) == BigEndian(a, b, c, d) <==> a == 0xff && b == 0xff && c == 0xff
  {
  }

  lemma ThirdByteHigh(x: Word, a: Byte, b: Byte, c: Byte, d: Byte)
    ensures Append(Append(x, 0xffffff00 | c as Word), d as Word) == BigEndian(a, b, c, d) <==> a == 0xff && b == 0xff
  {
  }

  lemma SecondByteHigh(x: Word, a: Byte, b: Byte, c: Byte, d: Byte)
    ensures Append(Append(Append(x, 0xffffff00 | b as Word), c as Word), d as Word) == BigEndian(a, b, c, d)
            <==> a == 0xff
  {
  }

  /** The sign bits of the first byte are shifted out of the word. */
  lemma FirstByteHigh(a: Byte, b: Byte, c: Byte, d: Byte)
    ensures Append(Append(Append(Append(0, 0xffffff00 | a as Word), b as Word), c as Word), d as Word)
         == BigEndian(a, b, c, d)
    ensures Append(Append(Append(Append(0, a as Word), b as Word), c as Word), d as Word) == BigEndian(a, b, c, d)
  {
  }

  lemma FourFedSigned(a: Byte, b: Byte, c: Byte, d: Byte)
    ensures FourFed(a, b, c, d, true) == BigEndian(a, b, c, d) <==> SignHarmless(a, b, c, d)
  {
    hide Append, BigEndian;
    var x1 := Append(0, Extended(a, true));
    var x2 := Append(x1, Extended(b, true));
    var x3 := Append(x2, Extended(c, true));
    LastByteHigh(x3, a, b, c, d);
    ThirdByteHigh(x2, a, b, c, d);
    SecondByteHigh(x1, a, b, c, d);
    FirstByteHigh(a, b, c, d);
  }

  /** Without the bug, the expanded words are the big-endian words of the endless stream. */
  lemma FedKeyIsStream(d: Stream)
    ensures FedKey(d, false) == StreamWords(d, 18)
  {
    hide *;
    forall i | 0 <= i < 18
      ensures Fed(d, 4 * i, 4, false) == StreamWord(d, i)
    {
      FedWordIsStreamWord(d, i);
    }
  }

  lemma FedWordIsStreamWord(d: Stream, i: nat)
    ensures Fed(d, 4 * i, 4, false) == StreamWord(d, i)
  {
    FedIsFourFed(d, 4 * i, false);
    FourFedUnsigned(StreamByte(d, 4 * i), StreamByte(d, 4 * i + 1), StreamByte(d, 4 * i + 2), StreamByte(d, 4 * i + 3));
    hide FourFed, BigEndian, StreamByte, Fed;
  }

  predicate WordSignHarmless(d: Stream, i: nat) {
    SignHarmless(StreamByte(d, 4 * i), StreamByte(d, 4 * i + 1), StreamByte(d, 4 * i + 2), StreamByte(d, 4 * i + 3))
  }

  lemma FedWordSigned(d: Stream, i: nat)
    ensures Fed(d, 4 * i, 4, true) == StreamWord(d, i) <==> WordSignHarmless(d, i)
  {
    FedIsFourFed(d, 4 * i, true);
    FourFedSigned(StreamByte(d, 4 * i), StreamByte(d, 4 * i + 1), StreamByte(d, 4 * i + 2), StreamByte(d, 4 * i + 3));
    hide FourFed, BigEndian, StreamByte, Fed, SignHarmless;
  }

  /** Exactly when the "$2x$" reading and the "$2a$" reading of a key give the same words. */
  lemma SignedReadingAgrees(d: Stream)
    ensures FedKey(d, true) == FedKey(d, false) <==> forall i :: 0 <= i < 18 ==> WordSignHarmless(d, i)
  {
    hide *;
    FedKeyIsStream(d);
    forall i | 0 <= i < 18
      ensures Fed(d, 4 * i, 4, true) == StreamWord(d, i) <==> WordSignHarmless(d, i)
    {
      FedWordSigned(d, i);
    }
    var x, y := FedKey(d, true), FedKey(d, false);
    assert forall i :: 0 <= i < 18 ==> y[i] == StreamWord(d, i);
    if x == y {
      assert forall i :: 0 <= i < 18 ==> x[i] == y[i];
    }
  }

  /** In particular for keys of seven-bit characters. */
  lemma SevenBitKeysAgree(key: seq<Byte>)
    requires forall c :: c in key ==> c < 0x80
    ensures FedKey(KeyStream(key), true) == FedKey(KeyStream(key), false)
  {
    var d := KeyStream(key);
    assert forall c :: c in d ==> c == 0 || c in key;
    forall i | 0 <= i < 18
      ensures WordSignHarmless(d, i)
    {
      assert StreamByte(d, 4 * i + 1) in d && StreamByte(d, 4 * i + 2) in d && StreamByte(d, 4 * i + 3) in d;
    }
    SignedReadingAgrees(d);
  }

  /** Only the first 72 characters of a key count. */
  lemma Only72Bytes(k1: seq<Byte>, k2: seq<Byte>, signed: bool)
    requires |CString(k1)| >= 72 && |CString(k2)| >= 72 && k1[..72] == k2[..72]
    ensures FedKey(KeyStream(k1), signed) == FedKey(KeyStream(k2), signed)
  {
    var d1, d2 := KeyStream(k1), KeyStream(k2);
    forall p | 0 <= p < 72
      ensures StreamByte(d1, p) == StreamByte(d2, p)
    {
      hide CString;
      Quotient(p, |d1|, 0, p);
      Quotient(p, |d2|, 0, p);
      assert d1[p] == k1[..72][p] && d2[p] == k2[..72][p];
    }
    hide *;
    forall i | 0 <= i < 18
      ensures Fed(d1, 4 * i, 4, signed) == Fed(d2, 4 * i, 4, signed)
    {
      FedIsFourFed(d1, 4 * i, signed);
      FedIsFourFed(d2, 4 * i, signed);
    }
    assert FedKey(d1, signed) == FedKey(d2, signed);
  }

  /** What the stream shows of a key in its first turn: the characters and then the NUL. */
  lemma FirstTurn(key: seq<Byte>, p: nat)
    requires p <= |CString(key)|
    ensures StreamByte(KeyStream(key), p) == if p < |CString(key)| then CString(key)[p] else 0
  {
    Quotient(p, |KeyStream(key)|, 0, p);
    hide CString;
  }

  /** The words give the 72 bytes back that they are made of. */
  lemma WordsShowBytes(d1: Stream, d2: Stream, p: nat)
    requires FedKey(d1, false) == FedKey(d2, false) && p < 72
    ensures StreamByte(d1, p) == StreamByte(d2, p)
  {
    hide *;
    FedKeyIsStream(d1);
    FedKeyIsStream(d2);
    var i := p / 4;
    assert StreamWords(d1, 18)[i] == StreamWord(d1, i) && StreamWords(d2, 18)[i] == StreamWord(d2, i);
    WordBytes(d1, i);
    WordBytes(d2, i);
    assert p == 4 * i || p == 4 * i + 1 || p == 4 * i + 2 || p == 4 * i + 3;
  }

  lemma WordBytes(d: Stream, i: nat)
    ensures StreamByte(d, 4 * i) == Byte0(StreamWord(d, i)) && StreamByte(d, 4 * i + 1) == Byte1(StreamWord(d, i))
    ensures StreamByte(d, 4 * i + 2) == Byte2(StreamWord(d, i)) && StreamByte(d, 4 * i + 3) == Byte3(StreamWord(d, i))
  {
    BytesOfBigEndian(StreamByte(d, 4 * i), StreamByte(d, 4 * i + 1),
                     StreamByte(d, 4 * i + 2), StreamByte(d, 4 * i + 3));
    hide BigEndian, StreamByte, Byte0, Byte1, Byte2, Byte3;
  }

  /** Keys that differ in no character that counts: the same string, or the same first 72 characters. */
  predicate SameKey(k1: seq<Byte>, k2: seq<Byte>) {
    var c1, c2 := CString(k1), CString(k2);
    c1 == c2 || (|c1| >= 72 && |c2| >= 72 && c1[..72] == c2[..72])
  }

  lemma NoNulInside(key: seq<Byte>, p: nat)
    requires p < |CString(key)|
    ensures CString(key)[p] != 0
  {
    assert CString(key)[p] in CString(key);
  }

  /** A key that ends within the 72 bytes is not shorter than one with the same words. */
  lemma NotShorter(k1: seq<Byte>, k2: seq<Byte>)
    requires FedKey(KeyStream(k1), false) == FedKey(KeyStream(k2), false) && |CString(k1)| < 72
    ensures |CString(k1)| >= |CString(k2)|
  {
    hide CString, FedKey, StreamByte, KeyStream;
    var p := |CString(k1)|;
    FirstTurn(k1, p);
    WordsShowBytes(KeyStream(k1), KeyStream(k2), p);
    if p < |CString(k2)| {
      FirstTurn(k2, p);
      NoNulInside(k2, p);
    }
  }

  lemma SameCharacters(k1: seq<Byte>, k2: seq<Byte>, n: nat)
    requires FedKey(KeyStream(k1), false) == FedKey(KeyStream(k2), false)
    requires n <= 72 && n <= |CString(k1)| && n <= |CString(k2)|
    ensures CString(k1)[..n] == CString(k2)[..n]
  {
    hide CString, FedKey, StreamByte, KeyStream;
    forall q | 0 <= q < n
      ensures CString(k1)[q] == CString(k2)[q]
    {
      FirstTurn(k1, q);
      FirstTurn(k2, q);
      WordsShowBytes(KeyStream(k1), KeyStream(k2), q);
    }
  }

  /** Two keys expand to the same words exactly when they are such keys. */
  lemma SameWordsIffSameKey(k1: seq<Byte>, k2: seq<Byte>)
    ensures FedKey(KeyStream(k1), false) == FedKey(KeyStream(k2), false) <==> SameKey(k1, k2)
  {
    hide FedKey, StreamByte;
    var c1, c2 := CString(k1), CString(k2);
    if SameKey(k1, k2) {
      if c1 != c2 {
        assert k1[..72] == c1[..72] && k2[..72] == c2[..72];
        Only72Bytes(k1, k2, false);
      }
    }
    if FedKey(KeyStream(k1), false) == FedKey(KeyStream(k2), false) {
      hide CString;
      if |c1| >= 72 && |c2| >= 72 {
        SameCharacters(k1, k2, 72);
      } else {
        if |c1| < 72 {
          NotShorter(k1, k2);
        }
        if |c2| < 72 {
          NotShorter(k2, k1);
        }
        SameCharacters(k1, k2, |c1|);
        assert c1[..|c1|] == c1 && c2[..|c2|] == c2;
      }
    }
  }

  /** The position after `pos` in a stream of `n` bytes. */
  lemma NextPosition(pos: nat, n: nat)
    requires n > 0
    ensures (pos + 1) % n == if pos % n == n - 1 then 0 else pos % n + 1
  {
    var q, r := pos / n, pos % n;
    if r == n - 1 {
      Quotient(pos + 1, n, q + 1, 0);
    } else {
      Quotient(pos + 1, n, q, r + 1);
    }
  }

  lemma Quotient(x: nat, n: nat, q: nat, r: nat)
    requires r < n && x == n * q + r
    ensures x % n == r
  {
    var d := x / n - q;
    assert n * d == r - x % n;
    MultipleBound(n, d);
  }

  lemma MultipleBound(n: nat, d: int)
    requires n > 0
    ensures d >= 1 ==> n * d >= n
    ensures d <= -1 ==> n * d <= 0 - n
  {
  }

  /** One character read: it is the stream's, and the pointer goes where the stream goes on. */
  lemma ReadStep(key: seq<Byte>, ptr: nat, pos: nat)
    requires ptr == pos % |KeyStream(key)|
    ensures At(key, ptr) == StreamByte(KeyStream(key), pos)
    ensures (if At(key, ptr) == 0 then 0 else ptr + 1) == (pos + 1) % |KeyStream(key)|
  {
    var s := CString(key);
    NextPosition(pos, |s| + 1);
    if ptr < |s| {
      assert s[ptr] in s;
    }
  }

  /** The inner loop of BF_set_key: four characters make one word. */
  method FeedWord(key: seq<Byte>, ptr0: nat, signed: bool, ghost pos: nat) returns (tmp: Word, ptr: nat)
    requires ptr0 == pos % |KeyStream(key)|
    ensures tmp == Fed(KeyStream(key), pos, 4, signed)
    ensures ptr == (pos + 4) % |KeyStream(key)|
  {
    hide Append, Extended, StreamByte, KeyStream, At;
    tmp, ptr := 0, ptr0;
    for j := 0 to 4
      invariant tmp == Fed(KeyStream(key), pos, j, signed)
      invariant ptr == (pos + j) % |KeyStream(key)|
    {
      ReadStep(key, ptr, pos + j);
      tmp := Append(tmp, Extended(At(key, ptr), signed));
      if At(key, ptr) == 0 {
        ptr := 0;
      } else {
        ptr := ptr + 1;
      }
    }
  }

  /** BF_set_key. */
  method SetKey(key: seq<Byte>, expanded: array<Word>, initial: array<Word>, init: Boxes, signed: bool)
    requires expanded.Length == 18 && initial.Length == 18 && expanded != initial
    modifies expanded, initial
    ensures expanded[..] == FedKey(KeyStream(key), signed)
    ensures initial[..] == MixKey(init, FedKey(KeyStream(key), signed)).p
  {
    hide Fed, Xor, KeyStream;
    var ptr := 0;
    for i := 0 to 18
      invariant ptr == (4 * i) % |KeyStream(key)|
      invariant forall k :: 0 <= k < i ==> expanded[k] == Fed(KeyStream(key), 4 * k, 4, signed)
      invariant forall k :: 0 <= k < i ==> initial[k] == Xor(init.p[k], Fed(KeyStream(key), 4 * k, 4, signed))
    {
      var tmp;
      tmp, ptr := FeedWord(key, ptr, signed, 4 * i);
      expanded[i] := tmp;
      initial[i] := Xor(init.p[i], tmp);
    }
  }
}
