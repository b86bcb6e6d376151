/** Bytes, 32-bit words and the endless cyclic byte stream that feeds the key schedule. */
module Words {
  type Byte = bv8
  type Word = bv32

  /** The bytes whose endless repetition feeds a key schedule. */
  type Stream = d: seq<Byte> | d != [] witness [0]

  datatype Option<+T> = None | Some(value: T) {
    function GetOr(default: T): T {
      match this
      case None => default
      case Some(v) => v
    }
  }

  /** How a call ends: with an exception, or with its result. */
  datatype Outcome<+T> = Threw | Returned(value: T)

  /** Addition modulo 2^32 and bitwise exclusive or, named so that proofs can treat them as black boxes. */
  function Add(x: Word, y: Word): Word { x + y }
  function Xor(x: Word, y: Word): Word { x ^ y }

  lemma AddCommutes(x: Word, y: Word)
    ensures Add(x, y) == Add(y, x)
  {
  }

  function Sub(x: Word, y: Word): Word { x - y }

  /** Subtraction undoes addition and the other way round. */
  lemma AddSub(x: Word, y: Word)
    ensures Sub(Add(x, y), y) == x && Sub(Add(x, y), x) == y
    ensures Add(Sub(x, y), y) == x && Add(y, Sub(x, y)) == x
  {
    AddSubRaw(x, y);
  }

  lemma AddSubRaw(x: Word, y: Word)
    ensures x + y - y == x && x + y - x == y && x - y + y == x && y + (x - y) == x
  {
  }

  /** Mixing in `y` then `z` is mixing in `z` then `y`, and is mixing in both at once. */
  lemma XorOrder(x: Word, y: Word, z: Word)
    ensures Xor(Xor(x, y), z) == Xor(Xor(x, z), y)
    ensures Xor(Xor(x, y), z) == Xor(x, Xor(y, z))
  {
  }

  lemma XorTwice(x: Word, y: Word)
    ensures Xor(Xor(x, y), y) == x
  {
  }

  /** Four bytes read as one word, most significant byte first. */
  function BigEndian(a: Byte, b: Byte, c: Byte, d: Byte): Word {
    (a as Word << 24) | (b as Word << 16) | (c as Word << 8) | d as Word
  }

  /** Byte `k` of a word, counted from the most significant one. */
  function Byte0(w: Word): Byte { (w >> 24) as Byte }
  function Byte1(w: Word): Byte { ((w >> 16) & 0xff) as Byte }
  function Byte2(w: Word): Byte { ((w >> 8) & 0xff) as Byte }
  function Byte3(w: Word): Byte { (w & 0xff) as Byte }

  /** Taking a big-endian word apart and putting it together are inverse. */
  lemma BytesOfBigEndian(a: Byte, b: Byte, c: Byte, d: Byte)
    ensures Byte0(BigEndian(a, b, c, d)) == a && Byte1(BigEndian(a, b, c, d)) == b
    ensures Byte2(BigEndian(a, b, c, d)) == c && Byte3(BigEndian(a, b, c, d)) == d
  {
  }

  /** A big-endian word as the number that its bytes are the digits of. */
  lemma BigEndianIsNumber(a: Byte, b: Byte, c: Byte, d: Byte)
    ensures BigEndian(a, b, c, d)
         == a as Word * 0x100_0000 + b as Word * 0x1_0000 + c as Word * 0x100 + d as Word
  {
  }

  /** Byte number `i` of the endless repetition of `d`. */
  function StreamByte(d: Stream, i: nat): Byte
  {
    d[i % |d|]
  }

  /** Word number `j` of the endless repetition of `d`. */
  function StreamWord(d: Stream, j: nat): Word
  {
    BigEndian(StreamByte(d, 4 * j), StreamByte(d, 4 * j + 1), StreamByte(d, 4 * j + 2), StreamByte(d, 4 * j + 3))
  }

  /** The first `n` words of the endless repetition of `d`. */
  function StreamWords(d: Stream, n: nat): (r: seq<Word>)
    ensures |r| == n
    ensures forall j :: 0 <= j < n ==> r[j] == StreamWord(d, j)
  {
    seq(n, j requires 0 <= j => StreamWord(d, j))
  }

  /** Sixteen bytes repeat every four words. */
  lemma SaltWordsRepeat(d: Stream, j: nat)
    requires |d| == 16
    ensures StreamWord(d, j) == StreamWord(d, j % 4)
  {
    hide BigEndian;
    SaltByteRepeats(j, 0);
    SaltByteRepeats(j, 1);
    SaltByteRepeats(j, 2);
    SaltByteRepeats(j, 3);
  }

  lemma SaltByteRepeats(j: nat, i: nat)
    ensures (4 * j + i) % 16 == (4 * (j % 4) + i) % 16
  {
  }
}
