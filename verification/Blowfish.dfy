/** Blowfish and the bcrypt key schedule, stated once as functions on values. */
module Blowfish {
  import opened Words

  /** The sub-keys: 18 words in `p` and the four S-boxes of 256 words, one after the other, in `s`. */
  datatype BoxValues = BoxValues(p: seq<Word>, s: seq<Word>)

  type Boxes = b: BoxValues | |b.p| == 18 && |b.s| == 1024
    witness BoxValues(seq(18, _ => 0), seq(1024, _ => 0))

  /** Entry `x` of S-box `k`. */
  function SBox(s: seq<Word>, k: nat, x: Byte): Word
    requires |s| == 1024 && k < 4
  {
    s[0x100 * k + x as int]
  }

  /** The round function. */
  function F(s: seq<Word>, x: Word): Word
    requires |s| == 1024
  {
    Add(Xor(Add(SBox(s, 0, Byte0(x)), SBox(s, 1, Byte1(x))), SBox(s, 2, Byte2(x))), SBox(s, 3, Byte3(x)))
  }

  lemma BytesAreDigits(x: Word)
    ensures x / 0x100_0000 < 256 && Byte0(x) == (x / 0x100_0000) as Byte
    ensures (x / 0x1_0000) % 256 < 256 && Byte1(x) == ((x / 0x1_0000) % 256) as Byte
    ensures (x / 0x100) % 256 < 256 && Byte2(x) == ((x / 0x100) % 256) as Byte
    ensures x % 256 < 256 && Byte3(x) == (x % 256) as Byte
  {
  }

  /** The four bytes of a word, most significant first, each look up their own 256 words of S. */
  lemma FMeaning(s: seq<Word>, x: Word)
    requires |s| == 1024
    ensures F(s, x) == Add(Xor(Add(s[..256][(x / 0x100_0000) as Byte as int],
                                   s[256..512][((x / 0x1_0000) % 256) as Byte as int]),
                               s[512..768][((x / 0x100) % 256) as Byte as int]),
                           s[768..][(x % 256) as Byte as int])
  {
    BytesAreDigits(x);
    hide Add, Xor, Byte0, Byte1, Byte2, Byte3;
  }

  datatype Block = Block(l: Word, r: Word)

  /** What round `n` makes of the half `r` that is not hashed. */
  function Feistel(b: Boxes, l: Word, r: Word, n: nat): Word
    requires n < 16
  {
    Xor(Xor(r, F(b.s, l)), b.p[n + 1])
  }

  /** `k` Feistel rounds; the result's left half is the one that enters the next round function. */
  function Rounds(b: Boxes, x: Block, k: nat): Block
    requires k <= 16
    decreases k
  {
    if k == 0 then x
    else
      var y := Rounds(b, x, k - 1);
      Block(Feistel(b, y.l, y.r, k - 1), y.l)
  }

  lemma RoundStep(b: Boxes, x: Block, l: Word, r: Word, n: nat)
    requires n < 16 && Rounds(b, x, n) == Block(l, r)
    ensures Rounds(b, x, n + 1) == Block(Feistel(b, l, r, n), l)
  {
    hide Feistel;
  }

  /** One block encryption. */
  function Encrypt(b: Boxes, x: Block): Block {
    var y := Rounds(b, Block(Xor(x.l, b.p[0]), x.r), 16);
    Block(Xor(y.r, b.p[17]), y.l)
  }

  /** `n` encryptions in a row. */
  function EncryptTimes(b: Boxes, x: Block, n: nat): Block
    decreases n
  {
    if n == 0 then x else EncryptTimes(b, Encrypt(b, x), n - 1)
  }

  /** The boxes with pair `k` of the 521 pairs of words, P first and then S, replaced by a block. */
  function Put(b: Boxes, k: nat, x: Block): Boxes
    requires k < 521
  {
    if k < 9 then b.(p := b.p[2 * k := x.l][2 * k + 1 := x.r])
    else b.(s := b.s[2 * k - 18 := x.l][2 * k - 17 := x.r])
  }

  /** The block encrypted at step `k`: the previous output with two words of the data stream mixed in. */
  function Mixed(x: Block, k: nat, data: Stream): Block {
    Block(Xor(x.l, StreamWord(data, 2 * k)), Xor(x.r, StreamWord(data, 2 * k + 1)))
  }

  /** The remaining steps of a key schedule, from pair `k` on, `x` being the previous output. */
  function FillFrom(b: Boxes, x: Block, k: nat, data: Stream): Boxes
    requires k <= 521
    decreases 521 - k
  {
    if k == 521 then b
    else
      var y := Encrypt(b, Mixed(x, k, data));
      FillFrom(Put(b, k, y), y, k + 1, data)
  }

  /** A whole key schedule with a data stream; the plain schedule takes the stream of zeros. */
  function Fill(b: Boxes, data: Stream): Boxes {
    FillFrom(b, Block(0, 0), 0, data)
  }

  const ZEROS: Stream := [0]

  /** The password or the salt, expanded to the length of P. */
  type KeyWords = k: seq<Word> | |k| == 18 witness seq(18, _ => 0)

  /** P with 18 key words mixed in. */
  function MixKey(b: Boxes, key: KeyWords): Boxes {
    b.(p := seq(18, i requires 0 <= i < 18 => Xor(b.p[i], key[i])))
  }

  /** The salted key schedule that starts a hash. */
  function SaltedSchedule(b: Boxes, salt: Stream, key: KeyWords): Boxes {
    Fill(MixKey(b, key), salt)
  }

  function Schedule(b: Boxes, key: KeyWords): Boxes {
    Fill(MixKey(b, key), ZEROS)
  }

  /** One round of the expensive loop: a schedule with the key and one with the salt. */
  function KeySaltRound(b: Boxes, salt: Stream, key: KeyWords): Boxes {
    Schedule(Schedule(b, key), StreamWords(salt, 18))
  }

  function KeySaltRounds(b: Boxes, salt: Stream, key: KeyWords, n: nat): Boxes
    decreases n
  {
    if n == 0 then b else KeySaltRounds(KeySaltRound(b, salt, key), salt, key, n - 1)
  }

  /** "OrpheanBeholderScryDoubt" as six big-endian words. */
  const MAGIC: seq<Word> := [0x4F727068, 0x65616E42, 0x65686F6C, 0x64657253, 0x63727944, 0x6F756274]

  lemma MagicText()
    ensures [Byte0(MAGIC[0]) as char, Byte1(MAGIC[0]) as char, Byte2(MAGIC[0]) as char, Byte3(MAGIC[0]) as char,
             Byte0(MAGIC[1]) as char, Byte1(MAGIC[1]) as char, Byte2(MAGIC[1]) as char, Byte3(MAGIC[1]) as char,
             Byte0(MAGIC[2]) as char, Byte1(MAGIC[2]) as char, Byte2(MAGIC[2]) as char, Byte3(MAGIC[2]) as char,
             Byte0(MAGIC[3]) as char, Byte1(MAGIC[3]) as char, Byte2(MAGIC[3]) as char, Byte3(MAGIC[3]) as char,
             Byte0(MAGIC[4]) as char, Byte1(MAGIC[4]) as char, Byte2(MAGIC[4]) as char, Byte3(MAGIC[4]) as char,
             Byte0(MAGIC[5]) as char, Byte1(MAGIC[5]) as char, Byte2(MAGIC[5]) as char, Byte3(MAGIC[5]) as char]
         == "OrpheanBeholderScryDoubt"
  {
  }

  /** How often the magic text is encrypted: 64 times. */
  function MagicPasses(): (n: nat)
    ensures n == 64
  {
    64
  }

  /** Block `j` of the magic text, encrypted that often. */
  function MagicBlock(b: Boxes, j: nat): Block
    requires j < 3
  {
    EncryptTimes(b, Block(MAGIC[2 * j], MAGIC[2 * j + 1]), MagicPasses())
  }

  function Digest(b: Boxes): (d: seq<Word>)
    ensures |d| == 6
  {
    seq(6, i requires 0 <= i < 6 => if i % 2 == 0 then MagicBlock(b, i / 2).l else MagicBlock(b, i / 2).r)
  }

  lemma DigestBlocks(b: Boxes, j: nat)
    requires j < 3
    ensures Digest(b)[2 * j] == MagicBlock(b, j).l && Digest(b)[2 * j + 1] == MagicBlock(b, j).r
  {
    hide MagicBlock;
  }

  /** The digest that bcrypt encodes, for 2^cost rounds given as a number. */
  function RawHash(initial: Boxes, salt: Stream, key: KeyWords, rounds: nat): (d: seq<Word>)
    ensures |d| == 6
  {
    Digest(KeySaltRounds(SaltedSchedule(initial, salt, key), salt, key, rounds))
  }

  lemma MixedZeros(x: Block, k: nat)
    ensures Mixed(x, k, ZEROS) == x
  {
    assert forall w: Word :: Xor(w, 0) == w;
    assert BigEndian(0, 0, 0, 0) == 0;
    hide Xor, BigEndian;
  }

  lemma FillEnds(b: Boxes, x: Block, data: Stream := ZEROS)
    ensures Fill(b, data) == FillFrom(b, Block(0, 0), 0, data) && FillFrom(b, x, 521, data) == b
  {
  }

  /** One step of a key schedule. */
  lemma FillStep(b: Boxes, x: Block, k: nat, data: Stream)
    requires k < 521
    ensures var y := Encrypt(b, Mixed(x, k, data));
            FillFrom(b, x, k, data) == FillFrom(Put(b, k, y), y, k + 1, data)
  {
    hide Encrypt, Mixed, Put;
  }

  lemma KeySaltRoundsStep(b: Boxes, salt: Stream, key: KeyWords, n: nat)
    requires n >= 1
    ensures KeySaltRounds(b, salt, key, n)
         == KeySaltRounds(Schedule(Schedule(b, key), StreamWords(salt, 18)), salt, key, n - 1)
  {
    hide Schedule;
  }

  lemma KeySaltRoundsEnd(b: Boxes, salt: Stream, key: KeyWords)
    ensures KeySaltRounds(b, salt, key, 0) == b
  {
  }
}
