/** The C implementation: contexts, block encryption and key schedules of crypt_blowfish.c. */
module CryptBlowfish {
  import opened Words
  import opened Blowfish

  /** BF_ROUND, with scaled addressing: the new value of the half that is not hashed. */
  function BfRound(b: Boxes, l: Word, r: Word, n: nat): Word
    requires n < 16
  {
    var tmp1 := SBox(b.s, 3, (l & 0xff) as Byte);
    var tmp2 := SBox(b.s, 2, ((l >> 8) & 0xff) as Byte);
    var tmp3 := SBox(b.s, 1, ((l >> 16) & 0xff) as Byte);
    var tmp4 := SBox(b.s, 0, (l >> 24) as Byte);
    Xor(Xor(r, b.p[n + 1]), Add(Xor(Add(tmp3, tmp4), tmp2), tmp1))
  }

  lemma BfRoundIsFeistel(b: Boxes, l: Word, r: Word, n: nat)
    requires n < 16
    ensures BfRound(b, l, r, n) == Feistel(b, l, r, n)
  {
    hide SBox, Add, Xor;
    AddCommutes(SBox(b.s, 1, Byte1(l)), SBox(b.s, 0, Byte0(l)));
    XorOrder(r, b.p[n + 1], F(b.s, l));
  }

  /** Four consecutive BF_ROUND lines of BF_ENCRYPT. */
  function BfFourRounds(b: Boxes, x: Block, n: nat): Block
    requires n <= 12
  {
    var R := BfRound(b, x.l, x.r, n);
    var L := BfRound(b, R, x.l, n + 1);
    var R' := BfRound(b, L, R, n + 2);
    Block(BfRound(b, R', L, n + 3), R')
  }

  lemma BfFourRoundsStep(b: Boxes, x: Block, n: nat)
    requires n <= 12
    ensures Rounds(b, x, n + 4) == BfFourRounds(b, Rounds(b, x, n), n)
  {
    hide Feistel, BfRound, Rounds;
    var y := Rounds(b, x, n);
    var R := BfRound(b, y.l, y.r, n);
    var L := BfRound(b, R, y.l, n + 1);
    var R' := BfRound(b, L, R, n + 2);
    BfRoundIsFeistel(b, y.l, y.r, n);
    RoundStep(b, x, y.l, y.r, n);
    BfRoundIsFeistel(b, R, y.l, n + 1);
    RoundStep(b, x, R, y.l, n + 1);
    BfRoundIsFeistel(b, L, R, n + 2);
    RoundStep(b, x, L, R, n + 2);
    BfRoundIsFeistel(b, R', L, n + 3);
    RoundStep(b, x, R', L, n + 3);
  }

  /** BF_ENCRYPT: sixteen BF_ROUND lines, the two halves taking turns, and the final exchange. */
  function BfEncrypt(b: Boxes, l: Word, r: Word): Block {
    var y0 := BfFourRounds(b, Block(Xor(l, b.p[0]), r), 0);
    var y1 := BfFourRounds(b, y0, 4);
    var y2 := BfFourRounds(b, y1, 8);
    var y3 := BfFourRounds(b, y2, 12);
    Block(Xor(y3.r, b.p[17]), y3.l)
  }

  lemma BfSixteenRounds(b: Boxes, x: Block)
    ensures BfFourRounds(b, BfFourRounds(b, BfFourRounds(b, BfFourRounds(b, x, 0), 4), 8), 12) == Rounds(b, x, 16)
  {
    assert Rounds(b, x, 0) == x by { hide Feistel; }
    hide *;
    BfFourRoundsStep(b, x, 0);
    BfFourRoundsStep(b, x, 4);
    BfFourRoundsStep(b, x, 8);
    BfFourRoundsStep(b, x, 12);
  }

  lemma BfEncryptIsEncrypt(b: Boxes, l: Word, r: Word)
    ensures BfEncrypt(b, l, r) == Encrypt(b, Block(l, r))
  {
    hide Xor, Rounds, BfFourRounds;
    BfSixteenRounds(b, Block(Xor(l, b.p[0]), r));
  }

  lemma BodyStep(b: Boxes, l: Word, r: Word, k: nat)
    requires k < 521
    ensures var y := BfEncrypt(b, l, r);
            FillFrom(b, Block(l, r), k, ZEROS) == FillFrom(Put(b, k, y), y, k + 1, ZEROS)
  {
    hide *;
    FillStep(b, Block(l, r), k, ZEROS);
    MixedZeros(Block(l, r), k);
    BfEncryptIsEncrypt(b, l, r);
  }

  /** data.binary.salt: the four big-endian words of the salt. */
  type Salt = s: seq<Word> | |s| == 4 witness [0, 0, 0, 0]

  ghost predicate SaltWords(salt: Salt, bytes: Stream) {
    |bytes| == 16 && forall j :: 0 <= j < 4 ==> salt[j] == StreamWord(bytes, j)
  }

  /** One salted encryption, the salt words taken in turn. */
  lemma SaltedStep(b: Boxes, l: Word, r: Word, k: nat, salt: Salt, bytes: Stream)
    requires k < 521 && SaltWords(salt, bytes)
    ensures var y := BfEncrypt(b, Xor(l, salt[2 * k % 4]), Xor(r, salt[(2 * k + 1) % 4]));
            FillFrom(b, Block(l, r), k, bytes) == FillFrom(Put(b, k, y), y, k + 1, bytes)
  {
    hide FillFrom, Put, BfEncrypt, Encrypt, Xor, StreamWord;
    SaltWordsRepeat(bytes, 2 * k);
    SaltWordsRepeat(bytes, 2 * k + 1);
    FillStep(b, Block(l, r), k, bytes);
    BfEncryptIsEncrypt(b, Xor(l, salt[2 * k % 4]), Xor(r, salt[(2 * k + 1) % 4]));
  }

  /** tmp1 to tmp4 as they are mixed into the eighteen words of P. */
  function SaltKey(salt: Salt): KeyWords {
    seq(18, i requires 0 <= i < 18 => salt[i % 4])
  }

  lemma SaltKeyIsStream(salt: Salt, bytes: Stream)
    requires SaltWords(salt, bytes)
    ensures SaltKey(salt) == StreamWords(bytes, 18)
  {
    hide StreamWord;
    forall i | 0 <= i < 18
      ensures StreamWord(bytes, i) == salt[i % 4]
    {
      SaltWordsRepeat(bytes, i);
    }
  }

  /** The structure BF_ctx: P and S as they lie in memory. */
  class Context {
    const P: array<Word>
    const S: array<Word>

    ghost predicate Valid() {
      P.Length == 18 && S.Length == 1024 && P != S
    }

    function Value(): Boxes
      requires Valid()
      reads P, S
    {
      BoxValues(P[..], S[..])
    }

    constructor ()
      ensures Valid() && fresh(P) && fresh(S)
    {
      P := new Word[18];
      S := new Word[1024];
    }

    /** `*(ptr - 2) = L; *(ptr - 1) = R;` with the pointer in P. */
    method StoreP(ptr: nat, L: Word, R: Word, ghost k: nat)
      requires Valid() && k < 9 && ptr == 2 * k + 2
      modifies P
      ensures Value() == Put(old(Value()), k, Block(L, R))
    {
      P[ptr - 2] := L;
      P[ptr - 1] := R;
    }

    /** `*(ptr - 2) = L; *(ptr - 1) = R;` with the pointer in S. */
    method StoreS(ptr: nat, L: Word, R: Word, ghost k: nat)
      requires Valid() && k < 512 && ptr == 2 * k + 2
      modifies S
      ensures Value() == Put(old(Value()), 9 + k, Block(L, R))
    {
      S[ptr - 2] := L;
      S[ptr - 1] := R;
    }

    /** The first loop of BF_body. */
    method BodyP(l0: Word, r0: Word) returns (L: Word, R: Word)
      requires Valid()
      modifies P
      ensures FillFrom(Value(), Block(L, R), 9, ZEROS) == FillFrom(old(Value()), Block(l0, r0), 0, ZEROS)
    {
      hide *;
      L, R := l0, r0;
      var ptr := 0;
      ghost var k := 0;
      while ptr < 18
        invariant 0 <= k <= 9 && ptr == 2 * k
        invariant FillFrom(Value(), Block(L, R), k, ZEROS) == FillFrom(old(Value()), Block(l0, r0), 0, ZEROS)
      {
        BodyStep(Value(), L, R, k);
        ptr := ptr + 2;
        var y := BfEncrypt(Value(), L, R);
        L, R := y.l, y.r;
        StoreP(ptr, L, R, k);
        k := k + 1;
      }
    }

    /** The second loop of BF_body. */
    method BodyS(l0: Word, r0: Word)
      requires Valid()
      modifies S
      ensures Value() == FillFrom(old(Value()), Block(l0, r0), 9, ZEROS)
    {
      hide *;
      var L, R := l0, r0;
      var ptr := 0;
      ghost var k := 0;
      while ptr < 0x3ff
        invariant 0 <= k <= 512 && ptr == 2 * k
        invariant FillFrom(Value(), Block(L, R), 9 + k, ZEROS) == FillFrom(old(Value()), Block(l0, r0), 9, ZEROS)
      {
        BodyStep(Value(), L, R, 9 + k);
        ptr := ptr + 2;
        var y := BfEncrypt(Value(), L, R);
        L, R := y.l, y.r;
        StoreS(ptr, L, R, k);
        k := k + 1;
      }
      FillEnds(Value(), Block(L, R));
    }

    /** BF_body: encryptions of a running block replace P, then S, from the first word to the last. */
    method Body()
      requires Valid()
      modifies P, S
      ensures Value() == Fill(old(Value()), ZEROS)
    {
      hide *;
      FillEnds(Value(), Block(0, 0));
      var L, R := BodyP(0, 0);
      BodyS(L, R);
    }

    /** The salted schedule of BF_crypt over P: the index `i & 2` picks the first or the second pair of words. */
    method SaltedP(salt: Salt, ghost bytes: Stream) returns (L: Word, R: Word)
      requires Valid() && SaltWords(salt, bytes)
      modifies P
      ensures FillFrom(Value(), Block(L, R), 9, bytes) == FillFrom(old(Value()), Block(0, 0), 0, bytes)
    {
      hide *;
      L, R := 0, 0;
      var i := 0;
      ghost var k := 0;
      while i < 18
        invariant 0 <= k <= 9 && i == 2 * k
        invariant FillFrom(Value(), Block(L, R), k, bytes) == FillFrom(old(Value()), Block(0, 0), 0, bytes)
      {
        SaltedStep(Value(), L, R, k, salt, bytes);
        var y := BfEncrypt(Value(), Xor(L, salt[i % 4]), Xor(R, salt[i % 4 + 1]));
        L, R := y.l, y.r;
        StoreP(i + 2, L, R, k);
        k := k + 1;
        i := i + 2;
      }
    }

    /** The salted schedule over S, two blocks a turn: salt words 2 and 3, then 0 and 1. */
    method SaltedS(l0: Word, r0: Word, salt: Salt, ghost bytes: Stream)
      requires Valid() && SaltWords(salt, bytes)
      modifies S
      ensures Value() == FillFrom(old(Value()), Block(l0, r0), 9, bytes)
    {
      hide *;
      var L, R := l0, r0;
      var ptr := 0;
      ghost var k := 0;
      while ptr < 0x3ff
        invariant 0 <= k <= 512 && k % 2 == 0 && ptr == 2 * k
        invariant FillFrom(Value(), Block(L, R), 9 + k, bytes) == FillFrom(old(Value()), Block(l0, r0), 9, bytes)
      {
        SaltedStep(Value(), L, R, 9 + k, salt, bytes);
        ptr := ptr + 4;
        var y := BfEncrypt(Value(), Xor(L, salt[2]), Xor(R, salt[3]));
        StoreS(ptr - 2, y.l, y.r, k);
        SaltedStep(Value(), y.l, y.r, 10 + k, salt, bytes);
        y := BfEncrypt(Value(), Xor(y.l, salt[0]), Xor(y.r, salt[1]));
        StoreS(ptr, y.l, y.r, k + 1);
        L, R := y.l, y.r;
        k := k + 2;
      }
      FillEnds(Value(), Block(L, R), bytes);
    }

    /** The whole salted schedule. */
    method SaltedSchedule(salt: Salt, ghost bytes: Stream)
      requires Valid() && SaltWords(salt, bytes)
      modifies P, S
      ensures Value() == Fill(old(Value()), bytes)
    {
      hide *;
      FillEnds(Value(), Block(0, 0), bytes);
      var L, R := SaltedP(salt, bytes);
      SaltedS(L, R, salt, bytes);
    }

    /** `memcpy(data.ctx.S, BF_init_state.S, ...)`. */
    method LoadS(initial: Boxes)
      requires Valid()
      modifies S
      ensures S[..] == initial.s
    {
      forall i | 0 <= i < 1024 {
        S[i] := initial.s[i];
      }
    }

    /** The lines `data.ctx.P[i] ^= ...` for all eighteen words. */
    method MixP(key: KeyWords)
      requires Valid()
      modifies P
      ensures Value() == MixKey(old(Value()), key)
    {
      hide Xor;
      forall i | 0 <= i < 18 {
        P[i] := Xor(P[i], key[i]);
      }
    }

    /** One turn of the loop `do { ... } while (--count)` of BF_crypt. */
    method ExpensiveRound(expanded: KeyWords, tmp: KeyWords)
      requires Valid()
      modifies P, S
      ensures Value() == Schedule(Schedule(old(Value()), expanded), tmp)
    {
      MixP(expanded);
      Body();
      MixP(tmp);
      Body();
      hide Fill, MixKey;
    }

    /** The whole loop; tmp1 to tmp4 hold the salt words. */
    method ExpensiveRounds(expanded: KeyWords, salt: Salt, count0: nat, ghost bytes: Stream)
      requires Valid() && SaltWords(salt, bytes) && count0 >= 1
      modifies P, S
      ensures Value() == KeySaltRounds(old(Value()), bytes, expanded, count0)
    {
      hide *;
      SaltKeyIsStream(salt, bytes);
      var count := count0;
      while count > 0
        invariant 0 <= count <= count0
        invariant KeySaltRounds(Value(), bytes, expanded, count) == KeySaltRounds(old(Value()), bytes, expanded, count0)
      {
        KeySaltRoundsStep(Value(), bytes, expanded, count);
        ExpensiveRound(expanded, SaltKey(salt));
        count := count - 1;
      }
      KeySaltRoundsEnd(Value(), bytes, expanded);
    }

    /** 64 encryptions of one block of the magic text. */
    method EncryptMagic(i: nat, ghost j: nat) returns (L: Word, R: Word)
      requires Valid() && j < 3 && i == 2 * j
      ensures Block(L, R) == MagicBlock(Value(), j)
    {
      hide BfEncrypt, Encrypt, MagicPasses;
      L, R := MAGIC[i], MAGIC[i + 1];
      var count := 64;
      while count > 0
        invariant 0 <= count <= 64
        invariant EncryptTimes(Value(), Block(L, R), count) == MagicBlock(Value(), j)
      {
        BfEncryptIsEncrypt(Value(), L, R);
        var y := BfEncrypt(Value(), L, R);
        L, R := y.l, y.r;
        count := count - 1;
      }
    }
  }
}
