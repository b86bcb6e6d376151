/** crypt_raw of bCrypt.js: the rounds are spread over timer turns, and a clock decides where a turn is cut off. */
module BcryptJsRun {
  import opened Words
  import opened Blowfish
  import opened JsNumbers
  import opened BcryptJs
  import opened Bcrypt
  import KeyFeeding

  /** `clen >> 1` blocks of magic text, as bf_crypt_ciphertext lists them. */
  const CIPHERTEXT: seq<JsWord> := [0x4f727068, 0x65616e42, 0x65686f6c, 0x64657253, 0x63727944, 0x6f756274]

  lemma CiphertextIsMagic()
    ensures |CIPHERTEXT| == 6
    ensures forall j :: 0 <= j < 3 ==> BlockAt(CIPHERTEXT, 2 * j) == Block(MAGIC[2 * j], MAGIC[2 * j + 1])
  {
  }

  /** `1 << log_rounds`, a signed number; None is NaN, which shifts by nothing. */
  function ShiftOne(log: Option<nat>): int
    requires log.Some? ==> log.value <= 31
  {
    match log
    case None => 1
    case Some(n) =>
      var w := (1 as Word) << n;
      if w < 0x8000_0000 then w as int else w as int - 0x1_0000_0000
  }

  /** How many of the rounds 1 to `n` end with the clock past its limit. */
  function Cuts(cut: nat -> bool, n: nat): (c: nat)
    ensures c <= n
  {
    if n == 0 then 0 else Cuts(cut, n - 1) + (if cut(n) then 1 else 0)
  }

  lemma {:induction false} KeySaltRoundsLast(b: Boxes, salt: Stream, key: KeyWords, n: nat)
    ensures KeySaltRounds(b, salt, key, n + 1) == KeySaltRound(KeySaltRounds(b, salt, key, n), salt, key)
    decreases n
  {
    hide KeySaltRound;
    if n > 0 {
      KeySaltRoundsLast(KeySaltRound(b, salt, key), salt, key, n - 1);
    }
  }

  lemma {:induction false} EncryptTimesLast(b: Boxes, x: Block, n: nat)
    ensures EncryptTimes(b, x, n + 1) == Encrypt(b, EncryptTimes(b, x, n))
    decreases n
  {
    hide Encrypt;
    if n > 0 {
      EncryptTimesLast(b, Encrypt(b, x), n - 1);
    }
  }

  /** Block `j` of the list after `n` encryptions of that block. */
  ghost predicate Passed(b: Boxes, cdata: seq<JsWord>, j: nat, n: nat)
    requires |cdata| == 6 && j < 3
  {
    BlockAt(cdata, 2 * j) == EncryptTimes(b, Block(MAGIC[2 * j], MAGIC[2 * j + 1]), n)
  }

  lemma NothingPassed(b: Boxes)
    ensures |CIPHERTEXT| == 6 && forall j :: 0 <= j < 3 ==> Passed(b, CIPHERTEXT, j, 0)
  {
    CiphertextIsMagic();
    hide BlockAt;
  }

  lemma OneMorePass(b: Boxes, c: seq<JsWord>, d: seq<JsWord>, j: nat, n: nat)
    requires |c| == 6 && |d| == 6 && j < 3 && Passed(b, c, j, n)
    requires BlockAt(d, 2 * j) == Encrypt(b, BlockAt(c, 2 * j))
    ensures Passed(b, d, j, n + 1)
  {
    hide Encrypt, BlockAt, EncryptTimes;
    EncryptTimesLast(b, Block(MAGIC[2 * j], MAGIC[2 * j + 1]), n);
  }

  lemma OtherBlockKept(b: Boxes, c: seq<JsWord>, d: seq<JsWord>, j: nat, n: nat)
    requires |c| == 6 && |d| == 6 && j < 3 && c[2 * j] == d[2 * j] && c[2 * j + 1] == d[2 * j + 1]
    ensures Passed(b, d, j, n) == Passed(b, c, j, n)
  {
    BlockAtParts(c, 2 * j);
    BlockAtParts(d, 2 * j);
    hide *;
  }

  /** The inner loop: every one of the three blocks is encrypted once more. */
  method OnePass(obj: BCrypt, cdata: seq<JsWord>, ghost n: nat, ghost n1: nat) returns (d: seq<JsWord>)
    requires n1 == n + 1
    requires |cdata| == 6 && forall j :: 0 <= j < 3 ==> Passed(obj.Value(), cdata, j, n)
    ensures |d| == 6 && forall j :: 0 <= j < 3 ==> Passed(obj.Value(), d, j, n1)
  {
    hide *;
    d := cdata;
    for j := 0 to 3
      invariant |d| == 6
      invariant forall k :: 0 <= k < j ==> Passed(obj.Value(), d, k, n1)
      invariant forall k :: j <= k < 3 ==> Passed(obj.Value(), d, k, n)
    {
      ghost var before := d;
      d := obj.Encipher(d, 2 * j);
      OneMorePass(obj.Value(), before, d, j, n);
      forall k | 0 <= k < j
        ensures Passed(obj.Value(), d, k, n1)
      {
        OtherBlockKept(obj.Value(), before, d, k, n1);
      }
      forall k | j < k < 3
        ensures Passed(obj.Value(), d, k, n)
      {
        OtherBlockKept(obj.Value(), before, d, k, n);
      }
    }
  }

  lemma AllPassed(b: Boxes, c: seq<JsWord>)
    requires |c| == 6 && forall j :: 0 <= j < 3 ==> Passed(b, c, j, MagicPasses())
    ensures Lows(c) == Digest(b)
  {
    hide EncryptTimes, Low, MagicPasses, Digest, BlockAt;
    forall i | 0 <= i < 6
      ensures Low(c[i]) == Digest(b)[i]
    {
      var j := i / 2;
      assert Passed(b, c, j, MagicPasses());
      assert BlockAt(c, 2 * j) == MagicBlock(b, j);
      BlockAtParts(c, 2 * j);
      DigestBlocks(b, j);
    }
  }

  /** The four bytes that the final loop pushes for one number. */
  function NumberBytes(n: JsWord): seq<Byte> {
    [(SignedShift(Low(n), 24) & 0xff) as Byte, (SignedShift(Low(n), 16) & 0xff) as Byte,
     (SignedShift(Low(n), 8) & 0xff) as Byte, (Low(n) & 0xff) as Byte]
  }

  lemma NumberBytesAreBigEndian(n: JsWord)
    ensures NumberBytes(n) == [Byte0(Low(n)), Byte1(Low(n)), Byte2(Low(n)), Byte3(Low(n))]
  {
    MaskedShifts(Low(n));
    hide Low, SignedShift;
  }

  lemma DigestBytesStep(cdata: seq<JsWord>, i: nat)
    requires i < |cdata|
    ensures DigestBytes(Lows(cdata)[i..]) == NumberBytes(cdata[i]) + DigestBytes(Lows(cdata)[i + 1..])
  {
    NumberBytesAreBigEndian(cdata[i]);
    hide NumberBytes, Low, Byte0, Byte1, Byte2, Byte3;
    assert Lows(cdata)[i..][1..] == Lows(cdata)[i + 1..];
  }

  lemma DigestBytesEnds(d: seq<Word>)
    ensures DigestBytes(d[|d|..]) == [] && d[0..] == d
  {
  }

  /** The else branch: 64 passes over the three blocks, then the bytes of every number. */
  method FinalBytes(obj: BCrypt) returns (ret: seq<Byte>)
    ensures ret == DigestBytes(Digest(obj.Value()))
  {
    hide *;
    NothingPassed(obj.Value());
    var cdata := CIPHERTEXT;
    var i := 0;
    while i < 64
      invariant 0 <= i <= 64 && |cdata| == 6
      invariant forall j :: 0 <= j < 3 ==> Passed(obj.Value(), cdata, j, i)
    {
      cdata := OnePass(obj, cdata, i, i + 1);
      i := i + 1;
    }
    AllPassed(obj.Value(), cdata);
    DigestBytesEnds(Lows(cdata));
    ret := [];
    i := 0;
    while i < |cdata|
      invariant 0 <= i <= |cdata|
      invariant ret + DigestBytes(Lows(cdata)[i..]) == DigestBytes(Lows(cdata))
    {
      DigestBytesStep(cdata, i);
      ret := ret + NumberBytes(cdata[i]);
      i := i + 1;
    }
  }

  lemma SaltedScheduleParts(b: Boxes, salt: Stream, key: KeyWords)
    ensures SaltedSchedule(b, salt, key) == Fill(MixKey(b, key), salt)
  {
    hide Fill, MixKey;
  }

  /** How many numbers from 1 to `n` are multiples of `m`. */
  function Multiples(m: int, n: nat): nat {
    if n == 0 then 0 else Multiples(m, n - 1) + (if m != 0 && n % m == 0 then 1 else 0)
  }

  lemma {:induction false} MultiplesAre(m: int, n: nat)
    requires m > 0
    ensures Multiples(m, n) == n / m
  {
    if n == 0 {
      QuotientIs(n, m, 0, 0);
    } else {
      MultiplesAre(m, n - 1);
      QuotientStep(n, m, n / m, n % m);
    }
  }

  lemma QuotientStep(n: nat, m: int, q: int, r: nat)
    requires n > 0 && 0 <= r < m && n == m * q + r
    ensures (n - 1) / m == if r == 0 then q - 1 else q
  {
    if r == 0 {
      assert m * (q - 1) == m * q - m;
      QuotientIs(n - 1, m, q - 1, m - 1);
    } else {
      QuotientIs(n - 1, m, q, r - 1);
    }
  }

  lemma QuotientIs(x: nat, m: int, q: int, r: nat)
    requires 0 <= r < m && x == m * q + r
    ensures x / m == q
  {
    KeyFeeding.Quotient(x, m, q, r);
    var d := x / m - q;
    assert m * d == 0;
    KeyFeeding.MultipleBound(m, d);
  }

  /** The rounds from 1 to `n` that the clock cuts off. */
  function CutRounds(cut: nat -> bool, n: nat): set<nat> {
    set k: nat | 1 <= k <= n && cut(k)
  }

  lemma OneMoreRound(cut: nat -> bool, n: nat)
    requires n > 0
    ensures n !in CutRounds(cut, n - 1)
    ensures CutRounds(cut, n) == if cut(n) then CutRounds(cut, n - 1) + {n} else CutRounds(cut, n - 1)
  {
  }

  lemma {:induction false} CutsAre(cut: nat -> bool, n: nat)
    ensures Cuts(cut, n) == |CutRounds(cut, n)|
  {
    if n == 0 {
      assert CutRounds(cut, n) == {};
    } else {
      CutsAre(cut, n - 1);
      OneMoreRound(cut, n);
      hide CutRounds;
    }
  }

  /** The closure that crypt_raw leaves to the timer, and what the outside world sees of it. */
  class CryptRaw {
    const obj: BCrypt
    const password: Stream
    const salt: Stream
    const rounds: int
    const onePercent: int
    ghost const start: Boxes  // the boxes after ekskey
    var i: int
    var pending: bool  // a timer turn is due
    var calls: seq<seq<Byte>>  // the arguments of the calls to callback
    var progressCalls: nat
    ghost var turns: nat  // timer turns used so far

    /** After `n` rounds the boxes are those of the uncut loop, and progress has been called for every percent. */
    ghost predicate Advanced(n: nat)
      reads this`progressCalls, obj
    {
      && obj.Value() == KeySaltRounds(start, salt, StreamWords(password, 18), n)
      && progressCalls == Multiples(onePercent, n)
    }

    /** The rounds that are run in all. */
    ghost function Total(): nat {
      if rounds > 0 then rounds else 0
    }

    /** The state between two turns, for a clock that cuts the rounds off where `cut` says. */
    ghost predicate Valid(cut: nat -> bool)
      reads this, obj
    {
      && obj as object != this
      && onePercent == rounds / 100 + 1
      && if pending then Waiting(cut) else Done(cut)
    }

    /** A turn is due: some rounds are run, the callback has not been called. */
    ghost predicate Waiting(cut: nat -> bool)
      reads this, obj
    {
      && 0 <= i <= Total() && Advanced(i) && calls == []
      && turns == if i == 0 || i < rounds then Cuts(cut, i) else Cuts(cut, rounds - 1) + 1
    }

    /** No turn is due: the callback has been called once. The last loops have left their own count in `i`. */
    ghost predicate Done(cut: nat -> bool)
      reads this, obj
    {
      && i == |CIPHERTEXT| && Advanced(Total()) && calls == [Outcome()]
      && turns == if rounds > 0 then Cuts(cut, rounds - 1) + 2 else 1
    }

    /** The bytes that the callback should get. */
    ghost function Outcome(): seq<Byte> {
      DigestBytes(Digest(KeySaltRounds(start, salt, StreamWords(password, 18), Total())))
    }

    lemma AdvancedAtStart()
      requires obj.Value() == KeySaltRounds(start, salt, StreamWords(password, 18), 0) && progressCalls == 0
      ensures Advanced(0)
    {
      hide KeySaltRounds, StreamWords;
    }

    lemma ValidAtStart(cut: nat -> bool)
      requires obj as object != this && i == 0 && onePercent == rounds / 100 + 1
      requires Advanced(0) && turns == 0 && pending && calls == []
      ensures Valid(cut)
    {
      hide Advanced, Outcome;
    }

    /** crypt_raw after its checks: the first key schedule, and a first timer turn. */
    constructor (obj: BCrypt, password: Stream, salt: Stream, log: Option<nat>, ghost cut: nat -> bool)
      requires log.Some? ==> 4 <= log.value <= 31
      modifies obj
      ensures this.obj == obj && this.password == password && this.salt == salt && rounds == ShiftOne(log)
      ensures start == SaltedSchedule(old(obj.Value()), salt, StreamWords(password, 18))
      ensures pending && Valid(cut)
    {
      hide *;
      this.obj, this.password, this.salt := obj, password, salt;
      rounds := ShiftOne(log);
      onePercent := ShiftOne(log) / 100 + 1;
      i, pending, calls, progressCalls, turns := 0, true, [], 0, 0;
      start := SaltedSchedule(obj.Value(), salt, StreamWords(password, 18));
      new;
      SaltedScheduleParts(obj.Value(), salt, StreamWords(password, 18));
      obj.EksKey(salt, password);
      KeySaltRoundsEnd(start, salt, StreamWords(password, 18));
      AdvancedAtStart();
      ValidAtStart(cut);
    }

    /** The two key schedules of one round. */
    method KeyPair(ghost n: nat)
      requires obj.Value() == KeySaltRounds(start, salt, StreamWords(password, 18), n)
      modifies obj
      ensures obj.Value() == KeySaltRounds(start, salt, StreamWords(password, 18), n + 1)
    {
      hide *;
      KeySaltRoundsLast(start, salt, StreamWords(password, 18), n);
      KeySaltRoundParts(obj.Value(), salt, StreamWords(password, 18));
      obj.Key(password);
      obj.Key(salt);
    }

    /** One turn of the for loop, up to the look at the clock. */
    method OneRound()
      requires obj as object != this && 0 <= i < rounds && onePercent == rounds / 100 + 1 && Advanced(i)
      modifies this`i, this`progressCalls, obj
      ensures i == old(i) + 1 && Advanced(i)
    {
      hide KeySaltRounds, StreamWords;
      i := i + 1;
      KeyPair(i - 1);
      if i % onePercent == 0 {
        progressCalls := progressCalls + 1;
      }
    }

    /** The branch `if(i < rounds)`: rounds are run until they are all done or the clock cuts them off. */
    method Work(cut: nat -> bool)
      requires obj as object != this && onePercent == rounds / 100 + 1
      requires 0 <= i < rounds && Advanced(i)
      modifies this`i, this`progressCalls, obj
      ensures old(i) < i <= rounds && Advanced(i)
      ensures Cuts(cut, old(i)) + 1 == if i < rounds then Cuts(cut, i) else Cuts(cut, rounds - 1) + 1
    {
      hide Advanced;
      ghost var i0 := i;
      var more := true;
      while i < rounds && more
        invariant i0 <= i <= rounds && (more ==> Cuts(cut, i) == Cuts(cut, i0))
        invariant Advanced(i)
        invariant i == i0 ==> more
        invariant i > i0 ==> Cuts(cut, i - 1) == Cuts(cut, i0)
        invariant !more ==> cut(i)
        decreases rounds - i
      {
        OneRound();
        more := !cut(i);
      }
    }

    /** The else branch: the hash is computed and handed over. Its loops count with the same variable. */
    method Finish()
      requires obj as object != this
      modifies this`i, this`calls
      ensures i == |CIPHERTEXT| && calls == old(calls) + [DigestBytes(Digest(obj.Value()))]
    {
      hide Digest, DigestBytes;
      var ret := FinalBytes(obj);
      i := |CIPHERTEXT|;
      calls := calls + [ret];
    }

    /** One timer turn: it works or finishes, and only where it works does it ask for another turn. */
    method Turn(cut: nat -> bool)
      requires Valid(cut) && pending
      modifies this, obj
      ensures Valid(cut) && (pending <==> old(i) < rounds)
      ensures pending ==> old(i) < i
    {
      hide KeySaltRounds, StreamWords, Digest, DigestBytes;
      pending := false;
      turns := turns + 1;
      if i < rounds {
        Work(cut);
        pending := true;
      } else {
        Finish();
      }
    }

    /**
     * The timer: turns are taken as long as one is due. Whatever the clock does, they come to an end, the callback has
     * been called once, with the bytes of the uncut loop, and one turn ends the run after one for every cut before the
     * last round and one that reaches it.
     */
    method Run(cut: nat -> bool)
      requires Valid(cut) && pending
      modifies this, obj
      ensures !pending && calls == [Outcome()]
      ensures obj.Value() == KeySaltRounds(start, salt, StreamWords(password, 18), Total())
      ensures turns == if rounds > 0 then Cuts(cut, rounds - 1) + 2 else 1
      ensures rounds > 0 ==> turns <= rounds + 1
      ensures progressCalls == if rounds > 0 then rounds / (rounds / 100 + 1) else 0
    {
      hide KeySaltRounds, StreamWords, DigestBytes, Digest;
      if rounds > 0 {
        MultiplesAre(onePercent, rounds);
      }
      while pending
        invariant Valid(cut)
        decreases if pending then 1 else 0, if i < rounds then rounds - i else 0
      {
        Turn(cut);
      }
    }
  }

  lemma KeySaltRoundParts(b: Boxes, salt: Stream, key: KeyWords)
    ensures KeySaltRound(b, salt, key) == Schedule(Schedule(b, key), StreamWords(salt, 18))
  {
    hide Schedule;
  }
}
