/** The ISAAC generator of isaac.js: one step, one pass of 256 steps, and their inverses. */
module Isaac {
  import opened Words

  /** The safe adder: it adds the low halves and the high halves with the carry. */
  function SafeAdd(x: Word, y: Word): Word {
    var lsb := (x & 0xffff) + (y & 0xffff);
    var msb := (x >> 16) + (y >> 16) + (lsb >> 16);
    (msb << 16) | (lsb & 0xffff)
  }

  /** A word is its halves. */
  lemma Halves(x: Word)
    ensures ((x >> 16) << 16) + (x & 0xffff) == x
  {
  }

  lemma JoinHalves(h: Word, l: Word)
    ensures (h << 16) | (l & 0xffff) == (h << 16) + (l & 0xffff)
  {
  }

  lemma ShiftOfSum(a: Word, b: Word, c: Word)
    ensures (a + b + c) << 16 == (a << 16) + (b << 16) + (c << 16)
  {
  }

  lemma SafeAddIsSum(x: Word, y: Word)
    ensures SafeAdd(x, y) == x + y
  {
    var lsb := (x & 0xffff) + (y & 0xffff);
    JoinHalves((x >> 16) + (y >> 16) + (lsb >> 16), lsb);
    ShiftOfSum(x >> 16, y >> 16, lsb >> 16);
    Halves(x);
    Halves(y);
    Halves(lsb);
  }

  /** The adder adds modulo 2^32. */
  lemma SafeAddIsAdd(x: Word, y: Word)
    ensures SafeAdd(x, y) == Add(x, y)
  {
    SafeAddIsSum(x, y);
    assert Add(x, y) == x + y;
    hide SafeAdd, Add;
  }

  function Left13(a: Word): Word { a ^ (a << 13) }
  function Right6(a: Word): Word { a ^ (a >> 6) }
  function Left2(a: Word): Word { a ^ (a << 2) }
  function Right16(a: Word): Word { a ^ (a >> 16) }

  function UndoLeft13(a: Word): Word { a ^ (a << 13) ^ (a << 26) }
  function UndoRight6(a: Word): Word { a ^ (a >> 6) ^ (a >> 12) ^ (a >> 18) ^ (a >> 24) ^ (a >> 30) }
  function UndoLeft2(a: Word): Word {
    a ^ (a << 2) ^ (a << 4) ^ (a << 6) ^ (a << 8) ^ (a << 10) ^ (a << 12) ^ (a << 14)
    ^ (a << 16) ^ (a << 18) ^ (a << 20) ^ (a << 22) ^ (a << 24) ^ (a << 26) ^ (a << 28) ^ (a << 30)
  }

  lemma Left13Undone(a: Word)
    ensures UndoLeft13(a ^ (a << 13)) == a
  {
  }

  lemma Left13Redone(a: Word)
    ensures Left13(a ^ (a << 13) ^ (a << 26)) == a
  {
  }

  lemma Left13Inverse(a: Word)
    ensures UndoLeft13(Left13(a)) == a && Left13(UndoLeft13(a)) == a
  {
    assert Left13(a) == a ^ (a << 13);
    assert UndoLeft13(a) == a ^ (a << 13) ^ (a << 26);
    Left13Undone(a);
    Left13Redone(a);
    hide Left13, UndoLeft13;
  }

  lemma Right6Undone(a: Word)
    ensures UndoRight6(a ^ (a >> 6)) == a
  {
  }

  lemma Right6Redone(a: Word)
    ensures Right6(a ^ (a >> 6) ^ (a >> 12) ^ (a >> 18) ^ (a >> 24) ^ (a >> 30)) == a
  {
  }

  lemma Right6Inverse(a: Word)
    ensures UndoRight6(Right6(a)) == a && Right6(UndoRight6(a)) == a
  {
    assert Right6(a) == a ^ (a >> 6);
    assert UndoRight6(a) == a ^ (a >> 6) ^ (a >> 12) ^ (a >> 18) ^ (a >> 24) ^ (a >> 30);
    Right6Undone(a);
    Right6Redone(a);
    hide Right6, UndoRight6;
  }

  lemma Left2Undone(a: Word)
    ensures UndoLeft2(a ^ (a << 2)) == a
  {
  }

  lemma Left2Redone(a: Word)
    ensures Left2(a ^ (a << 2) ^ (a << 4) ^ (a << 6) ^ (a << 8) ^ (a << 10) ^ (a << 12) ^ (a << 14)
                  ^ (a << 16) ^ (a << 18) ^ (a << 20) ^ (a << 22) ^ (a << 24) ^ (a << 26) ^ (a << 28) ^ (a << 30)) == a
  {
  }

  lemma Left2Inverse(a: Word)
    ensures UndoLeft2(Left2(a)) == a && Left2(UndoLeft2(a)) == a
  {
    assert Left2(a) == a ^ (a << 2);
    assert UndoLeft2(a)
        == a ^ (a << 2) ^ (a << 4) ^ (a << 6) ^ (a << 8) ^ (a << 10) ^ (a << 12) ^ (a << 14)
           ^ (a << 16) ^ (a << 18) ^ (a << 20) ^ (a << 22) ^ (a << 24) ^ (a << 26) ^ (a << 28) ^ (a << 30);
    Left2Undone(a);
    Left2Redone(a);
    hide Left2, UndoLeft2;
  }

  lemma Right16Undone(a: Word)
    ensures Right16(a ^ (a >> 16)) == a
  {
  }

  lemma Right16Inverse(a: Word)
    ensures Right16(Right16(a)) == a
  {
    assert Right16(a) == a ^ (a >> 16);
    Right16Undone(a);
    hide Right16;
  }

  type Memory = m: seq<Word> | |m| == 256 witness seq(256, _ => 0)

  datatype State = State(m: Memory, acc: Word, brs: Word, cnt: Word)

  /** `acc ^= acc << 13` and the three other shifts, chosen by `i & 3`. */
  function Shuffle(i: nat, acc: Word): Word {
    match i % 4
    case 0 => Left13(acc)
    case 1 => Right6(acc)
    case 2 => Left2(acc)
    case _ => Right16(acc)
  }

  function Unshuffle(i: nat, acc: Word): Word {
    match i % 4
    case 0 => UndoLeft13(acc)
    case 1 => UndoRight6(acc)
    case 2 => UndoLeft2(acc)
    case _ => Right16(acc)
  }

  lemma ShuffleInverse(i: nat, acc: Word)
    ensures Unshuffle(i, Shuffle(i, acc)) == acc && Shuffle(i, Unshuffle(i, acc)) == acc
  {
    Left13Inverse(acc);
    Right6Inverse(acc);
    Left2Inverse(acc);
    Right16Inverse(acc);
    hide Left13, UndoLeft13, Right6, UndoRight6, Left2, UndoLeft2, Right16;
  }

  /** `(x >>> 2) & 0xff` and `(y >>> 10) & 0xff`. */
  function IndexX(x: Word): (i: nat)
    ensures i < 256
  {
    ((x >> 2) & 0xff) as Byte as int
  }

  function IndexY(y: Word): (i: nat)
    ensures i < 256
  {
    ((y >> 10) & 0xff) as Byte as int
  }

  /** Step `i` of a pass: `r[i]` is the new brs. */
  function Step(s: State, i: nat): State
    requires i < 256
  {
    var acc := Add(s.m[(i + 128) % 256], Shuffle(i, s.acc));
    var x := s.m[i];
    var y := Add(s.m[IndexX(x)], Add(acc, s.brs));
    var m := s.m[i := y];
    State(m, acc, Add(m[IndexY(y)], x), s.cnt)
  }

  /** The indices are the quotients by 4 and by 1024, modulo 256. */
  lemma IndicesAreQuotients(w: Word)
    ensures (w / 4) % 256 < 256 && IndexX(w) == ((w / 4) % 256) as Byte as int
    ensures (w / 1024) % 256 < 256 && IndexY(w) == ((w / 1024) % 256) as Byte as int
  {
    assert (w >> 2) & 0xff == (w / 4) % 256;
    assert (w >> 10) & 0xff == (w / 1024) % 256;
  }

  lemma StepParts(s: State, i: nat)
    requires i < 256
    ensures var t := Step(s, i);
            && t.acc == Add(s.m[(i + 128) % 256], Shuffle(i, s.acc))
            && t.m[i] == Add(s.m[IndexX(s.m[i])], Add(t.acc, s.brs))
            && t.brs == Add(t.m[IndexY(t.m[i])], s.m[i])
            && t.cnt == s.cnt && forall k :: 0 <= k < 256 && k != i ==> t.m[k] == s.m[k]
  {
    hide Add, Shuffle, IndexX, IndexY;
  }

  lemma AccAfterStep(s: State, i: nat)
    requires i < 256
    ensures Step(s, i).acc == Add(s.m[(i + 128) % 256], Shuffle(i, s.acc))
  {
    hide Add, Shuffle, IndexX, IndexY;
  }

  lemma ShuffleShifts(i: nat, a: Word)
    ensures i % 4 == 0 ==> Shuffle(i, a) == a ^ (a << 13)
    ensures i % 4 == 1 ==> Shuffle(i, a) == a ^ (a >> 6)
    ensures i % 4 == 2 ==> Shuffle(i, a) == a ^ (a << 2)
    ensures i % 4 == 3 ==> Shuffle(i, a) == a ^ (a >> 16)
  {
  }

  /** The accumulator after step `i`, shift by shift; `a` is the old one. */
  lemma StepMeaning(s: State, i: nat, a: Word)
    requires i < 256 && a == s.acc
    ensures i % 4 == 0 ==> Step(s, i).acc == Add(s.m[(i + 128) % 256], a ^ (a << 13))
    ensures i % 4 == 1 ==> Step(s, i).acc == Add(s.m[(i + 128) % 256], a ^ (a >> 6))
    ensures i % 4 == 2 ==> Step(s, i).acc == Add(s.m[(i + 128) % 256], a ^ (a << 2))
    ensures i % 4 == 3 ==> Step(s, i).acc == Add(s.m[(i + 128) % 256], a ^ (a >> 16))
  {
    hide *;
    AccAfterStep(s, i);
    ShuffleShifts(i, a);
  }

  /** The rest of the state after step `i`: which words are looked up, and what is added to them. */
  lemma StepLookups(s: State, i: nat)
    requires i < 256
    ensures var t := Step(s, i);
            && t.m[i] == Add(s.m[((s.m[i] / 4) % 256) as Byte as int], Add(t.acc, s.brs))
            && t.brs == Add(t.m[((t.m[i] / 1024) % 256) as Byte as int], s.m[i])
            && t.cnt == s.cnt && forall k :: 0 <= k < 256 && k != i ==> t.m[k] == s.m[k]
  {
    StepParts(s, i);
    IndicesAreQuotients(s.m[i]);
    IndicesAreQuotients(Step(s, i).m[i]);
    hide Step, IndexX, IndexY, Add;
  }

  /** Step `i` backwards: x from the new brs and y, then the old brs, then the old acc. */
  function Unstep(s: State, i: nat): State
    requires i < 256
  {
    var y := s.m[i];
    var x := Sub(s.brs, s.m[IndexY(y)]);
    var m := s.m[i := x];
    State(m, Unshuffle(i, Sub(s.acc, m[(i + 128) % 256])), Sub(Sub(y, m[IndexX(x)]), s.acc), s.cnt)
  }

  lemma UnstepStep(s: State, i: nat)
    requires i < 256
    ensures Unstep(Step(s, i), i) == s
  {
    hide Add, Sub, Shuffle, Unshuffle, IndexX, IndexY;
    var acc := Add(s.m[(i + 128) % 256], Shuffle(i, s.acc));
    var x := s.m[i];
    var y := Add(s.m[IndexX(x)], Add(acc, s.brs));
    var m := s.m[i := y];
    AddSub(m[IndexY(y)], x);
    assert m[i := x] == s.m;
    AddSub(s.m[IndexX(x)], Add(acc, s.brs));
    AddSub(acc, s.brs);
    AddSub(s.m[(i + 128) % 256], Shuffle(i, s.acc));
    ShuffleInverse(i, s.acc);
  }

  lemma StepUnstep(s: State, i: nat)
    requires i < 256
    ensures Step(Unstep(s, i), i) == s
  {
    hide Add, Sub, Shuffle, Unshuffle, IndexX, IndexY;
    var y := s.m[i];
    var x := Sub(s.brs, s.m[IndexY(y)]);
    var m := s.m[i := x];
    AddSub(s.brs, s.m[IndexY(y)]);
    assert m[i := y] == s.m;
    AddSub(y, m[IndexX(x)]);
    AddSub(Sub(y, m[IndexX(x)]), s.acc);
    AddSub(s.acc, m[(i + 128) % 256]);
    ShuffleInverse(i, Sub(s.acc, m[(i + 128) % 256]));
  }

  /** The first `n` steps of a pass. */
  function Steps(s: State, n: nat): State
    requires n <= 256
    decreases n
  {
    if n == 0 then s else Step(Steps(s, n - 1), n - 1)
  }

  function Unsteps(s: State, n: nat): State
    requires n <= 256
    decreases n
  {
    if n == 0 then s else Unsteps(Unstep(s, n - 1), n - 1)
  }

  lemma {:induction false} StepsInverse(s: State, n: nat)
    requires n <= 256
    ensures Unsteps(Steps(s, n), n) == s && Steps(Unsteps(s, n), n) == s
    decreases n
  {
    hide Step, Unstep;
    if n > 0 {
      UnstepStep(Steps(s, n - 1), n - 1);
      StepsInverse(s, n - 1);
      StepsInverse(Unstep(s, n - 1), n - 1);
      StepUnstep(s, n - 1);
    }
  }

  /** The lines in front of a pass. */
  function Count(s: State): State {
    s.(cnt := Add(s.cnt, 1), brs := Add(s.brs, Add(s.cnt, 1)))
  }

  function Uncount(s: State): State {
    s.(cnt := Sub(s.cnt, 1), brs := Sub(s.brs, s.cnt))
  }

  lemma CountInverse(s: State)
    ensures Uncount(Count(s)) == s && Count(Uncount(s)) == s
  {
    hide Add, Sub;
    AddSub(s.cnt, 1);
    AddSub(s.brs, Add(s.cnt, 1));
    AddSub(s.brs, s.cnt);
  }

  /** One generation: the counter and a pass of 256 steps. */
  function Generation(s: State): State {
    Steps(Count(s), Memory256())
  }

  function Memory256(): (n: nat)
    ensures n == 256
  {
    256
  }

  function Ungeneration(s: State): State {
    Uncount(Unsteps(s, Memory256()))
  }

  /** A generation is a bijection of the states (m, acc, brs, cnt). */
  lemma GenerationBijective(s: State)
    ensures Ungeneration(Generation(s)) == s
    ensures Generation(Ungeneration(s)) == s
  {
    hide Steps, Unsteps, Count, Uncount, Memory256;
    StepsInverse(Count(s), Memory256());
    CountInverse(s);
    StepsInverse(s, Memory256());
    CountInverse(Unsteps(s, Memory256()));
  }

  /** `n` generations. */
  function Generations(s: State, n: nat): State
    decreases n
  {
    if n == 0 then s else Generation(Generations(s, n - 1))
  }

  function Ungenerations(s: State, n: nat): State
    decreases n
  {
    if n == 0 then s else Ungenerations(Ungeneration(s), n - 1)
  }

  /** Any number of generations is a bijection: no state is lost and none is reached twice. */
  lemma {:induction false} GenerationsBijective(s: State, n: nat)
    ensures Ungenerations(Generations(s, n), n) == s
    ensures Generations(Ungenerations(s, n), n) == s
    decreases n
  {
    hide Generation, Ungeneration;
    if n > 0 {
      GenerationBijective(Generations(s, n - 1));
      GenerationsBijective(s, n - 1);
      GenerationBijective(s);
      GenerationsBijective(Ungeneration(s), n - 1);
    }
  }

  /** The results of a generation: what brs is after each step. */
  function Results(s: State): (r: seq<Word>)
    ensures |r| == 256
    ensures forall i :: 0 <= i < 256 ==> r[i] == Steps(Count(s), i + 1).brs
  {
    seq(256, i requires 0 <= i < 256 => Steps(Count(s), i + 1).brs)
  }

  /** What rand draws from: the state, the results at hand and how many of them are left. */
  datatype Supply = Supply(s: State, r: seq<Word>, gnt: int)

  /** One call of rand; the value returned is `r[gnt]` afterwards. */
  function Draw(d: Supply): Supply {
    if d.gnt != 0 then d.(gnt := d.gnt - 1) else Supply(Generation(d.s), Results(d.s), 255)
  }

  function Draws(d: Supply, n: nat): Supply
    decreases n
  {
    if n == 0 then d else Draw(Draws(d, n - 1))
  }

  /** The results of generation `k` after those at hand. */
  function Batch(d: Supply, k: nat): seq<Word> {
    if k == 0 then d.r else Results(Generations(d.s, k - 1))
  }

  /** From a full supply, rand hands out every result once: batch after batch, each from its last to its first. */
  lemma {:induction false} DrawsInOrder(d: Supply, n: nat)
    requires d.gnt == 256 && |d.r| == 256 && n >= 1
    ensures Draws(d, n) == Supply(Generations(d.s, (n - 1) / 256), Batch(d, (n - 1) / 256), 255 - (n - 1) % 256)
    decreases n
  {
    hide Generation, Results;
    if n > 1 {
      DrawsInOrder(d, n - 1);
      assert (n - 1) % 256 == 0 ==> (n - 1) / 256 == (n - 2) / 256 + 1 && (n - 2) % 256 == 255;
      assert (n - 1) % 256 != 0 ==> (n - 1) / 256 == (n - 2) / 256 && (n - 1) % 256 == (n - 2) % 256 + 1;
    } else {
      assert Draws(d, 0) == d;
    }
  }

  /** The private variables of the module. */
  class Generator {
    const m: array<Word>
    const r: array<Word>
    var acc: Word
    var brs: Word
    var cnt: Word
    var gnt: int

    ghost predicate Valid() {
      m.Length == 256 && r.Length == 256 && m != r
    }

    ghost function Value(): State
      requires Valid()
      reads this`acc, this`brs, this`cnt, m
    {
      State(m[..], acc, brs, cnt)
    }

    constructor ()
      ensures Valid() && fresh(m) && fresh(r) && gnt == 0
    {
      m := new Word[256];
      r := new Word[256];
      acc, brs, cnt, gnt := 0, 0, 0, 0;
    }

    /** The body of the inner loop of prng: step `i`, shift by shift and sum by sum; `a` is the old accumulator. */
    method DoStep(i: nat, ghost a: Word)
      requires Valid() && i < 256 && a == acc
      modifies this`acc, this`brs, m, r
      ensures Value() == Step(old(Value()), i)
      ensures i % 4 == 0 ==> acc == Add(old(m[(i + 128) % 256]), a ^ (a << 13))
      ensures i % 4 == 1 ==> acc == Add(old(m[(i + 128) % 256]), a ^ (a >> 6))
      ensures i % 4 == 2 ==> acc == Add(old(m[(i + 128) % 256]), a ^ (a << 2))
      ensures i % 4 == 3 ==> acc == Add(old(m[(i + 128) % 256]), a ^ (a >> 16))
      ensures m[i] == Add(old(m[((m[i] / 4) % 256) as Byte as int]), Add(acc, old(brs)))
      ensures brs == Add(m[((m[i] / 1024) % 256) as Byte as int], old(m[i]))
      ensures forall k :: 0 <= k < 256 && k != i ==> m[k] == old(m[k])
      ensures r[..] == old(r[..])[i := brs]
    {
      hide SafeAdd, Add, Shuffle, IndexX, IndexY;
      forall x: Word, y: Word ensures SafeAdd(x, y) == Add(x, y) { SafeAddIsAdd(x, y); }
      ghost var s := Value();
      acc := Shuffle(i, acc);
      acc := SafeAdd(m[(i + 128) % 256], acc);
      var x := m[i];
      var y := SafeAdd(m[IndexX(x)], SafeAdd(acc, brs));
      m[i] := y;
      brs := SafeAdd(m[IndexY(y)], x);
      r[i] := brs;
      assert Value() == Step(s, i);
      hide Step;
      StepMeaning(s, i, a);
      StepLookups(s, i);
    }

    /** `cnt = add(cnt, 1); brs = add(brs, cnt);` */
    method CountUp()
      requires Valid()
      modifies this`brs, this`cnt
      ensures Value() == Count(old(Value()))
      ensures cnt == Add(old(cnt), 1) && brs == Add(old(brs), cnt)
    {
      hide SafeAdd, Add;
      SafeAddIsAdd(cnt, 1);
      SafeAddIsAdd(brs, SafeAdd(cnt, 1));
      cnt := SafeAdd(cnt, 1);
      brs := SafeAdd(brs, cnt);
    }

    /** One turn of the outer loop of prng. */
    method Pass()
      requires Valid()
      modifies this`acc, this`brs, this`cnt, m, r
      ensures Value() == Generation(old(Value()))
      ensures r[..] == Results(old(Value()))
    {
      hide Value, Step, Steps, Count, Generation, Results;
      ghost var s := Value();
      CountUp();
      StepsBegin(Count(s));
      var i := 0;
      while i < 256
        invariant 0 <= i <= 256
        invariant Value() == Steps(Count(s), i)
        invariant r[..i] == Results(s)[..i]
      {
        DoStep(i, acc);
        BrsOfValue(this);
        StepsGoOn(Count(s), i);
        ResultsGoOn(s, i);
        i := i + 1;
        assert r[..i] == r[..][..i];
      }
      GenerationIsSteps(s, i);
    }

    /** prng; no argument, zero or no number means one pass, other numbers |floor n| passes. */
    method Prng(n: Option<real>)
      requires Valid()
      modifies this`acc, this`brs, this`cnt, m, r
      ensures Value() == Generations(old(Value()), Passes(n))
      ensures Passes(n) > 0 ==> r[..] == Results(Generations(old(Value()), Passes(n) - 1))
    {
      hide Generation, Results;
      var k := Passes(n);
      var done := 0;
      while done < k
        invariant 0 <= done <= k
        invariant Value() == Generations(old(Value()), done)
        invariant done > 0 ==> r[..] == Results(Generations(old(Value()), done - 1))
      {
        Pass();
        done := done + 1;
      }
    }

    /** rand. */
    method Rand() returns (v: Word)
      requires Valid() && 0 <= gnt <= 256
      modifies this, m, r
      ensures Supply(Value(), r[..], gnt) == Draw(Supply(old(Value()), old(r[..]), old(gnt)))
      ensures 0 <= gnt < 256 && v == r[gnt]
    {
      hide Generation, Results;
      var empty := gnt == 0;
      gnt := gnt - 1;
      if empty {
        Pass();
        gnt := 255;
      }
      v := r[gnt];
    }
  }

  lemma StepsBegin(s: State)
    ensures Steps(s, 0) == s
  {
  }

  lemma StepsGoOn(s: State, i: nat)
    requires i < 256
    ensures Steps(s, i + 1) == Step(Steps(s, i), i)
  {
    hide Step;
  }

  lemma ResultsGoOn(s: State, i: nat)
    requires i < 256
    ensures Results(s)[..i + 1] == Results(s)[..i] + [Steps(Count(s), i + 1).brs]
  {
    hide Steps, Count;
  }

  lemma BrsOfValue(g: Generator)
    requires g.Valid()
    ensures g.Value().brs == g.brs
  {
  }

  lemma GenerationIsSteps(s: State, n: nat)
    requires n == 256
    ensures Generation(s) == Steps(Count(s), n)
  {
    hide Steps, Count;
  }

  /** `(n && typeof(n) === 'number') ? Math.abs(Math.floor(n)) : 1`. */
  function Passes(n: Option<real>): nat {
    match n
    case None => 1
    case Some(x) => if x == 0.0 then 1 else if x.Floor < 0 then -x.Floor else x.Floor
  }

  /** No number and zero mean one pass; for other numbers, `k` being the next integer below, it is the size of `k`. */
  lemma PassesFor(x: real, k: int)
    requires k as real <= x < k as real + 1.0
    ensures Passes(None) == 1 && Passes(Some(0.0)) == 1
    ensures x != 0.0 ==> Passes(Some(x)) == if k < 0 then -k else k
  {
    assert x.Floor == k;
  }
}
