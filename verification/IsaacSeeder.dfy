/** The seed function of isaac.js as it runs, in place on the memory of the generator. */
module IsaacSeeder {
  import opened Words
  import opened Isaac
  import opened IsaacSeed

  /** A short seed is padded with zeros, and what is no number counts as zero. */
  lemma {:induction false} ShortSeedFolds(s: seq<Option<Word>>)
    requires |s| <= 256
    ensures forall i :: 0 <= i < 256 ==> Folded(s)[i] == if i < |s| then s[i].GetOr(0) else 0
    decreases |s|
  {
    if s != [] {
      var n := |s| - 1;
      var t := s[..n];
      ShortSeedFolds(t);
      var r := Folded(t);
      assert n % 256 == n;
      assert Folded(s) == r[n := Add(r[n], s[n].GetOr(0))];
      assert r[n] == 0 && Add(0, s[n].GetOr(0)) == s[n].GetOr(0);
    }
  }

  lemma AddZero(x: Word)
    ensures Add(x, 0) == x
  {
  }

  lemma FoldedLast(s: seq<Option<Word>>, x: Option<Word>)
    ensures var r, i := Folded(s), |s| % 256; Folded(s + [x]) == r[i := Add(r[i], x.GetOr(0))]
  {
    assert (s + [x])[..|s|] == s;
    hide Add;
  }

  /** A longer seed is folded: what follows whole rounds of 256 elements is added to them, place by place. */
  lemma {:induction false} LongSeedFolds(s: seq<Option<Word>>, t: seq<Option<Word>>, i: nat)
    requires |s| % 256 == 0 && i < 256
    ensures Folded(s + t)[i] == Add(Folded(s)[i], Folded(t)[i])
    decreases |t|
  {
    hide Add, Folded;
    if t == [] {
      assert s + t == s;
      ShortSeedFolds(t);
      AddZero(Folded(s)[i]);
    } else {
      var n := |t| - 1;
      var (u, x) := (t[..n], t[n]);
      LongSeedFolds(s, u, i);
      assert t == u + [x] && s + t == (s + u) + [x];
      FoldedLast(u, x);
      FoldedLast(s + u, x);
      assert |s + u| % 256 == |u| % 256;
      AddAssociates(Folded(s)[i], Folded(u)[i], x.GetOr(0));
    }
  }

  lemma AddAssociates(x: Word, y: Word, z: Word)
    ensures Add(Add(x, y), z) == Add(x, Add(y, z))
  {
    RawAssociates(x, y, z);
    assert Add(x, y) == x + y && Add(y, z) == y + z;
    assert Add(x + y, z) == x + y + z && Add(x, y + z) == x + (y + z);
    hide Add;
  }

  lemma RawAssociates(x: Word, y: Word, z: Word)
    ensures x + y + z == x + (y + z)
  {
  }

  /** Two seeds of at most 256 words that differ after padding never leave the same state. */
  lemma ShortSeedsDiffer(s: seq<Option<Word>>, t: seq<Option<Word>>, i: nat)
    requires |s| <= 256 && |t| <= 256
    requires i < 256 && (if i < |s| then s[i].GetOr(0) else 0) != (if i < |t| then t[i].GetOr(0) else 0)
    ensures Seeded(s) != Seeded(t)
  {
    hide Folded, Seeded;
    ShortSeedFolds(s);
    ShortSeedFolds(t);
    SeedingInjective(s, t);
  }

  function Fields(v: Eight): (s: seq<Word>)
    ensures |s| == 8
  {
    [v.a, v.b, v.c, v.d, v.e, v.f, v.g, v.h]
  }

  /** `m[i + 0] = a; ... m[i + 7] = h;` */
  method StoreBlock(m: array<Word>, i: nat, v: Eight)
    requires i + 8 <= m.Length
    modifies m
    ensures m[..] == old(m[..i]) + Fields(v) + old(m[i + 8..])
  {
    m[i + 0] := v.a;
    m[i + 1] := v.b;
    m[i + 2] := v.c;
    m[i + 3] := v.d;
    m[i + 4] := v.e;
    m[i + 5] := v.f;
    m[i + 6] := v.g;
    m[i + 7] := v.h;
  }

  lemma PassGoesOn(v: Eight, src: Memory, j: nat)
    requires j < 32
    ensures PassResult(v, src)[..8 * j + 8] == PassResult(v, src)[..8 * j] + Fields(Chain(v, src, j + 1))
  {
    hide PassResult, Chain;
    PassBlocks(v, src, j);
  }

  /** `a = add(a, r[i + 0]); ... h = add(h, r[i + 7]);` */
  method AddBlock(v: Eight, r: array<Word>, i: nat, ghost src: Memory, ghost j: nat) returns (w: Eight)
    requires r.Length == 256 && j < 32 && i == 8 * j
    requires forall k :: i <= k < i + 8 ==> r[k] == src[k]
    ensures w == AddEight(v, BlockOf(src, j))
  {
    hide Add, SafeAdd;
    forall x: Word, y: Word ensures SafeAdd(x, y) == Add(x, y) { SafeAddIsAdd(x, y); }
    w := Eight(SafeAdd(v.a, r[i + 0]), SafeAdd(v.b, r[i + 1]), SafeAdd(v.c, r[i + 2]), SafeAdd(v.d, r[i + 3]),
               SafeAdd(v.e, r[i + 4]), SafeAdd(v.f, r[i + 5]), SafeAdd(v.g, r[i + 6]), SafeAdd(v.h, r[i + 7]));
  }

  /** What holds between two blocks of a pass: `j` blocks are stored, and the source is as it was from there on. */
  ghost predicate InPass(m: seq<Word>, r: seq<Word>, v0: Eight, src: Memory, j: nat, v: Eight) {
    && |m| == |r| == 256 && j <= 32
    && v == Chain(v0, src, j)
    && r[8 * j..] == src[8 * j..]
    && m[..8 * j] == PassResult(v0, src)[..8 * j]
  }

  lemma BlockDone(m: seq<Word>, r: seq<Word>, v0: Eight, src: Memory, j: nat, v: Eight,
                  m1: seq<Word>, r1: seq<Word>, w: Eight)
    requires InPass(m, r, v0, src, j, v) && j < 32
    requires w == SeedMix(AddEight(v, BlockOf(src, j)))
    requires m1 == m[..8 * j] + Fields(w) + m[8 * j + 8..] && |r1| == 256 && r1[8 * j + 8..] == r[8 * j + 8..]
    ensures InPass(m1, r1, v0, src, j + 1, w)
  {
    hide SeedMix, AddEight, BlockOf, PassResult, Fields, Chain;
    ChainGoesOn(v0, src, j);
    PassGoesOn(v0, src, j);
    assert r[8 * j + 8..] == r[8 * j..][8..] == src[8 * j..][8..] == src[8 * j + 8..];
    assert m1[..8 * j + 8] == m[..8 * j] + Fields(w);
  }

  lemma PassBegins(m: seq<Word>, src: Memory, v0: Eight)
    requires |m| == 256
    ensures InPass(m, src, v0, src, 0, v0)
  {
    ChainBegins(v0, src);
    hide PassResult, Chain;
  }

  lemma PassEnds(m: seq<Word>, r: seq<Word>, v0: Eight, src: Memory, v: Eight)
    requires InPass(m, r, v0, src, 32, v)
    ensures m == PassResult(v0, src) && v == Chain(v0, src, 32)
  {
    hide PassResult, Chain;
    assert m[..256] == m && PassResult(v0, src)[..256] == PassResult(v0, src);
  }

  lemma BlockSource(m: seq<Word>, r: seq<Word>, v0: Eight, src: Memory, j: nat, v: Eight)
    requires InPass(m, r, v0, src, j, v) && j < 32
    ensures |r| == 256 && v == Chain(v0, src, j) && forall k :: 8 * j <= k < 8 * j + 8 ==> r[k] == src[k]
  {
    hide PassResult, Chain;
    assert forall k :: 8 * j <= k < 8 * j + 8 ==> r[k] == r[8 * j..][k - 8 * j] && src[k] == src[8 * j..][k - 8 * j];
  }

  /** One block of a pass, from word `i` on. */
  method PassBlock(m: array<Word>, r: array<Word>, i: nat, v: Eight, ghost v0: Eight, ghost src: Memory, ghost j: nat)
    returns (w: Eight)
    requires m.Length == 256 && r.Length == 256 && j < 32 && i == 8 * j && InPass(m[..], r[..], v0, src, j, v)
    modifies m
    ensures InPass(m[..], r[..], v0, src, j + 1, w)
    ensures m != r ==> r[..] == old(r[..])
  {
    hide *;
    ghost var before, was := m[..], r[..];
    BlockSource(before, was, v0, src, j, v);
    w := AddBlock(v, r, i, src, j);
    w := SeedMix(w);
    StoreBlock(m, i, w);
    assert r[8 * j + 8..] == was[8 * j + 8..];
    BlockDone(before, was, v0, src, j, v, m[..], r[..], w);
  }

  /** Block `j` of a memory is the block before it, at first the eight variables, with the block of the source added,
      mixed. */
  ghost predicate Recurs(v: Eight, src: Memory, m: Memory, j: nat)
    requires j < 32
  {
    BlockOf(m, j) == SeedMix(AddEight(if j == 0 then v else BlockOf(m, j - 1), BlockOf(src, j)))
  }

  lemma PassRecurs(v: Eight, src: Memory)
    ensures forall j :: 0 <= j < 32 ==> Recurs(v, src, PassResult(v, src), j)
  {
    hide *;
    forall j | 0 <= j < 32
      ensures Recurs(v, src, PassResult(v, src), j)
    {
      PassRecurrence(v, src, j);
    }
  }

  lemma PassRecurrence(v: Eight, src: Memory, j: nat)
    requires j < 32
    ensures Recurs(v, src, PassResult(v, src), j)
  {
    hide SeedMix, AddEight, BlockOf, PassResult, Chain;
    ChainBegins(v, src);
    ChainGoesOn(v, src, j);
    PassBlocks(v, src, j);
    if j > 0 {
      PassBlocks(v, src, j - 1);
    }
  }

  /** One pass over the 32 blocks; the two arrays are the same one in the second pass. */
  method RunPass(m: array<Word>, r: array<Word>, v0: Eight) returns (v: Eight)
    requires m.Length == 256 && r.Length == 256
    modifies m
    ensures m[..] == PassResult(v0, old(r[..])) && v == Chain(v0, old(r[..]), 32)
    ensures forall j :: 0 <= j < 32 ==> Recurs(v0, old(r[..]), m[..], j)
    ensures m != r ==> r[..] == old(r[..])
  {
    hide *;
    ghost var src := r[..];
    v := v0;
    PassBegins(m[..], src, v0);
    var i := 0;
    ghost var j := 0;
    while i < 256
      invariant 0 <= j <= 32 && i == 8 * j
      invariant InPass(m[..], r[..], v0, src, j, v)
      invariant m != r ==> r[..] == src
    {
      v := PassBlock(m, r, i, v, v0, src, j);
      i := i + 8;
      j := j + 1;
    }
    PassEnds(m[..], r[..], v0, src, v);
    PassRecurs(v0, src);
  }

  lemma ChainBegins(v: Eight, src: Memory)
    ensures Chain(v, src, 0) == v
  {
  }

  lemma ChainGoesOn(v: Eight, src: Memory, j: nat)
    requires j < 32
    ensures Chain(v, src, j + 1) == SeedMix(AddEight(Chain(v, src, j), BlockOf(src, j)))
  {
    hide SeedMix, AddEight, BlockOf;
  }

  /** reset, and the loop that folds the seed into r. */
  method Fold(g: Generator, s: seq<Option<Word>>)
    requires g.Valid()
    modifies g, g.m, g.r
    ensures g.acc == 0 && g.brs == 0 && g.cnt == 0 && g.gnt == 0
    ensures g.r[..] == Folded(s)
  {
    hide Add;
    g.acc, g.brs, g.cnt := 0, 0, 0;
    forall i | 0 <= i < 256 {
      g.m[i] := 0;
    }
    forall i | 0 <= i < 256 {
      g.r[i] := 0;
    }
    g.gnt := 0;
    var i := 0;
    assert s[..0] == [];
    while i < |s|
      invariant 0 <= i <= |s|
      invariant g.acc == 0 && g.brs == 0 && g.cnt == 0 && g.gnt == 0
      invariant g.r[..] == Folded(s[..i])
    {
      assert s[..i + 1][..i] == s[..i];
      g.r[i % 256] := Add(g.r[i % 256], s[i].GetOr(0));
      i := i + 1;
    }
    assert s[..|s|] == s;
  }

  /** `for(i = 0; i < 4; i++) seed_mix();` from the golden ratio. */
  method Scramble() returns (v: Eight)
    ensures v == Scrambled()
  {
    hide SeedMix;
    v := Eight(GOLDEN, GOLDEN, GOLDEN, GOLDEN, GOLDEN, GOLDEN, GOLDEN, GOLDEN);
    v := SeedMix(v);
    v := SeedMix(v);
    v := SeedMix(v);
    v := SeedMix(v);
  }

  /** seed, for an array. */
  method Seed(g: Generator, s: seq<Option<Word>>)
    requires g.Valid()
    modifies g, g.m, g.r
    ensures g.Value() == Seeded(s)
    ensures g.r[..] == Results(State(SeededMemory(Folded(s)), 0, 0, 0))
    ensures g.gnt == 256
  {
    hide Folded, Scrambled, PassResult, Chain, BlockOf, Generation, Results, SeedMix;
    Fold(g, s);
    var v := Scramble();
    ghost var first := PassResult(v, Folded(s));
    v := RunPass(g.m, g.r, v);
    PassBlocks(Scrambled(), Folded(s), 31);
    v := RunPass(g.m, g.m, v);
    g.Prng(None);
    g.gnt := 256;
  }
}

