/** Seeding of isaac.js: the mixer of eight words, its two passes over the memory, and why no seed is lost. */
module IsaacSeed {
  import opened Words
  import opened Isaac

  datatype Eight = Eight(a: Word, b: Word, c: Word, d: Word, e: Word, f: Word, g: Word, h: Word)

  /** The shifted operand of line `k` of the mixer. */
  function Shifted(k: nat, x: Word): Word
    requires k < 8
  {
    match k
    case 0 => x << 11
    case 1 => x >> 2
    case 2 => x << 8
    case 3 => x >> 16
    case 4 => x << 10
    case 5 => x >> 4
    case 6 => x << 8
    case _ => x >> 9
  }

  /** seed_mix as it is written, line by line. */
  function SeedMix(v: Eight): Eight {
    var a0 := Xor(v.a, Shifted(0, v.b)); var d0 := Add(v.d, a0); var b0 := Add(v.b, v.c);
    var b1 := Xor(b0, Shifted(1, v.c)); var e1 := Add(v.e, b1); var c1 := Add(v.c, d0);
    var c2 := Xor(c1, Shifted(2, d0)); var f2 := Add(v.f, c2); var d2 := Add(d0, e1);
    var d3 := Xor(d2, Shifted(3, e1)); var g3 := Add(v.g, d3); var e3 := Add(e1, f2);
    var e4 := Xor(e3, Shifted(4, f2)); var h4 := Add(v.h, e4); var f4 := Add(f2, g3);
    var f5 := Xor(f4, Shifted(5, g3)); var a5 := Add(a0, f5); var g5 := Add(g3, h4);
    var g6 := Xor(g5, Shifted(6, h4)); var b6 := Add(b1, g6); var h6 := Add(h4, a5);
    var h7 := Xor(h6, Shifted(7, a5)); var c7 := Add(c2, h7); var a7 := Add(a5, b6);
    Eight(a7, b6, c7, d3, e4, f5, g6, h7)
  }

  /** One line of the mixer; the variables then move one place, so that every line has the same form. */
  function Line(k: nat, v: Eight): Eight
    requires k < 8
  {
    var a := Xor(v.a, Shifted(k, v.b));
    Eight(Add(v.b, v.c), v.c, Add(v.d, a), v.e, v.f, v.g, v.h, a)
  }

  function Unline(k: nat, w: Eight): Eight
    requires k < 8
  {
    var b := Sub(w.a, w.b);
    Eight(Xor(w.h, Shifted(k, b)), b, w.b, Sub(w.c, w.h), w.d, w.e, w.f, w.g)
  }

  lemma LineInverse(k: nat, v: Eight)
    requires k < 8
    ensures Unline(k, Line(k, v)) == v
    ensures Line(k, Unline(k, v)) == v
  {
    hide Add, Sub, Xor, Shifted;
    var a := Xor(v.a, Shifted(k, v.b));
    AddSub(v.b, v.c);
    AddSub(v.d, a);
    XorTwice(v.a, Shifted(k, v.b));
    AddSub(v.a, v.b);
    XorTwice(v.h, Shifted(k, Sub(v.a, v.b)));
    AddSub(v.c, v.h);
  }

  /** The lines from `k` on. */
  function LinesFrom(k: nat, v: Eight): Eight
    requires k <= 8
    decreases 8 - k
  {
    if k == 8 then v else LinesFrom(k + 1, Line(k, v))
  }

  function UnlinesDownTo(k: nat, w: Eight): Eight
    requires k <= 8
    decreases 8 - k
  {
    if k == 8 then w else Unline(k, UnlinesDownTo(k + 1, w))
  }

  lemma {:induction false} LinesInverse(k: nat, v: Eight)
    requires k <= 8
    ensures UnlinesDownTo(k, LinesFrom(k, v)) == v && LinesFrom(k, UnlinesDownTo(k, v)) == v
    decreases 8 - k
  {
    hide Line, Unline;
    if k < 8 {
      LineInverse(k, v);
      LinesInverse(k + 1, Line(k, v));
      LineInverse(k, UnlinesDownTo(k + 1, v));
      LinesInverse(k + 1, v);
    }
  }

  /** All eight lines, and all of them undone. */
  function AllLines(v: Eight): Eight {
    LinesFrom(0, v)
  }

  lemma SeedMixIsLines(v: Eight)
    ensures SeedMix(v) == AllLines(v)
  {
    hide Add, Xor, Shifted;
    var v1 := Line(0, v);
    var v2 := Line(1, v1);
    var v3 := Line(2, v2);
    var v4 := Line(3, v3);
    var v5 := Line(4, v4);
    var v6 := Line(5, v5);
    var v7 := Line(6, v6);
    var v8 := Line(7, v7);
    assert SeedMix(v) == v8;
    hide Line;
    assert LinesFrom(8, v8) == v8;
    assert LinesFrom(7, v7) == v8;
    assert LinesFrom(6, v6) == v8;
    assert LinesFrom(5, v5) == v8;
    assert LinesFrom(4, v4) == v8;
    assert LinesFrom(3, v3) == v8;
    assert LinesFrom(2, v2) == v8;
    assert LinesFrom(1, v1) == v8;
  }

  function Unmix(w: Eight): Eight {
    UnlinesDownTo(0, w)
  }

  /** The mixer is a bijection of eight words. */
  lemma SeedMixBijective(v: Eight)
    ensures Unmix(SeedMix(v)) == v && SeedMix(Unmix(v)) == v
  {
    hide SeedMix, LinesFrom, UnlinesDownTo;
    LinesInverse(0, v);
    SeedMixIsLines(v);
    SeedMixIsLines(Unmix(v));
  }

  function AddEight(v: Eight, w: Eight): Eight {
    Eight(Add(v.a, w.a), Add(v.b, w.b), Add(v.c, w.c), Add(v.d, w.d),
          Add(v.e, w.e), Add(v.f, w.f), Add(v.g, w.g), Add(v.h, w.h))
  }

  function SubEight(v: Eight, w: Eight): Eight {
    Eight(Sub(v.a, w.a), Sub(v.b, w.b), Sub(v.c, w.c), Sub(v.d, w.d),
          Sub(v.e, w.e), Sub(v.f, w.f), Sub(v.g, w.g), Sub(v.h, w.h))
  }

  lemma SubAddEight(v: Eight, w: Eight)
    ensures SubEight(AddEight(v, w), v) == w
  {
    hide Add, Sub;
    AddSub(v.a, w.a); AddSub(v.b, w.b); AddSub(v.c, w.c); AddSub(v.d, w.d);
    AddSub(v.e, w.e); AddSub(v.f, w.f); AddSub(v.g, w.g); AddSub(v.h, w.h);
  }

  /** Words 8j to 8j+7. */
  function BlockOf(m: Memory, j: nat): Eight
    requires j < 32
  {
    Eight(m[8 * j], m[8 * j + 1], m[8 * j + 2], m[8 * j + 3], m[8 * j + 4], m[8 * j + 5], m[8 * j + 6], m[8 * j + 7])
  }

  lemma BlocksDetermine(m: Memory, n: Memory)
    requires forall j :: 0 <= j < 32 ==> BlockOf(m, j) == BlockOf(n, j)
    ensures m == n
  {
    forall i | 0 <= i < 256
      ensures m[i] == n[i]
    {
      var j := i / 8;
      assert BlockOf(m, j) == BlockOf(n, j);
      assert i == 8 * j + i % 8;
    }
  }

  /** The eight variables after `n` blocks of a pass that adds the blocks of `src`. */
  function Chain(v: Eight, src: Memory, n: nat): Eight
    requires n <= 32
    decreases n
  {
    if n == 0 then v else SeedMix(AddEight(Chain(v, src, n - 1), BlockOf(src, n - 1)))
  }

  /** One field of eight. */
  function Field(v: Eight, i: nat): Word
    requires i < 8
  {
    match i
    case 0 => v.a
    case 1 => v.b
    case 2 => v.c
    case 3 => v.d
    case 4 => v.e
    case 5 => v.f
    case 6 => v.g
    case _ => v.h
  }

  /** The memory that a pass leaves. */
  function PassResult(v: Eight, src: Memory): Memory {
    seq(256, i requires 0 <= i < 256 => Field(Chain(v, src, i / 8 + 1), i % 8))
  }

  lemma PassWord(v: Eight, src: Memory, j: nat, k: nat)
    requires j < 32 && k < 8
    ensures PassResult(v, src)[8 * j + k] == Field(Chain(v, src, j + 1), k)
  {
    hide Chain, Field;
    var i := 8 * j + k;
    assert i / 8 == j && i % 8 == k;
  }

  lemma FieldsMakeEight(v: Eight)
    ensures v == Eight(Field(v, 0), Field(v, 1), Field(v, 2), Field(v, 3),
                       Field(v, 4), Field(v, 5), Field(v, 6), Field(v, 7))
  {
  }

  lemma PassBlocks(v: Eight, src: Memory, j: nat)
    requires j < 32
    ensures BlockOf(PassResult(v, src), j) == Chain(v, src, j + 1)
  {
    hide Chain, Field, PassResult;
    PassWord(v, src, j, 0);
    PassWord(v, src, j, 1);
    PassWord(v, src, j, 2);
    PassWord(v, src, j, 3);
    PassWord(v, src, j, 4);
    PassWord(v, src, j, 5);
    PassWord(v, src, j, 6);
    PassWord(v, src, j, 7);
    FieldsMakeEight(Chain(v, src, j + 1));
  }

  /** The source block of a step, from the variables before and after it. */
  lemma ChainUndone(v: Eight, src: Memory, j: nat)
    requires j < 32
    ensures BlockOf(src, j) == SubEight(Unmix(Chain(v, src, j + 1)), Chain(v, src, j))
  {
    hide SeedMix, Unmix, AddEight, SubEight, BlockOf;
    SeedMixBijective(AddEight(Chain(v, src, j), BlockOf(src, j)));
    SubAddEight(Chain(v, src, j), BlockOf(src, j));
  }

  lemma ChainFromResult(v: Eight, src: Memory, w: Eight, dst: Memory, j: nat)
    requires 1 <= j <= 32 && PassResult(v, src) == PassResult(w, dst)
    ensures Chain(v, src, j) == Chain(w, dst, j)
  {
    PassBlocks(v, src, j - 1);
    PassBlocks(w, dst, j - 1);
    hide *;
  }

  /** A pass that starts from known variables can be undone. */
  lemma PassInjective(v: Eight, src: Memory, dst: Memory)
    requires PassResult(v, src) == PassResult(v, dst)
    ensures src == dst
  {
    hide PassResult, SeedMix, Unmix, AddEight, SubEight, BlockOf;
    forall j | 0 <= j < 32
      ensures BlockOf(src, j) == BlockOf(dst, j)
    {
      if j > 0 {
        ChainFromResult(v, src, v, dst, j);
      }
      ChainFromResult(v, src, v, dst, j + 1);
      ChainUndone(v, src, j);
      ChainUndone(v, dst, j);
    }
    BlocksDetermine(src, dst);
  }

  /** The second pass can be undone too: its start is the last block of its source, which it does not hide. */
  lemma SecondPassInjective(src: Memory, dst: Memory)
    requires PassResult(BlockOf(src, 31), src) == PassResult(BlockOf(dst, 31), dst)
    ensures src == dst
  {
    hide *;
    var v, w := BlockOf(src, 31), BlockOf(dst, 31);
    ChainFromResult(v, src, w, dst, 31);
    ChainFromResult(v, src, w, dst, 32);
    ChainUndone(v, src, 31);
    ChainUndone(w, dst, 31);
    PassInjective(v, src, dst);
  }

  const GOLDEN: Word := 0x9e3779b9

  /** The variables after four scrambling mixes. */
  function Scrambled(): Eight {
    SeedMix(SeedMix(SeedMix(SeedMix(Eight(GOLDEN, GOLDEN, GOLDEN, GOLDEN, GOLDEN, GOLDEN, GOLDEN, GOLDEN)))))
  }

  /** `r[i & 0xff] += s[i]`, where an element that is no number counts as zero. */
  function Folded(s: seq<Option<Word>>): Memory
    decreases |s|
  {
    if s == [] then seq(256, _ => 0)
    else
      var r := Folded(s[..|s| - 1]);
      var i := (|s| - 1) % 256;
      r[i := Add(r[i], s[|s| - 1].GetOr(0))]
  }

  /** The memory after both passes. */
  function SeededMemory(r: Memory): Memory {
    hide *;
    var first := PassResult(Scrambled(), r);
    PassResult(BlockOf(first, 31), first)
  }

  /** The state that seed leaves for an array. */
  function Seeded(s: seq<Option<Word>>): State {
    Generation(State(SeededMemory(Folded(s)), 0, 0, 0))
  }

  lemma SeededMemoryInjective(r: Memory, t: Memory)
    requires SeededMemory(r) == SeededMemory(t)
    ensures r == t
  {
    hide Scrambled, PassResult, BlockOf;
    SecondPassInjective(PassResult(Scrambled(), r), PassResult(Scrambled(), t));
    PassInjective(Scrambled(), r, t);
  }

  /** Two arrays leave the same state exactly when their folded words are the same. */
  lemma SeedingInjective(s: seq<Option<Word>>, t: seq<Option<Word>>)
    ensures Seeded(s) == Seeded(t) <==> Folded(s) == Folded(t)
  {
    hide Folded, SeededMemory, Generation, Ungeneration;
    if Seeded(s) == Seeded(t) {
      GenerationBijective(State(SeededMemory(Folded(s)), 0, 0, 0));
      GenerationBijective(State(SeededMemory(Folded(t)), 0, 0, 0));
      SeededMemoryInjective(Folded(s), Folded(t));
    }
  }
}
