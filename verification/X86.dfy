/** The i386 assembly version of BF_body: registers, delayed key mixing and four encryptions per loop turn. */
module X86 {
  import opened Words
  import opened Blowfish

  /** The registers that the macros name; `x` is the half that a macro hashes next, `y` the other one. */
  datatype Registers = Registers(x: Word, y: Word, tmp1: Word, tmp2: Word, tmp3: Word, tmp4: Word, tmp5: Word)

  /** The structure BF_ctx as words of memory: S first, P behind it. */
  type Memory = m: seq<Word> | |m| == 1042 witness seq(1042, _ => 0)

  function MemoryBoxes(m: Memory): Boxes {
    BoxValues(m[1024..], m[..1024])
  }

  /** The second byte of a register, as `movb` reads it. */
  function High(r: Word): Word { (r >> 8) & 0xff }

  /** `movb` into the lowest byte of a register, which keeps the other three. */
  function MoveLow(r: Word, v: Word): Word { (r & 0xffffff00) | v }

  /** The memory operand S(0x400 * k, r). */
  function Operand(m: Memory, k: nat, r: Word): Word
    requires k < 4 && r <= 0xff
  {
    SBox(m[..1024], k, r as Byte)
  }

  /** The address registers of a BF_ROUND, from the half that is hashed: tmp1 to tmp4 as far as `andl $0xFF,tmp4`. */
  function Addresses(l: Word, tmp3: Word): (Word, Word, Word, Word) {
    var tmp1: Word := 0;
    var tmp2 := l >> 16;
    var tmp1' := MoveLow(tmp1, High(tmp2));
    (tmp1', tmp2 & 0xff, MoveLow(tmp3, High(l)), l & 0xff)
  }

  lemma AddressBytes(l: Word, tmp3: Word)
    requires tmp3 <= 0xff
    ensures Addresses(l, tmp3) == (Byte0(l) as Word, Byte1(l) as Word, Byte2(l) as Word, Byte3(l) as Word)
  {
  }

  lemma ByteOfWord(b: Byte)
    ensures b as Word <= 0xff && (b as Word) as Byte == b
  {
  }

  /** BF_ROUND: the key word in tmp2 is mixed in first, the next one is loaded last. */
  function Round(m: Memory, g: Registers, n: nat): Registers
    requires n < 16 && g.tmp3 <= 0xff
  {
    var l := Xor(g.tmp2, g.x);
    var (a1, a2, a3, a4) := Addresses(l, g.tmp3);
    AddressBytes(l, g.tmp3);
    ByteOfWord(Byte0(l));
    ByteOfWord(Byte1(l));
    ByteOfWord(Byte2(l));
    ByteOfWord(Byte3(l));
    hide *;
    var tmp1 := Operand(m, 0, a1);
    var tmp1' := Add(tmp1, Operand(m, 1, a2));
    var tmp1'' := Xor(tmp1', Operand(m, 2, a3));
    var tmp5 := Add(Operand(m, 3, a4), tmp1'');
    Registers(l, Xor(g.y, tmp5), tmp1'', m[1024 + n + 1], a3, a4, tmp5)
  }

  lemma RoundMeaning(m: Memory, g: Registers, n: nat)
    requires n < 16 && g.tmp3 <= 0xff
    ensures var l, r := Xor(g.tmp2, g.x), Round(m, g, n);
            r.x == l && r.y == Xor(g.y, F(m[..1024], l)) && r.tmp2 == m[1024 + n + 1] && r.tmp3 <= 0xff
  {
    var l := Xor(g.tmp2, g.x);
    AddressBytes(l, g.tmp3);
    ByteOfWord(Byte0(l));
    ByteOfWord(Byte1(l));
    ByteOfWord(Byte2(l));
    ByteOfWord(Byte3(l));
    hide SBox, Add, Xor, Addresses, Byte0, Byte1, Byte2, Byte3;
    var s := m[..1024];
    AddCommutes(Xor(Add(SBox(s, 0, Byte0(l)), SBox(s, 1, Byte1(l))), SBox(s, 2, Byte2(l))), SBox(s, 3, Byte3(l)));
  }

  /** The next BF_ROUND line names the two halves the other way round. */
  function Turn(g: Registers): Registers {
    g.(x := g.y, y := g.x)
  }

  /** After `k` rounds, up to the key word that still waits in tmp2, the registers hold the reference state. */
  predicate InStep(m: Memory, start: Block, k: nat, g: Registers)
    requires k <= 16
  {
    g.tmp3 <= 0xff && Rounds(MemoryBoxes(m), start, k) == Block(Xor(g.tmp2, g.x), g.y)
  }

  lemma XorCommutes(a: Word, b: Word)
    ensures Xor(a, b) == Xor(b, a)
  {
  }

  lemma RoundKeepsStep(m: Memory, start: Block, k: nat, g: Registers)
    requires k < 16 && InStep(m, start, k, g)
    ensures InStep(m, start, k + 1, Turn(Round(m, g, k)))
  {
    hide Round, Xor, F, Rounds;
    var b, l := MemoryBoxes(m), Xor(g.tmp2, g.x);
    RoundMeaning(m, g, k);
    RoundStep(b, start, l, g.y, k);
    XorCommutes(Xor(g.y, F(b.s, l)), b.p[k + 1]);
  }

  /** Four consecutive BF_ROUND lines. */
  function FourRounds(m: Memory, g: Registers, ghost start: Block, n: nat): (r: Registers)
    requires n <= 12 && InStep(m, start, n, g)
    ensures InStep(m, start, n + 4, r)
  {
    hide *;
    RoundKeepsStep(m, start, n, g);
    var g1 := Turn(Round(m, g, n));
    RoundKeepsStep(m, start, n + 1, g1);
    var g2 := Turn(Round(m, g1, n + 1));
    RoundKeepsStep(m, start, n + 2, g2);
    var g3 := Turn(Round(m, g2, n + 2));
    RoundKeepsStep(m, start, n + 3, g3);
    Turn(Round(m, g3, n + 3))
  }

  /** BF_ENCRYPT_START and BF_ENCRYPT_END; P[0] has been loaded into tmp2 before. */
  function EncryptBlock(m: Memory, g: Registers): (r: Registers)
    requires g.tmp3 <= 0xff && g.tmp2 == m[1024]
    ensures r.tmp3 <= 0xff && Block(r.x, r.y) == Encrypt(MemoryBoxes(m), Block(g.x, g.y))
  {
    hide *;
    ghost var start := Block(Xor(g.x, m[1024]), g.y);
    StartInStep(m, g);
    var g4 := FourRounds(m, g, start, 0);
    var g8 := FourRounds(m, g4, start, 4);
    var g12 := FourRounds(m, g8, start, 8);
    var g16 := FourRounds(m, g12, start, 12);
    EndOfRounds(m, Block(g.x, g.y), g16);
    var tmp2 := Xor(g16.tmp2, g16.x);
    var x := m[1041];
    g16.(x := Xor(x, g16.y), y := tmp2, tmp2 := tmp2)
  }

  lemma StartInStep(m: Memory, g: Registers)
    requires g.tmp3 <= 0xff && g.tmp2 == m[1024]
    ensures InStep(m, Block(Xor(g.x, m[1024]), g.y), 0, g)
  {
    XorCommutes(g.x, m[1024]);
    hide Xor, Feistel;
  }

  lemma EndOfRounds(m: Memory, x: Block, g: Registers)
    requires InStep(m, Block(Xor(x.l, m[1024]), x.r), 16, g)
    ensures g.tmp3 <= 0xff && Block(Xor(m[1041], g.y), Xor(g.tmp2, g.x)) == Encrypt(MemoryBoxes(m), x)
  {
    XorCommutes(m[1041], g.y);
    hide Xor, Rounds;
  }

  /** The boxes that the schedule leads to from its step `k`, with the running block in the registers. */
  function Finished(m: Memory, g: Registers, k: nat): Boxes
    requires k <= 521
  {
    FillFrom(MemoryBoxes(m), Block(g.x, g.y), k, ZEROS)
  }

  /** The first steps over P and over S. */
  function FirstOfP(): (k: nat) ensures k == 0 { 0 }
  function FirstOfS(): (k: nat) ensures k == 9 { 9 }

  lemma BodyStep(m: Memory, g: Registers, k: nat, m1: Memory)
    requires k < 521 && g.tmp3 <= 0xff && g.tmp2 == m[1024]
    requires var r := EncryptBlock(m, g); MemoryBoxes(m1) == Put(MemoryBoxes(m), k, Block(r.x, r.y))
    ensures Finished(m, g, k) == Finished(m1, EncryptBlock(m, g), k + 1)
  {
    hide EncryptBlock, MemoryBoxes, Encrypt, FillFrom, Mixed, Put;
    FillStep(MemoryBoxes(m), Block(g.x, g.y), k, ZEROS);
    MixedZeros(Block(g.x, g.y), k);
  }

  lemma OtherRegistersFree(m: Memory, g: Registers, k: nat, tmp2: Word, tmp3: Word)
    requires k <= 521
    ensures Finished(m, g.(tmp2 := tmp2), k) == Finished(m, g, k) == Finished(m, g.(tmp3 := tmp3), k)
  {
  }

  lemma FinishedIsFill(m: Memory, g: Registers)
    ensures Finished(m, g.(x := 0, y := 0), FirstOfP()) == Fill(MemoryBoxes(m), ZEROS)
    ensures Finished(m, g, 521) == MemoryBoxes(m)
  {
    FillEnds(MemoryBoxes(m), Block(g.x, g.y));
    hide FillFrom, Fill, MemoryBoxes;
  }

  /** Where pair `k` of the 521 pairs lies in memory. */
  function PairAddress(k: nat): nat {
    if k < 9 then 1024 + 2 * k else 2 * k - 18
  }

  /** `movl L,(p); movl R,4(p)`. */
  method StoreBlock(mem: array<Word>, at: nat, L: Word, R: Word, ghost k: nat)
    requires mem.Length == 1042 && k < 521 && at == PairAddress(k)
    modifies mem
    ensures MemoryBoxes(mem[..]) == Put(MemoryBoxes(old(mem[..])), k, Block(L, R))
    ensures k >= 9 ==> mem[1024] == old(mem[1024])
  {
    mem[at] := L;
    mem[at + 1] := R;
  }

  /** Between two encryptions, `k` of them done: the schedule goes on to `target` from here, and P[0] waits in tmp2. */
  predicate InLoop(m: seq<Word>, g: Registers, k: nat, target: Boxes) {
    |m| == 1042 && k <= 521 && g.tmp3 <= 0xff && g.tmp2 == m[1024] && Finished(m, g, k) == target
  }

  lemma InLoopParts(m: Memory, g: Registers, k: nat, target: Boxes)
    requires k <= 521
    ensures InLoop(m, g, k, target) <==> g.tmp3 <= 0xff && g.tmp2 == m[1024] && Finished(m, g, k) == target
  {
    hide Finished;
  }

  /** One more encryption stored, and P[0] loaded again. */
  lemma LoopGoesOn(m: Memory, g: Registers, k: nat, m1: Memory, target: Boxes)
    requires k < 521 && InLoop(m, g, k, target) && g.tmp3 <= 0xff && g.tmp2 == m[1024]
    requires var r := EncryptBlock(m, g); MemoryBoxes(m1) == Put(MemoryBoxes(m), k, Block(r.x, r.y))
    ensures InLoop(m1, EncryptBlock(m, g).(tmp2 := m1[1024]), k + 1, target)
  {
    hide *;
    var r := EncryptBlock(m, g);
    InLoopParts(m, g, k, target);
    BodyStep(m, g, k, m1);
    OtherRegistersFree(m1, r, k + 1, m1[1024], 0);
    InLoopParts(m1, r.(tmp2 := m1[1024]), k + 1, target);
  }

  /** BF_loop_P, entered with tmp5 at P[0]. */
  method LoopP(mem: array<Word>, g0: Registers, ghost target: Boxes) returns (g: Registers)
    requires mem.Length == 1042 && InLoop(mem[..], g0, FirstOfP(), target)
    modifies mem
    ensures InLoop(mem[..], g, FirstOfS(), target)
  {
    hide *;
    g := g0;
    var ptr := 1024;
    ghost var k: nat := FirstOfP();
    while ptr < 1024 + 18
      invariant k <= 9 && ptr == 1024 + 2 * k
      invariant InLoop(mem[..], g, k, target)
    {
      ghost var m, before := mem[..], g;
      PairInP(k);
      InLoopParts(m, g, k, target);
      g := EncryptBlock(mem[..], g);
      ptr := ptr + 2;
      StoreBlock(mem, ptr - 2, g.x, g.y, k);
      g := g.(tmp2 := mem[1024]);
      LoopGoesOn(m, before, k, mem[..], target);
      k := k + 1;
    }
  }

  lemma PairInP(k: nat)
    requires k < 9
    ensures PairAddress(k) == 1024 + 2 * k
  {
  }

  lemma PairInS(k: nat)
    ensures PairAddress(9 + k) == 2 * k
  {
  }

  /** One encryption of BF_loop_S, the load of P[0] and the two stores. */
  method LoopSPart(mem: array<Word>, g0: Registers, at: nat, ghost k: nat, ghost target: Boxes) returns (g: Registers)
    requires mem.Length == 1042 && k < 512 && at == 2 * k && InLoop(mem[..], g0, 9 + k, target)
    modifies mem
    ensures InLoop(mem[..], g, 10 + k, target)
  {
    hide *;
    ghost var m := mem[..];
    PairInS(k);
    InLoopParts(m, g0, 9 + k, target);
    g := EncryptBlock(mem[..], g0);
    g := g.(tmp2 := mem[1024]);
    StoreBlock(mem, at, g.x, g.y, 9 + k);
    LoopGoesOn(m, g0, 9 + k, mem[..], target);
  }

  /** BF_loop_S: four encryptions a turn. */
  method LoopS(mem: array<Word>, g0: Registers, ghost target: Boxes)
    requires mem.Length == 1042 && InLoop(mem[..], g0, FirstOfS(), target)
    modifies mem
    ensures MemoryBoxes(mem[..]) == target
  {
    hide *;
    var g := g0;
    var ptr := 0;
    ghost var k: nat := 0;
    while ptr < 1024
      invariant k <= 512 && k % 4 == 0 && ptr == 2 * k
      invariant InLoop(mem[..], g, 9 + k, target)
    {
      g := LoopSPart(mem, g, ptr, k, target);
      g := LoopSPart(mem, g, ptr + 2, k + 1, target);
      g := LoopSPart(mem, g, ptr + 4, k + 2, target);
      ptr := ptr + 8;
      g := LoopSPart(mem, g, ptr - 2, k + 3, target);
      k := k + 4;
    }
    InLoopParts(mem[..], g, 521, target);
    FinishedIsFill(mem[..], g);
  }

  /** _BF_body_r, whatever the registers other than L, R and tmp3 hold at the start. */
  method BodyR(mem: array<Word>, junk: Registers)
    requires mem.Length == 1042
    modifies mem
    ensures MemoryBoxes(mem[..]) == Fill(MemoryBoxes(old(mem[..])), ZEROS)
  {
    hide *;
    var g := junk.(x := 0, y := 0, tmp2 := mem[1024], tmp3 := 0);
    ghost var target := Fill(MemoryBoxes(mem[..]), ZEROS);
    FinishedIsFill(mem[..], g);
    InLoopParts(mem[..], g, FirstOfP(), target);
    g := LoopP(mem, g, target);
    InLoopParts(mem[..], g, FirstOfS(), target);
    OtherRegistersFree(mem[..], g, FirstOfS(), mem[1024], 0);
    g := g.(tmp3 := 0);
    InLoopParts(mem[..], g, FirstOfS(), target);
    LoopS(mem, g, target);
  }
}
