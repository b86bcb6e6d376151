/** What a key schedule does to the individual words: each of the 521 pairs is written by its own step only. */
module KeySchedule {
  import opened Words
  import opened Blowfish

  /** The boxes and the running block after the first `k` steps. */
  datatype Progress = Progress(b: Boxes, x: Block)

  function After(b: Boxes, data: Stream, k: nat): Progress
    requires k <= 521
    decreases k
  {
    if k == 0 then Progress(b, Block(0, 0))
    else
      var p := After(b, data, k - 1);
      var y := Encrypt(p.b, Mixed(p.x, k - 1, data));
      Progress(Put(p.b, k - 1, y), y)
  }

  /** Pair `k` of the words, P first and then S. */
  function PairOf(b: Boxes, k: nat): Block
    requires k < 521
  {
    if k < 9 then Block(b.p[2 * k], b.p[2 * k + 1]) else Block(b.s[2 * k - 18], b.s[2 * k - 17])
  }

  lemma PairOfPut(b: Boxes, k: nat, x: Block, j: nat)
    requires k < 521 && j < 521
    ensures PairOf(Put(b, k, x), j) == if j == k then x else PairOf(b, j)
  {
  }

  /** Until its own step a pair keeps its value, afterwards it keeps what its own step wrote. */
  lemma {:induction false} OnlyOwnStepWrites(b: Boxes, data: Stream, k: nat, j: nat)
    requires k <= 521 && j < 521
    ensures PairOf(After(b, data, k).b, j) == if k <= j then PairOf(b, j) else After(b, data, j + 1).x
    decreases k
  {
    hide Encrypt, Mixed, Put, PairOf;
    if k > 0 {
      OnlyOwnStepWrites(b, data, k - 1, j);
      var p := After(b, data, k - 1);
      PairOfPut(p.b, k - 1, Encrypt(p.b, Mixed(p.x, k - 1, data)), j);
    }
  }

  lemma {:induction false} FillFromAfter(b: Boxes, data: Stream, k: nat)
    requires k <= 521
    ensures FillFrom(After(b, data, k).b, After(b, data, k).x, k, data) == Fill(b, data)
    decreases k
  {
    hide Encrypt, Mixed, Put, FillFrom;
    if k > 0 {
      FillFromAfter(b, data, k - 1);
      FillStep(After(b, data, k - 1).b, After(b, data, k - 1).x, k - 1, data);
    }
  }

  /** The schedule leaves in every pair of words exactly the block that its own step encrypted. */
  lemma EveryPairIsItsOwnBlock(b: Boxes, data: Stream, j: nat)
    requires j < 521
    ensures PairOf(Fill(b, data), j) == After(b, data, j + 1).x
  {
    hide Fill, PairOf;
    FillFromAfter(b, data, 521);
    FillEnds(After(b, data, 521).b, After(b, data, 521).x, data);
    OnlyOwnStepWrites(b, data, 521, j);
    hide *;
  }
}
