/** What makes Blowfish a cipher: with the sub-keys in reverse order, the same rounds undo an encryption. */
module BlowfishInverse {
  import opened Words
  import opened Blowfish

  /** The boxes with P back to front. */
  function Backwards(b: Boxes): Boxes {
    b.(p := seq(18, i requires 0 <= i < 18 => b.p[17 - i]))
  }

  function Exchanged(x: Block): Block {
    Block(x.r, x.l)
  }

  /** A block whose first sub-key is mixed in, and the sixteen rounds from there. */
  function Start(b: Boxes, x: Block): Block {
    Block(Xor(x.l, b.p[0]), x.r)
  }

  /** Round `n` with the halves exchanged is undone by round `15 - n` of the reversed sub-keys. */
  lemma RoundUndone(b: Boxes, l: Word, r: Word, n: nat)
    requires n < 16
    ensures Feistel(Backwards(b), l, Feistel(b, l, r, n), 15 - n) == r
  {
    var f, k := F(b.s, l), b.p[n + 1];
    CancelTwo(r, f, k);
    hide F, Xor;
  }

  lemma CancelTwo(r: Word, f: Word, k: Word)
    ensures Xor(Xor(Xor(Xor(r, f), k), f), k) == r
  {
  }

  /** After `k` rounds of decryption the halves are those of encryption before its last `k`, exchanged. */
  lemma {:induction false} RoundsUndone(b: Boxes, x: Block, k: nat)
    requires k <= 16
    ensures Rounds(Backwards(b), Exchanged(Rounds(b, x, 16)), k) == Exchanged(Rounds(b, x, 16 - k))
    decreases k
  {
    hide Feistel, Backwards;
    if k > 0 {
      RoundsUndone(b, x, k - 1);
      var y := Rounds(b, x, 16 - k);
      RoundStep(b, x, y.l, y.r, 16 - k);
      RoundUndone(b, y.l, y.r, 16 - k);
    }
  }

  /** Encrypting again with the sub-keys in reverse order gives the block back, whatever the boxes hold. */
  lemma DecryptUndoes(b: Boxes, x: Block)
    ensures Encrypt(Backwards(b), Encrypt(b, x)) == x
  {
    hide Rounds, Xor, Feistel;
    var z := Start(b, x);
    var y := Rounds(b, z, 16);
    RoundsUndone(b, z, 16);
    NoRounds(b, z);
    XorTwice(y.r, b.p[17]);
    XorTwice(x.l, b.p[0]);
  }

  lemma NoRounds(b: Boxes, x: Block)
    ensures Rounds(b, x, 0) == x
  {
  }

  lemma ReversedTwice(b: Boxes)
    ensures Backwards(Backwards(b)) == b
  {
    assert Backwards(Backwards(b)).p == b.p;
  }

  /** So an encryption is a bijection of the blocks: no two blocks are encrypted alike, and every block is reached. */
  lemma EncryptBijective(b: Boxes, x: Block, y: Block)
    ensures Encrypt(b, x) == Encrypt(b, y) <==> x == y
    ensures Encrypt(b, Encrypt(Backwards(b), x)) == x
  {
    hide Encrypt, Backwards;
    DecryptUndoes(b, x);
    DecryptUndoes(b, y);
    DecryptUndoes(Backwards(b), x);
    ReversedTwice(b);
  }
}
