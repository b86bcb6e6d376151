/** The object of bCrypt.js: its boxes, byte streams and key schedules. */
module BcryptJs {
  import opened Words
  import opened Blowfish
  import opened JsNumbers
  import opened KeyFeeding

  type JsP = p: seq<JsWord> | |p| == 18 witness seq(18, _ => 0)
  type JsS = s: seq<JsWord> | |s| == 1024 witness seq(1024, _ => 0)

  function BoxesOf(p: JsP, s: JsS): Boxes {
    BoxValues(Lows(p), Lows(s))
  }

  /** `this.S[0x100 * k | x]`. */
  function Entry(s: JsS, k: nat, x: Byte): (n: JsWord)
    requires k < 4
    ensures Low(n) == SBox(Lows(s), k, x)
  {
    s[0x100 * k + x as int]
  }

  /** The number `n` that one half round of encipher builds. */
  function HalfRoundNumber(s: JsS, l: JsWord): Number {
    var n0 := Entry(s, 0, (SignedShift(Low(l), 24) & 0xff) as Byte);
    var n1 := JsSum(n0, Entry(s, 1, (SignedShift(Low(l), 16) & 0xff) as Byte));
    var n2 := JsXor(n1, Entry(s, 2, (SignedShift(Low(l), 8) & 0xff) as Byte));
    JsSum(n2, Entry(s, 3, (Low(l) & 0xff) as Byte))
  }

  lemma HalfRoundNumberIsF(s: JsS, l: JsWord)
    ensures Low(HalfRoundNumber(s, l)) == F(Lows(s), Low(l))
  {
    var w := Low(l);
    MaskedShifts(w);
    var e0, e1, e2, e3 := Entry(s, 0, Byte0(w)), Entry(s, 1, Byte1(w)), Entry(s, 2, Byte2(w)), Entry(s, 3, Byte3(w));
    hide SBox, Add, Xor, Low, Lows, Entry, SignedShift, JsXor, JsSum;
    LowOfJsSum(e0, e1);
    LowOfXor(JsSum(e0, e1), e2);
    LowOfJsSum(JsXor(JsSum(e0, e1), e2), e3);
  }

  /** `r ^= n ^ this.P[++i]`. */
  function HalfRound(p: JsP, s: JsS, l: JsWord, r: JsWord, i: nat): JsWord
    requires i < 16
  {
    JsXor(r, JsXor(HalfRoundNumber(s, l), p[i + 1]))
  }

  lemma HalfRoundIsFeistel(p: JsP, s: JsS, l: JsWord, r: JsWord, i: nat)
    requires i < 16
    ensures Low(HalfRound(p, s, l, r, i)) == Feistel(BoxesOf(p, s), Low(l), Low(r), i)
  {
    hide HalfRoundNumber, F, Low, Xor, JsXor;
    var n := HalfRoundNumber(s, l);
    HalfRoundNumberIsF(s, l);
    LowOfXor(n, p[i + 1]);
    LowOfXor(r, JsXor(n, p[i + 1]));
    XorOrder(Low(r), Low(n), Low(p[i + 1]));
  }

  /** The offset in the data stream before step `k`. */
  function Offset(data: Stream, k: nat): nat {
    (4 * (2 * k)) % |data|
  }

  /** `lr[off]` and `lr[off + 1]` as a block. */
  function BlockAt(lr: seq<JsWord>, off: nat): Block
    requires off + 1 < |lr|
  {
    Block(Low(lr[off]), Low(lr[off + 1]))
  }

  lemma BlockAtParts(lr: seq<JsWord>, off: nat)
    requires off + 1 < |lr|
    ensures BlockAt(lr, off) == Block(Low(lr[off]), Low(lr[off + 1]))
  {
  }

  lemma PutP(p: JsP, s: JsS, k: nat, l: JsWord, r: JsWord)
    requires k < 9
    ensures BoxesOf(p[2 * k := l][2 * k + 1 := r], s) == Put(BoxesOf(p, s), k, Block(Low(l), Low(r)))
  {
    hide Low;
    LowsOfUpdate(p, 2 * k, l);
    LowsOfUpdate(p[2 * k := l], 2 * k + 1, r);
    hide Lows;
  }

  lemma PutS(p: JsP, s: JsS, k: nat, l: JsWord, r: JsWord)
    requires k < 512
    ensures BoxesOf(p, s[2 * k := l][2 * k + 1 := r]) == Put(BoxesOf(p, s), 9 + k, Block(Low(l), Low(r)))
  {
    hide Low;
    LowsOfUpdate(s, 2 * k, l);
    LowsOfUpdate(s[2 * k := l], 2 * k + 1, r);
    hide Lows;
  }

  /** What the loop of encipher keeps: after `i` rounds the two numbers denote the reference state. */
  ghost predicate InRound(p: JsP, s: JsS, x: Block, i: nat, l: JsWord, r: JsWord)
    requires i <= 16
  {
    var b := BoxesOf(p, s);
    Rounds(b, Block(Xor(x.l, b.p[0]), x.r), i) == Block(Low(l), Low(r))
  }

  lemma RoundsBegin(p: JsP, s: JsS, l: JsWord, r: JsWord)
    ensures InRound(p, s, Block(Low(l), Low(r)), 0, JsXor(l, p[0]), r)
  {
    hide Low, Xor, Feistel;
    LowOfXor(l, p[0]);
    hide JsXor;
  }

  lemma RoundsGoOn(p: JsP, s: JsS, x: Block, i: nat, l: JsWord, r: JsWord)
    requires i < 16 && InRound(p, s, x, i, l, r)
    ensures InRound(p, s, x, i + 1, HalfRound(p, s, l, r, i), l)
  {
    hide Low, Xor, Feistel, HalfRound, Rounds, BoxesOf;
    var b := BoxesOf(p, s);
    HalfRoundIsFeistel(p, s, l, r, i);
    RoundStep(b, Block(Xor(x.l, b.p[0]), x.r), Low(l), Low(r), i);
  }

  lemma RoundsFinish(p: JsP, s: JsS, x: Block, l: JsWord, r: JsWord)
    requires InRound(p, s, x, 16, l, r)
    ensures Encrypt(BoxesOf(p, s), x) == Block(Low(JsXor(r, p[17])), Low(l))
  {
    hide Low, Xor, Rounds;
    LowOfXor(r, p[17]);
    hide JsXor;
  }

  class BCrypt {
    var P: JsP
    var S: JsS
    var offp: nat

    constructor (p: JsP, s: JsS)
      ensures P == p && S == s && offp == 0
    {
      P, S, offp := p, s, 0;
    }

    ghost function Value(): Boxes
      reads this`P, this`S
    {
      BoxesOf(P, S)
    }

    /** encipher: the two numbers at `off` become their encryption. */
    method Encipher(lr: seq<JsWord>, off: nat) returns (r1: seq<JsWord>)
      requires off + 1 < |lr|
      ensures |r1| == |lr| && forall i :: 0 <= i < |lr| && i != off && i != off + 1 ==> r1[i] == lr[i]
      ensures BlockAt(r1, off) == Encrypt(Value(), BlockAt(lr, off))
    {
      hide *;
      var l := lr[off];
      var r := lr[off + 1];
      ghost var x := BlockAt(lr, off);
      assert x == Block(Low(l), Low(r)) by { BlockAtParts(lr, off); }
      RoundsBegin(P, S, l, r);
      l := JsXor(l, P[0]);
      var i := 0;
      while i <= 16 - 2
        invariant 0 <= i <= 16 && i % 2 == 0
        invariant InRound(P, S, x, i, l, r)
        decreases 16 - i
      {
        RoundsGoOn(P, S, x, i, l, r);
        r := HalfRound(P, S, l, r, i);
        i := i + 1;
        RoundsGoOn(P, S, x, i, r, l);
        l := HalfRound(P, S, r, l, i);
        i := i + 1;
      }
      RoundsFinish(P, S, x, l, r);
      r1 := lr[off := JsXor(r, P[17])][off + 1 := l];
      BlockAtParts(r1, off);
      ValueParts();
    }

    lemma ValueParts()
      ensures Value() == BoxesOf(P, S)
    {
    }

    /** streamtoword, called where word `j` of the endless stream starts. */
    method StreamToWord(data: Stream, off0: nat, ghost j: nat) returns (word: JsWord)
      requires off0 == (4 * j) % |data|
      modifies this`offp
      ensures Low(word) == StreamWord(data, j)
      ensures offp == (4 * (j + 1)) % |data|
    {
      hide Append, StreamByte, StreamWord, Low, ToInt32;
      word := 0;
      var off := off0;
      LowOfZero();
      for i := 0 to 4
        invariant Low(word) == Fed(data, 4 * j, i, false)
        invariant off == (4 * j + i) % |data|
      {
        StreamByteAt(data, 4 * j + i);
        LowOfInt32(Append(Low(word), data[off] as Word));
        word := ToInt32(Append(Low(word), data[off] as Word));
        NextPosition(4 * j + i, |data|);
        off := (off + 1) % |data|;
        NextOffset(4 * j + i, |data|);
      }
      FedWordIsStreamWord(data, j);
      offp := off;
    }

    /** The first loop of key and of ekskey: the key stream is mixed into P. */
    method MixIn(key: Stream)
      modifies this`P, this`offp
      ensures Value() == MixKey(old(Value()), StreamWords(key, 18))
    {
      hide Low, Xor, StreamWord, JsXor;
      offp := 0;
      for i := 0 to 18
        invariant offp == (4 * i) % |key|
        invariant forall k :: 0 <= k < i ==> Low(P[k]) == Xor(Low(old(P)[k]), StreamWord(key, k))
        invariant forall k :: i <= k < 18 ==> P[k] == old(P)[k]
      {
        var word := StreamToWord(key, offp, i);
        LowOfXor(P[i], word);
        P := P[i := JsXor(P[i], word)];
      }
    }

    method StoreP(i: nat, lr: seq<JsWord>, ghost k: nat)
      requires |lr| == 2 && k < 9 && i == 2 * k
      modifies this`P
      ensures Value() == Put(old(Value()), k, BlockAt(lr, 0))
    {
      PutP(P, S, k, lr[0], lr[1]);
      BlockAtParts(lr, 0);
      hide BoxesOf, Put, BlockAt;
      P := P[i := lr[0]];
      P := P[i + 1 := lr[1]];
    }

    method StoreS(i: nat, lr: seq<JsWord>, ghost k: nat)
      requires |lr| == 2 && k < 512 && i == 2 * k
      modifies this`S
      ensures Value() == Put(old(Value()), 9 + k, BlockAt(lr, 0))
    {
      PutS(P, S, k, lr[0], lr[1]);
      BlockAtParts(lr, 0);
      hide BoxesOf, Put, BlockAt;
      S := S[i := lr[0]];
      S := S[i + 1 := lr[1]];
    }

    /** key. */
    method Key(key: Stream)
      modifies this
      ensures Value() == Schedule(old(Value()), StreamWords(key, 18))
    {
      hide *;
      MixIn(key);
      ZeroBlock();
      FillEnds(Value(), Block(0, 0));
      var lr := FillPPlain([0, 0]);
      FillRestPlain(lr);
      ScheduleParts(old(Value()), StreamWords(key, 18));
    }

    /** The second loop of key. */
    method FillPPlain(lr0: seq<JsWord>) returns (lr: seq<JsWord>)
      requires |lr0| == 2
      modifies this
      ensures |lr| == 2
      ensures FillFrom(Value(), BlockAt(lr, 0), 9, ZEROS) == FillFrom(old(Value()), BlockAt(lr0, 0), 0, ZEROS)
    {
      hide *;
      lr := lr0;
      var i := 0;
      ghost var k := 0;
      while i < 18
        invariant 0 <= k <= 9 && i == 2 * k && |lr| == 2
        invariant FillFrom(Value(), BlockAt(lr, 0), k, ZEROS)
               == FillFrom(old(Value()), BlockAt(lr0, 0), 0, ZEROS)
      {
        PlainStep(Value(), BlockAt(lr, 0), k);
        lr := Encipher(lr, 0);
        StoreP(i, lr, k);
        i := i + 2;
        k := k + 1;
      }
    }

    /** The last loop of key. */
    method FillRestPlain(lr0: seq<JsWord>)
      requires |lr0| == 2
      modifies this
      ensures Value() == FillFrom(old(Value()), BlockAt(lr0, 0), 9, ZEROS)
    {
      hide *;
      var lr := lr0;
      var i := 0;
      ghost var k := 0;
      while i < 1024
        invariant 0 <= k <= 512 && i == 2 * k && |lr| == 2
        invariant FillFrom(Value(), BlockAt(lr, 0), 9 + k, ZEROS)
               == FillFrom(old(Value()), BlockAt(lr0, 0), 9, ZEROS)
      {
        PlainStep(Value(), BlockAt(lr, 0), 9 + k);
        lr := Encipher(lr, 0);
        StoreS(i, lr, k);
        i := i + 2;
        k := k + 1;
      }
      FillEnds(Value(), BlockAt(lr, 0));
    }

    /** The lines of ekskey that mix two words of the data stream into lr and encrypt it. */
    method MixData(lr: seq<JsWord>, data: Stream, ghost k: nat) returns (r: seq<JsWord>)
      requires |lr| == 2 && offp == Offset(data, k)
      modifies this`offp
      ensures |r| == 2 && offp == Offset(data, k + 1)
      ensures BlockAt(r, 0) == Encrypt(Value(), Mixed(BlockAt(lr, 0), k, data))
    {
      hide Low, Xor, StreamWord, JsXor, Encrypt;
      var w0 := StreamToWord(data, offp, 2 * k);
      var w1 := StreamToWord(data, offp, 2 * k + 1);
      LowOfXor(lr[0], w0);
      LowOfXor(lr[1], w1);
      r := [JsXor(lr[0], w0), JsXor(lr[1], w1)];
      assert BlockAt(r, 0) == Mixed(BlockAt(lr, 0), k, data);
      hide *;
      r := Encipher(r, 0);
    }

    /** ekskey. */
    method EksKey(data: Stream, key: Stream)
      modifies this
      ensures Value() == Fill(MixKey(old(Value()), StreamWords(key, 18)), data)
    {
      hide *;
      MixIn(key);
      ghost var mixed := Value();
      offp := 0;
      ZeroBlock();
      FillEnds(Value(), Block(0, 0), data);
      var lr := FillPSalted([0, 0], data);
      FillRestSalted(lr, data);
    }

    /** The second loop of ekskey. */
    method FillPSalted(lr0: seq<JsWord>, data: Stream) returns (lr: seq<JsWord>)
      requires |lr0| == 2 && offp == 0
      modifies this
      ensures |lr| == 2 && offp == Offset(data, 9)
      ensures FillFrom(Value(), BlockAt(lr, 0), 9, data) == FillFrom(old(Value()), BlockAt(lr0, 0), 0, data)
    {
      hide *;
      StreamBegins(data);
      lr := lr0;
      var i := 0;
      ghost var k := 0;
      while i < 18
        invariant 0 <= k <= 9 && i == 2 * k && |lr| == 2
        invariant offp == Offset(data, k)
        invariant FillFrom(Value(), BlockAt(lr, 0), k, data) == FillFrom(old(Value()), BlockAt(lr0, 0), 0, data)
      {
        FillStep(Value(), BlockAt(lr, 0), k, data);
        lr := MixData(lr, data, k);
        StoreP(i, lr, k);
        i := i + 2;
        k := k + 1;
      }
    }

    /** The last loop of ekskey. */
    method FillRestSalted(lr0: seq<JsWord>, data: Stream)
      requires |lr0| == 2 && offp == Offset(data, 9)
      modifies this
      ensures Value() == FillFrom(old(Value()), BlockAt(lr0, 0), 9, data)
    {
      hide *;
      var lr := lr0;
      var i := 0;
      ghost var k := 0;
      while i < 1024
        invariant 0 <= k <= 512 && i == 2 * k && |lr| == 2
        invariant offp == Offset(data, 9 + k)
        invariant FillFrom(Value(), BlockAt(lr, 0), 9 + k, data)
               == FillFrom(old(Value()), BlockAt(lr0, 0), 9, data)
      {
        FillStep(Value(), BlockAt(lr, 0), 9 + k, data);
        lr := MixData(lr, data, 9 + k);
        StoreS(i, lr, k);
        i := i + 2;
        k := k + 1;
      }
      FillEnds(Value(), BlockAt(lr, 0), data);
    }
  }

  lemma PlainStep(b: Boxes, x: Block, k: nat)
    requires k < 521
    ensures var y := Encrypt(b, x); FillFrom(b, x, k, ZEROS) == FillFrom(Put(b, k, y), y, k + 1, ZEROS)
  {
    hide *;
    FillStep(b, x, k, ZEROS);
    MixedZeros(x, k);
  }

  lemma ScheduleParts(b: Boxes, key: KeyWords)
    ensures Schedule(b, key) == Fill(MixKey(b, key), ZEROS)
  {
    hide Fill, MixKey;
  }

  lemma StreamBegins(data: Stream)
    ensures Offset(data, 0) == 0
  {
  }

  lemma ZeroBlock()
    ensures BlockAt([0, 0], 0) == Block(0, 0)
  {
    LowOfZero();
    hide Low;
  }

  lemma LowOfZero()
    ensures Low(0) == 0
  {
  }

  lemma StreamByteAt(d: Stream, pos: nat)
    ensures StreamByte(d, pos) == d[pos % |d|]
  {
  }

  lemma NextOffset(pos: nat, n: nat)
    requires n > 0
    ensures (pos % n + 1) % n == (pos + 1) % n
  {
    NextPosition(pos, n);
    var r := pos % n;
    if r == n - 1 {
      Quotient(r + 1, n, 1, 0);
    } else {
      Quotient(r + 1, n, 0, r + 1);
    }
  }
}
