/** The body of BF_crypt: buffers, the order of the checks, and what is written where. */
module BfCrypt {
  import opened Words
  import opened Blowfish
  import opened BcryptCodec
  import opened BcryptCodecLoops
  import opened KeyFeeding
  import opened Endianness
  import opened Bcrypt
  import opened CryptBlowfish

  /** Word `i` of a buffer of big-endian words. */
  function WordAt(b: seq<Byte>, i: nat): Word
    requires 4 * i + 4 <= |b|
  {
    BigEndian(b[4 * i], b[4 * i + 1], b[4 * i + 2], b[4 * i + 3])
  }

  lemma WordAtIsStreamWord(b: Stream, i: nat)
    requires 4 * i + 4 <= |b|
    ensures WordAt(b, i) == StreamWord(b, i)
  {
    Quotient(4 * i, |b|, 0, 4 * i);
    Quotient(4 * i + 1, |b|, 0, 4 * i + 1);
    Quotient(4 * i + 2, |b|, 0, 4 * i + 2);
    Quotient(4 * i + 3, |b|, 0, 4 * i + 3);
    hide BigEndian;
  }

  /** BF_decode and BF_swap: the salt as four words, on a machine of either endianness. */
  method ReadSalt(setting: seq<Byte>, little: bool) returns (ok: bool, salt: Salt, ghost bytes: Stream)
    requires |setting| >= 7
    ensures ok <==> Decode(setting[7..], 16).Some?
    ensures ok ==> bytes == Decode(setting[7..], 16).value && SaltWords(salt, bytes)
  {
    hide Decode, Swapped, Load, BigEndian, StreamWord;
    var buffer := new Byte[16];
    var rc := BfDecode(buffer, setting, 7, 16);
    bytes := ZEROS;
    salt := [0, 0, 0, 0];
    if rc != 0 {
      return false, salt, bytes;
    }
    ok := true;
    var words := new Word[4](i requires 0 <= i < 4 && buffer.Length == 16 reads buffer =>
      Load(little, buffer[4 * i], buffer[4 * i + 1], buffer[4 * i + 2], buffer[4 * i + 3]));
    ghost var b := buffer[..];
    assert buffer[..16] == b;
    forall i | 0 <= i < 4
      ensures Swapped(little, words[i]) == StreamWord(b, i)
    {
      SwapAfterLoad(little, b[4 * i], b[4 * i + 1], b[4 * i + 2], b[4 * i + 3]);
      WordAtIsStreamWord(b, i);
    }
    BfSwap(words, 4, little);
    bytes := b;
    salt := words[..];
  }

  /** An array of words seen as the bytes of the machine's memory. */
  function MemoryBytes(little: bool, ws: seq<Word>): (r: seq<Byte>)
    ensures |r| == 4 * |ws|
  {
    if ws == [] then [] else Stored(little, ws[0]) + MemoryBytes(little, ws[1..])
  }

  lemma {:induction false} SwappedMemoryIsDigestBytes(little: bool, ws: seq<Word>, d: seq<Word>)
    requires |ws| == |d| && forall i :: 0 <= i < |d| ==> ws[i] == Swapped(little, d[i])
    ensures MemoryBytes(little, ws) == DigestBytes(d)
  {
    hide Swapped, Stored, Byte0, Byte1, Byte2, Byte3;
    if d != [] {
      StoreAfterSwap(little, d[0]);
      SwappedMemoryIsDigestBytes(little, ws[1..], d[1..]);
    }
  }

  /** The last loop of BF_crypt and BF_swap: the encrypted magic text as bytes. */
  method FinalBytes(ctx: Context, little: bool) returns (r: seq<Byte>)
    requires ctx.Valid()
    ensures r == DigestBytes(Digest(ctx.Value()))
  {
    hide Swapped, MagicBlock, MemoryBytes, DigestBytes, Digest;
    var output := new Word[6];
    ghost var d, j := Digest(ctx.Value()), 0;
    var i := 0;
    while i < 6
      invariant 0 <= j <= 3 && i == 2 * j
      invariant forall k :: 0 <= k < i ==> output[k] == d[k]
    {
      DigestBlocks(ctx.Value(), j);
      var L, R := ctx.EncryptMagic(i, j);
      output[i] := L;
      output[i + 1] := R;
      i := i + 2;
      j := j + 1;
    }
    BfSwap(output, 6, little);
    SwappedMemoryIsDigestBytes(little, output[..], d);
    r := MemoryBytes(little, output[..]);
  }

  /** The checks of the first seven characters, and `(BF_word)1 << cost`. */
  method ReadHeader(setting: seq<Byte>) returns (ok: bool, count: nat)
    ensures ok <==> GoodHeader(setting)
    ensures ok ==> |setting| >= 7 && count == OneShifted(Cost(setting)) && count >= 1
  {
    hide OneShifted;
    if At(setting, 0) != 0x24 || At(setting, 1) != 0x32
       || (At(setting, 2) != 0x61 && At(setting, 2) != 0x78)
       || At(setting, 3) != 0x24
       || At(setting, 4) < 0x30 || At(setting, 4) > 0x33
       || At(setting, 5) < 0x30 || At(setting, 5) > 0x39
       || (At(setting, 4) == 0x33 && At(setting, 5) > 0x31)
       || At(setting, 6) != 0x24 {
      return false, 0;
    }
    GoodHeaderLength(setting);
    count := OneShifted(Digit(At(setting, 4)) * 10 + Digit(At(setting, 5)));
    return true, count;
  }

  /** The checks, the schedules, the rounds and the final encryptions: the digest bytes or a refusal. */
  method Compute(initial: Boxes, key: seq<Byte>, setting: seq<Byte>, min: nat, little: bool)
    returns (ok: bool, digest: seq<Byte>, ghost cost: nat, ghost rounds: nat)
    ensures cost <= 31 && rounds == ((1 as Word) << cost) as int
    ensures ok <==> Accepted(setting, min)
    ensures ok ==> digest == DigestBytes(DigestFor(initial, key, setting))
    ensures ok ==> cost == Cost(setting) && rounds >= min
    ensures ok ==> digest == DigestBytes(RawHash(initial, Decode(setting[7..], 16).value,
                                                 FedKey(KeyStream(key), At(setting, 2) == 0x78), rounds))
  {
    hide Pow2, OneShifted, GoodHeader, Decode, Cost, At, RawHash, FedKey, KeyStream;
    digest, cost, rounds := [], 0, 1;
    PowIsShift(0);
    var count;
    ok, count := ReadHeader(setting);
    if !ok || count < min {
      return false, digest, cost, rounds;
    }
    cost, rounds := Cost(setting), count;
    PowIsShift(cost);
    var decoded, salt;
    ghost var bytes;
    decoded, salt, bytes := ReadSalt(setting, little);
    if !decoded {
      return false, digest, cost, rounds;
    }
    ok := true;
    digest := Hashed(initial, key, At(setting, 2) == 0x78, salt, count, little, bytes);
    hide *;
    DigestForParts(initial, key, setting);
  }

  /** The digest of a setting whose cost is `n`: 1 << n rounds with the salt, from the key as its letter says. */
  lemma DigestRounds(initial: Boxes, key: seq<Byte>, setting: seq<Byte>, n: nat, salt: Stream, count: nat)
    requires n <= 31 && |setting| >= 7 && count == ((1 as Word) << n) as int
    requires GoodHeader(setting) && Decode(setting[7..], 16) == Some(salt) && n == Cost(setting)
    ensures DigestFor(initial, key, setting)
         == RawHash(initial, salt, FedKey(KeyStream(key), setting[2] == 0x78), count)
  {
    DigestForParts(initial, key, setting);
    PowIsShift(n);
    hide DigestFor, GoodHeader, Decode, RawHash, FedKey, KeyStream, Cost, OneShifted, Pow2;
  }

  lemma GoodHeaderLength(s: seq<Byte>)
    requires GoodHeader(s)
    ensures |s| >= 7
  {
  }

  lemma DigestForParts(initial: Boxes, key: seq<Byte>, setting: seq<Byte>)
    requires GoodHeader(setting) && Decode(setting[7..], 16).Some?
    ensures DigestFor(initial, key, setting)
         == RawHash(initial, Decode(setting[7..], 16).value, FedKey(KeyStream(key), At(setting, 2) == 0x78),
                    OneShifted(Cost(setting)))
  {
  }

  method Hashed(initial: Boxes, key: seq<Byte>, signed: bool, salt: Salt, count: nat, little: bool, ghost bytes: Stream)
    returns (digest: seq<Byte>)
    requires count >= 1 && SaltWords(salt, bytes)
    ensures digest == DigestBytes(RawHash(initial, bytes, FedKey(KeyStream(key), signed), count))
  {
    hide *;
    var ctx := new Context();
    var expanded := new Word[18];
    SetKey(key, expanded, ctx.P, initial, signed);
    ctx.LoadS(initial);
    KeyedContext(ctx, initial, expanded[..]);
    RawHashParts(initial, bytes, expanded[..], count);
    ctx.SaltedSchedule(salt, bytes);
    ctx.ExpensiveRounds(expanded[..], salt, count, bytes);
    digest := FinalBytes(ctx, little);
  }

  lemma KeyedContext(ctx: Context, initial: Boxes, key: KeyWords)
    requires ctx.Valid() && ctx.P[..] == MixKey(initial, key).p && ctx.S[..] == initial.s
    ensures ctx.Value() == MixKey(initial, key)
  {
    hide Xor;
  }

  lemma RawHashParts(initial: Boxes, salt: Stream, key: KeyWords, count: nat)
    ensures RawHash(initial, salt, key, count)
         == Digest(KeySaltRounds(Fill(MixKey(initial, key), salt), salt, key, count))
  {
    hide Digest, KeySaltRounds, Fill, MixKey;
  }

  /** memcpy of the setting and its masked last salt character. */
  method HeadInto(setting: seq<Byte>, output: array<Byte>)
    requires |setting| >= 29 && output.Length >= 61
    modifies output
    ensures output[..29] == setting[..28] + [Itoa64(Atoi64(setting[28]) & 0x30)]
    ensures output[60..] == old(output[60..])
  {
    hide Itoa64, Atoi64;
    forall i | 0 <= i < 28 {
      output[i] := setting[i];
    }
    output[28] := Itoa64(Atoi64(setting[28]) & 0x30);
  }

  /** BF_crypt: a refusal touches nothing; otherwise the first 61 characters of the buffer are the hash and its NUL. */
  method CryptInto(initial: Boxes, key: seq<Byte>, setting: seq<Byte>, output: array<Byte>, size: int, min: nat,
                   little: bool)
    returns (r: CryptResult)
    requires size <= output.Length
    modifies output
    ensures r == Crypt(initial, key, setting, size, min)
    ensures r == Refused(ERANGE) <==> size < 61
    ensures r == Refused(EINVAL) <==> size >= 61 && !Accepted(setting, min)
    ensures r.Hash? ==> |setting| >= 29 && |r.text| == 60 && r.text[..28] == setting[..28]
    ensures r.Refused? ==> output[..] == old(output[..])
    ensures r.Hash? ==> output.Length >= 61 && output[..61] == r.text + [0] && output[61..] == old(output[61..])
  {
    hide DigestFor, DigestBytes, Assembled, Encode, Itoa64, Atoi64, IsAlphabet, GoodHeader, Decode, Cost, OneShifted;
    hide RawHash, FedKey, KeyStream, At;
    if size < 7 + 22 + 31 + 1 {
      return Refused(ERANGE);
    }
    var ok, digest, _, _ := Compute(initial, key, setting, min, little);
    if !ok {
      return Refused(EINVAL);
    }
    SettingParts(setting);
    AssembledParts(setting, Encode(digest[..23]));
    HeadInto(setting, output);
    ghost var head, tail := output[..29], output[60..];
    BfEncode(output, 29, digest[..23]);
    assert output[60..] == tail;
    output[60] := 0;
    assert output[61..] == tail[1..];
    assert output[..61] == head + Encode(digest[..23]) + [0];
    r := Hash(output[..60]);
  }

  lemma AssembledParts(setting: seq<Byte>, digest: seq<Byte>)
    requires |setting| >= 29 && forall i :: 7 <= i < 29 ==> IsAlphabet(setting[i])
    ensures Assembled(setting, digest) == setting[..28] + [Itoa64(Atoi64(setting[28]) & 0x30)] + digest
  {
    hide Itoa64, Atoi64, IsAlphabet;
    assert setting[7..29][..21] == setting[7..28];
    assert setting[..28] == setting[..7] + setting[7..28];
  }

  /** The first seven characters of a salt. */
  method HeaderInto(count: nat, output: array<Byte>)
    requires count <= 99 && output.Length >= 29
    modifies output
    ensures output[..7] == SaltHeader(count) && output[29..] == old(output[29..])
  {
    hide DigitChar;
    output[0] := 0x24;
    output[1] := 0x32;
    output[2] := 0x61;
    output[3] := 0x24;
    output[4] := DigitChar(count / 10);
    output[5] := DigitChar(count % 10);
    output[6] := 0x24;
  }

  /** _crypt_gensalt_blowfish_rn; an unusable request leaves an empty string where there is room for one. */
  method GensaltInto(count0: nat, input: seq<Byte>, size: int, output: array<Byte>, outputSize: int)
    returns (r: CryptResult)
    requires outputSize <= output.Length && size <= |input|
    modifies output
    ensures r == Gensalt(count0, input, size, outputSize)
    ensures r.Hash? <==> size >= 16 && outputSize >= 30 && (count0 == 0 || 4 <= count0 <= 31)
    ensures r == Refused(ERANGE) <==> outputSize < 30
    ensures r.Hash? ==> |r.text| == 29 && r.text[..4] == [0x24, 0x32, 0x61, 0x24]
    ensures r.Hash? ==> output[..30] == r.text + [0] && output[30..] == old(output[30..])
    ensures r.Refused? ==>
              if outputSize > 0 then output[..] == [0] + old(output[1..]) else output[..] == old(output[..])
  {
    hide Encode, DigitChar;
    if size < 16 || outputSize < 7 + 22 + 1 || (count0 != 0 && (count0 < 4 || count0 > 31)) {
      if outputSize > 0 {
        output[0] := 0;
      }
      return Refused(if outputSize < 7 + 22 + 1 then ERANGE else EINVAL);
    }
    var count := if count0 == 0 then 5 else count0;
    HeaderInto(count, output);
    ghost var head, tail := output[..7], output[29..];
    assert tail == old(output[29..]);
    BfEncode(output, 7, input[..16]);
    assert output[29..] == tail;
    output[29] := 0;
    assert output[30..] == tail[1..];
    assert output[..30] == head + Encode(input[..16]) + [0];
    r := Hash(output[..29]);
  }
}
