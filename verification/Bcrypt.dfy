/** BF_crypt and the salt generator of crypt_blowfish.c as functions of their arguments. */
module Bcrypt {
  import opened Words
  import opened Blowfish
  import opened BcryptCodec
  import opened KeyFeeding

  datatype Errno = ERANGE | EINVAL

  /** A hash or NULL with errno set. */
  datatype CryptResult = Hash(text: seq<Byte>) | Refused(errno: Errno)

  const DOLLAR: Byte := 0x24
  const ZERO: Byte := 0x30

  /** "$2a$nn$" or "$2x$nn$" with nn from 00 to 31. */
  predicate GoodHeader(s: seq<Byte>) {
    && At(s, 0) == DOLLAR && At(s, 1) == 0x32
    && (At(s, 2) == 0x61 || At(s, 2) == 0x78)
    && At(s, 3) == DOLLAR
    && 0x30 <= At(s, 4) <= 0x33
    && 0x30 <= At(s, 5) <= 0x39
    && !(At(s, 4) == 0x33 && At(s, 5) > 0x31)
    && At(s, 6) == DOLLAR
  }

  /** The value of a decimal digit character. */
  function Digit(c: Byte): (v: nat)
    requires 0x30 <= c <= 0x39
    ensures v <= 9
  {
    (c - 0x30) as int
  }

  function Cost(s: seq<Byte>): (n: nat)
    requires GoodHeader(s)
    ensures n <= 31
  {
    Digit(At(s, 4)) * 10 + Digit(At(s, 5))
  }

  /** `(BF_word)1 << n`. */
  function OneShifted(n: nat): (r: nat)
    requires n <= 31
    ensures r >= 1
  {
    ((1 as Word) << n) as int
  }

  function Pow2(n: nat): nat {
    if n == 0 then 1 else 2 * Pow2(n - 1)
  }

  /** Powers turn sums into products, and the first one is 2. */
  lemma PowOfSum(m: nat, n: nat)
    ensures Pow2(m + n) == Pow2(m) * Pow2(n) && Pow2(1) == 2
  {
    if n > 0 {
      PowOfSum(m, n - 1);
      assert Pow2(m + n) == 2 * Pow2(m + (n - 1));
    } else {
      assert Pow2(0) == 1;
    }
  }

  lemma ShiftDoubles(n: nat)
    requires 1 <= n <= 31
    ensures ((1 as Word) << n) as int == 2 * ((1 as Word) << (n - 1)) as int
  {
    if n < 8 {
    } else if n < 16 {
    } else if n < 24 {
    } else {
    }
  }

  /** The rounds of a cost, as the word is shifted, are a power of two. */
  lemma {:induction false} PowIsShift(n: nat)
    requires n <= 31
    ensures OneShifted(n) == ((1 as Word) << n) as int == Pow2(n)
  {
    if n > 0 {
      ShiftDoubles(n);
      PowIsShift(n - 1);
    }
  }

  /** Sixteen rounds or more are a cost of 4 or more. */
  lemma SixteenRounds(n: nat)
    requires n <= 31
    ensures OneShifted(n) >= 16 <==> n >= 4
  {
    if n < 8 {
    } else if n < 16 {
    } else if n < 24 {
    } else {
    }
  }

  /** The bytes of the digest, every word most significant byte first. */
  function DigestBytes(d: seq<Word>): (r: seq<Byte>)
    ensures |r| == 4 * |d|
  {
    if d == [] then [] else [Byte0(d[0]), Byte1(d[0]), Byte2(d[0]), Byte3(d[0])] + DigestBytes(d[1..])
  }

  /** The 22 salt characters as they come back in a hash. */
  function CanonicalSalt(s: seq<Byte>): (r: seq<Byte>)
    requires |s| == 22 && forall i :: 0 <= i < 22 ==> IsAlphabet(s[i])
    ensures |r| == 22 && r == Canonical(s, 16)
  {
    s[..21] + [Itoa64(Atoi64(s[21]) & 0x30)]
  }

  /** What BF_crypt accepts, apart from the size of the output buffer. */
  predicate Accepted(setting: seq<Byte>, min: nat) {
    GoodHeader(setting) && OneShifted(Cost(setting)) >= min && Decode(setting[7..], 16).Some?
  }

  /** The three parts of an accepted setting: the seven header characters, the cost and the salt. */
  lemma SettingParts(setting: seq<Byte>)
    requires GoodHeader(setting) && Decode(setting[7..], 16).Some?
    ensures |setting| >= 29
    ensures forall i :: 7 <= i < 29 ==> IsAlphabet(setting[i])
  {
    hide IsAlphabet, Decode, Digit;
    var s := setting[7..];
    DecodeAccepts(s, 16);
    forall i | 7 <= i < 29
      ensures IsAlphabet(setting[i])
    {
      assert s[i - 7] == setting[i];
    }
  }

  /** The digest of a key under an accepted setting. */
  function DigestFor(initial: Boxes, key: seq<Byte>, setting: seq<Byte>): (d: seq<Word>)
    requires GoodHeader(setting) && Decode(setting[7..], 16).Some?
    ensures |d| == 6
  {
    RawHash(initial, Decode(setting[7..], 16).value, FedKey(KeyStream(key), At(setting, 2) == 0x78),
            OneShifted(Cost(setting)))
  }

  /** Only 23 of the 24 digest bytes are encoded. */
  function EncodedDigest(d: seq<Word>): (r: seq<Byte>)
    requires |d| == 6
    ensures |r| == 31
  {
    Encode(DigestBytes(d)[..23])
  }

  /** Header, canonical salt and encoded digest. */
  function Assembled(setting: seq<Byte>, digest: seq<Byte>): (r: seq<Byte>)
    requires |setting| >= 29 && forall i :: 7 <= i < 29 ==> IsAlphabet(setting[i])
    ensures |r| == 29 + |digest|
  {
    setting[..7] + CanonicalSalt(setting[7..29]) + digest
  }

  /** The text that BF_crypt leaves in the output buffer. */
  function HashText(initial: Boxes, key: seq<Byte>, setting: seq<Byte>): (r: seq<Byte>)
    requires GoodHeader(setting) && Decode(setting[7..], 16).Some?
    ensures |r| == 60
  {
    SettingParts(setting);
    hide *;
    Assembled(setting, EncodedDigest(DigestFor(initial, key, setting)))
  }

  /** BF_crypt. */
  function Crypt(initial: Boxes, key: seq<Byte>, setting: seq<Byte>, size: int, min: nat): CryptResult {
    if size < 7 + 22 + 31 + 1 then Refused(ERANGE)
    else if !Accepted(setting, min) then Refused(EINVAL)
    else Hash(HashText(initial, key, setting))
  }

  /** `'0' + v` for a decimal digit. */
  function DigitChar(v: nat): (c: Byte)
    requires v <= 9
    ensures 0x30 <= c <= 0x39 && Digit(c) == v
  {
    0x30 + v as Byte
  }

  function SaltHeader(count: nat): (r: seq<Byte>)
    requires count <= 99
    ensures |r| == 7
  {
    [DOLLAR, 0x32, 0x61, DOLLAR, DigitChar(count / 10), DigitChar(count % 10), DOLLAR]
  }

  /** _crypt_gensalt_blowfish_rn. */
  function Gensalt(count: nat, input: seq<Byte>, size: int, outputSize: int): CryptResult
    requires size <= |input|
  {
    if size < 16 || outputSize < 7 + 22 + 1 || (count != 0 && (count < 4 || count > 31)) then
      Refused(if outputSize < 7 + 22 + 1 then ERANGE else EINVAL)
    else Hash(SaltHeader(if count == 0 then 5 else count) + Encode(input[..16]))
  }
}
