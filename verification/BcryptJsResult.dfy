/** What hashpw hands to its callback, and what the NUL of minor revision "a" is for. */
module BcryptJsResult {
  import opened Words
  import opened Blowfish
  import opened BcryptCodec
  import opened KeyFeeding
  import opened Bcrypt
  import opened BcryptJsText
  import opened BcryptJsHash

  lemma RemainderByHalf(i: nat, n: nat)
    requires n > 0
    ensures i % n == if i % (2 * n) < n then i % (2 * n) else i % (2 * n) - n
  {
    HalfQuotient(i, n, i / (2 * n), i % (2 * n));
  }

  lemma HalfQuotient(i: nat, n: nat, q: nat, r: nat)
    requires r < 2 * n && i == 2 * n * q + r
    ensures i % n == if r < n then r else r - n
  {
    if r < n {
      Quotient(i, n, 2 * q, r);
    } else {
      Quotient(i, n, 2 * q + 1, r - n);
    }
  }

  /** Position `i` of the endless repetition is the same for a list and for the list twice. */
  lemma TwiceTheSame(d: Stream, i: nat)
    ensures StreamByte(d + d, i) == StreamByte(d, i)
  {
    RemainderByHalf(i, |d|);
    assert |d + d| == 2 * |d|;
  }

  lemma StreamTwice(d: Stream, n: nat)
    ensures StreamWords(d + d, n) == StreamWords(d, n)
  {
    hide BigEndian, StreamByte;
    forall j | 0 <= j < n
      ensures StreamWord(d + d, j) == StreamWord(d, j)
    {
      TwiceTheSame(d, 4 * j);
      TwiceTheSame(d, 4 * j + 1);
      TwiceTheSame(d, 4 * j + 2);
      TwiceTheSame(d, 4 * j + 3);
    }
  }

  lemma PlainPasswordTwice(password: JsString)
    ensures StreamWords(StreamOf(PasswordBytes(password + password, false)), 18)
         == StreamWords(StreamOf(PasswordBytes(password, false)), 18)
  {
    var b := PasswordBytes(password, false);
    assert PasswordBytes(password + password, false) == b + b;
    hide PasswordBytes, StreamWord;
    if b != [] {
      StreamTwice(b, 18);
    }
  }

  /** Under a "$2$" setting a password and its repetition hash alike; this is what the NUL prevents under "$2a$". */
  lemma RepeatedPasswordsAlike(initial: Boxes, password: JsString, salt: JsString)
    requires |salt| >= 3 && salt[2] == 0x24
    ensures HashPw(initial, password + password, salt) == HashPw(initial, password, salt)
  {
    PlainPasswordTwice(password);
    hide RoundsAt, JsDecode, Substring, StreamWords, StreamOf, PasswordBytes, RawHash, EncodedDigest, Joined, Encode;
  }

  lemma DigitBack(c: CodeUnit, n: nat)
    requires 0x30 <= c <= 0x39 && n == (c - 0x30) as int
    ensures n <= 9 && UnitOf(DigitChar(n)) == c
  {
    DigitUnit(c);
    if n == 0 {
    } else if n == 1 {
    } else if n == 2 {
    } else if n == 3 {
    } else if n == 4 {
    } else if n == 5 {
    } else if n == 6 {
    } else if n == 7 {
    } else if n == 8 {
    } else {
      assert n == 9;
    }
  }

  /** The two characters of the setting, or NaN where they are no digits. */
  function RoundsOf(salt: JsString, off: nat): JsString {
    if |salt| > off + 1 && 0x30 <= salt[off] <= 0x39 && 0x30 <= salt[off + 1] <= 0x39 then [salt[off], salt[off + 1]]
    else [0x4e, 0x61, 0x4e]
  }

  lemma TwoDigits(r1: nat, r2: nat, n: nat)
    requires r1 <= 9 && r2 <= 9 && n == r1 * 10 + r2 <= 31
    ensures RoundsText(Some(n)) == [UnitOf(DigitChar(r1)), UnitOf(DigitChar(r2))]
  {
    assert n / 10 == r1 && n % 10 == r2;
    hide DigitChar, UnitOf;
  }

  lemma RoundsWritten(salt: JsString, off: nat)
    requires RoundsAt(salt, off).Some? ==> RoundsAt(salt, off).value <= 31
    ensures RoundsText(RoundsAt(salt, off)) == RoundsOf(salt, off)
  {
    hide DigitChar, UnitOf;
    if RoundsAt(salt, off).Some? {
      var r1, r2 := (salt[off] - 0x30) as int, (salt[off + 1] - 0x30) as int;
      DigitBack(salt[off], r1);
      DigitBack(salt[off + 1], r2);
      TwoDigits(r1, r2, r1 * 10 + r2);
      hide RoundsText;
    }
  }

  /** The salt characters that hashpw takes behind position `off`, decoded. */
  function SaltAt(salt: JsString, off: nat): seq<Byte> {
    JsDecode(Substring(salt, off + 3, off + 25), 16)
  }

  lemma FromText(initial: Boxes, password: JsString, salt: JsString, off: nat, revisionA: bool)
    requires HashPwFrom(initial, password, salt, off, revisionA).Called?
    ensures |SaltAt(salt, off)| == 16 && (RoundsAt(salt, off).Some? ==> RoundsAt(salt, off).value <= 31)
    ensures HashPwFrom(initial, password, salt, off, revisionA)
         == Called(Text(initial, PasswordBytes(password, revisionA), SaltAt(salt, off), RoundsAt(salt, off), revisionA))
  {
    hide JsDecode, Substring, RoundsAt, Text, PasswordBytes;
  }

  lemma JoinedParts(rounds: Option<nat>, revisionA: bool, salt64: JsString, hash64: JsString)
    requires rounds.Some? ==> rounds.value <= 31
    ensures Joined(rounds, revisionA, salt64, hash64)
         == [0x24, 0x32] + (if revisionA then [0x61] else []) + [0x24] + RoundsText(rounds) + [0x24] + salt64 + hash64
  {
    hide RoundsText;
  }

  lemma FromRepeats(initial: Boxes, password: JsString, salt: JsString, off: nat, revisionA: bool)
    returns (hash64: JsString)
    requires HashPwFrom(initial, password, salt, off, revisionA).Called?
    ensures |hash64| == 31 && |Encode(SaltAt(salt, off))| == 22
    ensures HashPwFrom(initial, password, salt, off, revisionA)
         == Called([0x24, 0x32] + (if revisionA then [0x61] else []) + [0x24] + RoundsOf(salt, off) + [0x24]
                   + Widen(Encode(SaltAt(salt, off))) + hash64)
  {
    assert EncodedLength(16) == 22;
    hide *;
    FromText(initial, password, salt, off, revisionA);
    RoundsWritten(salt, off);
    var bytes, rounds := PasswordBytes(password, revisionA), RoundsAt(salt, off);
    TextParts(initial, bytes, SaltAt(salt, off), rounds, revisionA);
    var digest := RawHash(initial, SaltAt(salt, off), StreamWords(StreamOf(bytes), 18), RoundsRun(rounds));
    hash64 := Widen(Encode(DigestBytes(digest)[..23]));
    assert |hash64| == 31 by { DigestLength(digest); }
    JoinedParts(rounds, revisionA, Widen(Encode(SaltAt(salt, off))), hash64);
  }

  lemma DigestLength(digest: seq<Word>)
    requires |digest| == 6
    ensures |Encode(DigestBytes(digest)[..23])| == 31
  {
    assert EncodedLength(23) == 31;
    hide Encode, DigestBytes;
  }

  lemma HashPwIsFrom(initial: Boxes, password: JsString, salt: JsString)
    requires HashPw(initial, password, salt).Called?
    ensures var off := if CharIs(salt, 2, 0x24) then 3 else 4;
            && HashPw(initial, password, salt) == HashPwFrom(initial, password, salt, off, off == 4)
            && |salt| >= off && salt[..off] == [0x24, 0x32] + (if off == 4 then [0x61] else []) + [0x24]
  {
    hide HashPwFrom;
  }

  /** The text that the callback gets repeats the version and the two digits of the setting, or says NaN where they are
      no digits; then follow '$', the sixteen bytes of salt in 22 characters, and 31 characters of digest. */
  lemma ResultRepeatsSetting(initial: Boxes, password: JsString, salt: JsString) returns (hash64: JsString)
    requires HashPw(initial, password, salt).Called?
    ensures var off := if CharIs(salt, 2, 0x24) then 3 else 4;
            && |salt| >= off && |hash64| == 31 && |Encode(SaltAt(salt, off))| == 22
            && HashPw(initial, password, salt)
               == Called(salt[..off] + RoundsOf(salt, off) + [0x24] + Widen(Encode(SaltAt(salt, off))) + hash64)
  {
    var off := if CharIs(salt, 2, 0x24) then 3 else 4;
    HashPwIsFrom(initial, password, salt);
    hide *;
    hash64 := FromRepeats(initial, password, salt, off, off == 4);
  }
}
