/** The browser's hashpw and the server's BF_crypt give the same string. */
module BcryptAgreement {
  import opened Words
  import opened Blowfish
  import opened BcryptCodec
  import opened KeyFeeding
  import opened Bcrypt
  import opened BcryptProperties
  import opened BcryptJsRun
  import opened BcryptJsText
  import opened BcryptJsHash

  /** The settings that both sides take: "$2a$", a cost from 04 to 31, and 22 characters of salt. */
  predicate CommonSetting(setting: seq<Byte>) {
    Accepted(setting, 16) && At(setting, 2) == 0x61
  }

  /** The signed `1 << cost` is the unsigned one of BF_crypt except at cost 31, where it is negative. */
  lemma RoundsAgree(cost: nat)
    requires 4 <= cost <= 31
    ensures OneShifted(cost) == ((1 as Word) << cost) as int
    ensures RoundsRun(Some(cost)) == ((1 as Word) << cost) as int <==> cost != 31
    ensures cost == 31 ==> RoundsRun(Some(cost)) == 0
  {
  }

  /** At cost 31 the browser runs no rounds at all: its digest is that of the salted schedule alone. */
  lemma NoRoundsAtCost31(initial: Boxes, salt: Stream, key: KeyWords)
    ensures RawHash(initial, salt, key, RoundsRun(Some(31))) == Digest(SaltedSchedule(initial, salt, key))
  {
    RoundsAgree(31);
    KeySaltRoundsEnd(SaltedSchedule(initial, salt, key), salt, key);
    hide Digest, SaltedSchedule, KeySaltRounds, RoundsRun;
  }

  /** The header as JavaScript reads it. */
  lemma HeaderRead(setting: seq<Byte>)
    requires GoodHeader(setting) && At(setting, 2) == 0x61
    ensures var u := Widen(setting);
            CharIs(u, 0, 0x24) && CharIs(u, 1, 0x32) && !CharIs(u, 2, 0x24) && CharIs(u, 2, 0x61) && CharIs(u, 3, 0x24)
            && |u| > 6 && u[6] == 0x24 && RoundsAt(u, 4) == Some(Cost(setting))
  {
    var u := Widen(setting);
    assert u[0] == 0x24 && u[1] == 0x32 && u[2] == 0x61 && u[3] == 0x24 && u[6] == 0x24;
    DigitRead(setting, 4);
    DigitRead(setting, 5);
  }

  lemma DigitRead(s: seq<Byte>, i: nat)
    requires i < |s| && 0x30 <= s[i] <= 0x39
    ensures DigitAt(Widen(s), i) == Some(Digit(s[i]))
  {
    WidenedDigit(s[i]);
    hide UnitOf;
  }

  lemma WidenedDigit(b: Byte)
    requires 0x30 <= b <= 0x39
    ensures 0x30 <= UnitOf(b) <= 0x39 && (UnitOf(b) - 0x30) as int == (b - 0x30) as int
  {
  }

  lemma CostBound(setting: seq<Byte>)
    requires GoodHeader(setting)
    ensures Cost(setting) <= 31
  {
    DigitBounds(At(setting, 4));
    DigitBounds(At(setting, 5));
    hide Digit;
  }

  lemma DigitBounds(c: Byte)
    requires 0x30 <= c <= 0x39
    ensures c <= 0x33 ==> Digit(c) <= 3
    ensures c == 0x33 ==> Digit(c) == 3
    ensures c <= 0x32 ==> Digit(c) <= 2
    ensures c <= 0x31 ==> Digit(c) <= 1
  {
  }

  lemma CostWritten(setting: seq<Byte>)
    requires GoodHeader(setting) && Cost(setting) <= 31
    ensures RoundsText(Some(Cost(setting))) == Widen([At(setting, 4), At(setting, 5)])
  {
    DigitsOfCost(At(setting, 4), At(setting, 5));
    hide Digit, DigitChar, Widen;
  }

  lemma DigitsOfCost(a: Byte, b: Byte)
    requires 0x30 <= a <= 0x39 && 0x30 <= b <= 0x39
    ensures DigitChar((Digit(a) * 10 + Digit(b)) / 10) == a && DigitChar((Digit(a) * 10 + Digit(b)) % 10) == b
  {
  }

  /** The header as JavaScript writes it again. */
  lemma HeaderWritten(setting: seq<Byte>)
    requires GoodHeader(setting) && At(setting, 2) == 0x61 && Cost(setting) <= 31
    ensures [0x24, 0x32] + [0x61] + [0x24] + RoundsText(Some(Cost(setting))) + [0x24] == Widen(setting[..7])
  {
    CostWritten(setting);
    var u, v := Widen(setting[..7]), Widen([At(setting, 4), At(setting, 5)]);
    assert u[0] == 0x24 && u[1] == 0x32 && u[2] == 0x61 && u[3] == 0x24 && u[6] == 0x24;
    assert u[4] == v[0] && u[5] == v[1];
    hide *;
  }

  /** The salt that both sides decode. */
  lemma SaltRead(setting: seq<Byte>)
    requires CommonSetting(setting)
    ensures |setting| >= 29
    ensures JsDecode(Substring(Widen(setting), 7, 29), 16) == Decode(setting[7..], 16).value
  {
    hide *;
    CommonParts(setting);
    SettingParts(setting);
    SaltDecodesAlone(setting);
    JsDecodeLikeC(setting[7..29], 16);
    SubstringWidened(setting);
  }

  lemma CommonParts(setting: seq<Byte>)
    requires CommonSetting(setting)
    ensures GoodHeader(setting) && Decode(setting[7..], 16).Some?
  {
    hide GoodHeader, Decode, Cost, OneShifted;
  }

  lemma SubstringWidened(setting: seq<Byte>)
    requires |setting| >= 29
    ensures Substring(Widen(setting), 7, 29) == Widen(setting[7..29])
  {
    hide UnitOf;
  }

  /** The 22 characters of the salt decode alike whether anything follows them or not. */
  lemma SaltDecodesAlone(setting: seq<Byte>)
    requires |setting| >= 29 && forall i :: 7 <= i < 29 ==> IsAlphabet(setting[i])
    requires GoodHeader(setting) && Decode(setting[7..], 16).Some?
    ensures Decode(setting[7..29], 16) == Decode(setting[7..], 16)
  {
    var salt := setting[7..29];
    assert EncodedLength(16) == 22;
    assert CanonicalSalt(salt) == Canonical(salt, 16);
    hide *;
    assert salt[..22] == salt;
    DecodeAccepts(salt, 16);
    EncodeDecode(salt, 16);
    CanonicalSaltIsEncoding(setting);
    EncodeInjective(Decode(salt, 16).value, Decode(setting[7..], 16).value);
  }

  /** A password without NULs is read as its bytes and one NUL on both sides. */
  lemma PasswordRead(password: seq<Byte>)
    requires 0 !in password
    ensures StreamOf(PasswordBytes(Widen(password), true)) == KeyStream(password)
  {
    CStringOfNulFree(password);
    hide GetByte, UnitOf;
    forall i | 0 <= i < |password|
      ensures GetByte(Widen(password)[i]) == password[i]
    {
      GetByteOfByte(password[i]);
    }
  }

  /** The digests agree exactly because the rounds do. */
  lemma DigestsAgree(initial: Boxes, password: seq<Byte>, setting: seq<Byte>)
    requires CommonSetting(setting) && Cost(setting) != 31 && 0 !in password
    ensures 4 <= Cost(setting) <= 31
    ensures RawHash(initial, Decode(setting[7..], 16).value,
                    StreamWords(StreamOf(PasswordBytes(Widen(password), true)), 18), RoundsRun(Some(Cost(setting))))
         == DigestFor(initial, password, setting)
  {
    CostBound(setting);
    SixteenRounds(Cost(setting));
    RoundsAgree(Cost(setting));
    PasswordRead(password);
    FedKeyIsStream(KeyStream(password));
    hide RawHash, GoodHeader, Cost, Decode, OneShifted, RoundsRun;
    hide StreamWords, FedKey, KeyStream, PasswordBytes, Widen, StreamOf;
  }

  /**
   * For every password without NUL, every setting that both take and every cost below 31, hashpw hands to its
   * callback the text that BF_crypt writes, whatever the initial boxes are.
   */
  lemma HashPwIsBfCrypt(initial: Boxes, password: seq<Byte>, setting: seq<Byte>, size: int)
    requires CommonSetting(setting) && Cost(setting) != 31 && 0 !in password && size >= 61
    ensures Crypt(initial, password, setting, size, 16).Hash?
    ensures HashPw(initial, Widen(password), Widen(setting))
         == Called(Widen(Crypt(initial, password, setting, size, 16).text))
  {
    var salt := Decode(setting[7..], 16).value;
    CryptUnfolded(initial, password, setting, size);
    CostRange(setting);
    hide *;
    HeaderRead(setting);
    SaltRead(setting);
    HashPwUnfolded(initial, Widen(password), Widen(setting), Cost(setting), salt);
    TextsAgree(initial, password, setting);
  }

  lemma CostRange(setting: seq<Byte>)
    requires CommonSetting(setting)
    ensures GoodHeader(setting) && Decode(setting[7..], 16).Some? && At(setting, 2) == 0x61
    ensures 4 <= Cost(setting) <= 31
  {
    CostBound(setting);
    SixteenRounds(Cost(setting));
    hide GoodHeader, Cost, Decode, OneShifted;
  }

  lemma CryptUnfolded(initial: Boxes, password: seq<Byte>, setting: seq<Byte>, size: int)
    requires CommonSetting(setting) && size >= 61
    ensures GoodHeader(setting) && Decode(setting[7..], 16).Some?
    ensures Crypt(initial, password, setting, size, 16) == Hash(HashText(initial, password, setting))
  {
    hide HashText, GoodHeader, Cost, Decode, OneShifted;
  }

  lemma HashTextUnfolded(initial: Boxes, password: seq<Byte>, setting: seq<Byte>)
    requires GoodHeader(setting) && Decode(setting[7..], 16).Some?
    requires |setting| >= 29 && forall i :: 7 <= i < 29 ==> IsAlphabet(setting[i])
    ensures HashText(initial, password, setting)
         == Assembled(setting, EncodedDigest(DigestFor(initial, password, setting)))
  {
    hide GoodHeader, Decode, Assembled, EncodedDigest, DigestFor, IsAlphabet;
  }

  lemma TextsAgree(initial: Boxes, password: seq<Byte>, setting: seq<Byte>)
    requires CommonSetting(setting) && Cost(setting) != 31 && 0 !in password
    ensures 4 <= Cost(setting) <= 31
    ensures Text(initial, PasswordBytes(Widen(password), true), Decode(setting[7..], 16).value, Some(Cost(setting)),
                 true)
         == Widen(HashText(initial, password, setting))
  {
    CostRange(setting);
    hide *;
    CanonicalSaltIsEncoding(setting);
    TextIsJoined(initial, PasswordBytes(Widen(password), true), Decode(setting[7..], 16).value, Cost(setting));
    DigestsAgree(initial, password, setting);
    JoinedIsHashText(initial, password, setting, Decode(setting[7..], 16).value);
  }

  lemma JoinedIsHashText(initial: Boxes, password: seq<Byte>, setting: seq<Byte>, salt: Stream)
    requires GoodHeader(setting) && Decode(setting[7..], 16) == Some(salt)
    requires At(setting, 2) == 0x61 && Cost(setting) <= 31
    ensures Joined(Some(Cost(setting)), true, Widen(Encode(salt)),
                   Widen(EncodedDigest(DigestFor(initial, password, setting))))
         == Widen(HashText(initial, password, setting))
  {
    hide *;
    CanonicalSaltIsEncoding(setting);
    HashTextUnfolded(initial, password, setting);
    JoinedIsAssembled(setting, EncodedDigest(DigestFor(initial, password, setting)));
  }

  lemma JoinedIsAssembled(setting: seq<Byte>, digest: seq<Byte>)
    requires GoodHeader(setting) && At(setting, 2) == 0x61 && Cost(setting) <= 31
    requires |setting| >= 29 && forall i :: 7 <= i < 29 ==> IsAlphabet(setting[i])
    ensures Joined(Some(Cost(setting)), true, Widen(CanonicalSalt(setting[7..29])), Widen(digest))
         == Widen(Assembled(setting, digest))
  {
    hide *;
    JoinedHeader(setting, Widen(CanonicalSalt(setting[7..29])), Widen(digest));
    HashTextWidened(setting, digest);
  }

  lemma TextIsJoined(initial: Boxes, password: seq<Byte>, salt: Stream, cost: nat)
    requires cost <= 31
    ensures var digest := RawHash(initial, salt, StreamWords(StreamOf(password), 18), RoundsRun(Some(cost)));
            Text(initial, password, salt, Some(cost), true)
            == Joined(Some(cost), true, Widen(Encode(salt)), Widen(EncodedDigest(digest)))
  {
    hide Joined, RawHash, StreamWords, StreamOf, RoundsRun, Encode, Widen, EncodedDigest;
  }

  lemma JoinedHeader(setting: seq<Byte>, salt64: JsString, hash64: JsString)
    requires GoodHeader(setting) && At(setting, 2) == 0x61 && Cost(setting) <= 31
    ensures Joined(Some(Cost(setting)), true, salt64, hash64) == Widen(setting[..7]) + salt64 + hash64
  {
    HeaderWritten(setting);
    hide RoundsText, Widen, GoodHeader, Cost, At;
  }

  lemma HashPwUnfolded(initial: Boxes, password: JsString, u: JsString, cost: nat, salt: seq<Byte>)
    requires CharIs(u, 0, 0x24) && CharIs(u, 1, 0x32) && !CharIs(u, 2, 0x24) && CharIs(u, 2, 0x61) && CharIs(u, 3, 0x24)
    requires |u| > 6 && u[6] == 0x24 && RoundsAt(u, 4) == Some(cost) && 4 <= cost <= 31
    requires JsDecode(Substring(u, 7, 29), 16) == salt && |salt| == 16
    ensures HashPw(initial, password, u) == Called(Text(initial, PasswordBytes(password, true), salt, Some(cost), true))
  {
    hide RoundsAt, JsDecode, Substring, Text, PasswordBytes;
  }

  lemma HashTextWidened(setting: seq<Byte>, digest: seq<Byte>)
    requires |setting| >= 29 && forall i :: 7 <= i < 29 ==> IsAlphabet(setting[i])
    ensures Widen(Assembled(setting, digest))
         == Widen(setting[..7]) + Widen(CanonicalSalt(setting[7..29])) + Widen(digest)
  {
    hide IsAlphabet, CanonicalSalt, Widen;
    WidenAppend(setting[..7] + CanonicalSalt(setting[7..29]), digest);
    WidenAppend(setting[..7], CanonicalSalt(setting[7..29]));
  }
}
