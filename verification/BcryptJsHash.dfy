/** hashpw of bCrypt.js, from the strings that come in to the string that its callback gets. */
module BcryptJsHash {
  import opened Words
  import opened Blowfish
  import opened BcryptCodec
  import opened BcryptJs
  import opened Bcrypt
  import opened BcryptJsRun
  import opened BcryptJsText

  datatype JsError =
    InvalidSaltVersion | InvalidSaltRevision | MissingSaltRounds | BadNumberOfRounds | BadSaltLength

  datatype JsOutcome = Thrown(error: JsError) | Called(text: JsString)

  /** `s.charAt(i)` compared with a one-character string. */
  predicate CharIs(s: JsString, i: nat, c: CodeUnit) {
    i < |s| && s[i] == c
  }

  /** `s.substring(i, j)`. */
  function Substring(s: JsString, i: nat, j: nat): JsString
    requires i <= j
  {
    var a := if i < |s| then i else |s|;
    var b := if j < |s| then j else |s|;
    s[a..b]
  }

  /** parseInt of the one-character substring at `i`; None is NaN. */
  function DigitAt(s: JsString, i: nat): Option<nat> {
    if i < |s| && 0x30 <= s[i] <= 0x39 then Some((s[i] - 0x30) as int) else None
  }

  /** `r1 * 10 + r2`. */
  function RoundsAt(s: JsString, off: nat): Option<nat> {
    match (DigitAt(s, off), DigitAt(s, off + 1))
    case (Some(r1), Some(r2)) => Some(r1 * 10 + r2)
    case _ => None
  }

  /** The bytes of a password, with the NUL of minor revision "a". */
  function PasswordBytes(password: JsString, revisionA: bool): seq<Byte> {
    seq(|password|, i requires 0 <= i < |password| => GetByte(password[i])) + if revisionA then [0] else []
  }

  /** streamtoword reads an empty list, all of whose elements are undefined, as zeros. */
  function StreamOf(bytes: seq<Byte>): Stream {
    if bytes == [] then ZEROS else bytes
  }

  /** "0" in front of a single digit, then the decimal number; NaN is written as such. */
  function RoundsText(rounds: Option<nat>): JsString
    requires rounds.Some? ==> rounds.value <= 31
  {
    match rounds
    case None => [0x4e, 0x61, 0x4e]
    case Some(n) => Widen([DigitChar(n / 10), DigitChar(n % 10)])
  }

  /** The rounds that are run: none when `1 << log_rounds` is negative. */
  function RoundsRun(log: Option<nat>): nat
    requires log.Some? ==> log.value <= 31
  {
    if ShiftOne(log) > 0 then ShiftOne(log) else 0
  }

  /** The parts that hashpw pushes, joined. */
  function Joined(rounds: Option<nat>, revisionA: bool, salt64: JsString, hash64: JsString): JsString
    requires rounds.Some? ==> rounds.value <= 31
  {
    [0x24, 0x32] + (if revisionA then [0x61] else []) + [0x24] + RoundsText(rounds) + [0x24] + salt64 + hash64
  }

  /** The string that the callback gets. */
  function Text(initial: Boxes, password: seq<Byte>, salt: Stream, rounds: Option<nat>, revisionA: bool): JsString
    requires rounds.Some? ==> rounds.value <= 31
  {
    var digest := RawHash(initial, salt, StreamWords(StreamOf(password), 18), RoundsRun(rounds));
    Joined(rounds, revisionA, Widen(Encode(salt)), Widen(EncodedDigest(digest)))
  }

  /** hashpw behind the version and revision, which end before position `off`. */
  function HashPwFrom(initial: Boxes, password: JsString, salt: JsString, off: nat, revisionA: bool): JsOutcome {
    var rounds := RoundsAt(salt, off);
    var saltb := JsDecode(Substring(salt, off + 3, off + 25), 16);
    if off + 2 < |salt| && salt[off + 2] > 0x24 then Thrown(MissingSaltRounds)
    else if rounds.Some? && (rounds.value < 4 || rounds.value > 31) then Thrown(BadNumberOfRounds)
    else if |saltb| != 16 then Thrown(BadSaltLength)
    else Called(Text(initial, PasswordBytes(password, revisionA), saltb, rounds, revisionA))
  }

  /** hashpw. */
  function HashPw(initial: Boxes, password: JsString, salt: JsString): JsOutcome {
    if !CharIs(salt, 0, 0x24) || !CharIs(salt, 1, 0x32) then Thrown(InvalidSaltVersion)
    else if CharIs(salt, 2, 0x24) then HashPwFrom(initial, password, salt, 3, false)
    else if !CharIs(salt, 2, 0x61) || !CharIs(salt, 3, 0x24) then Thrown(InvalidSaltRevision)
    else HashPwFrom(initial, password, salt, 4, true)
  }

  lemma DigitValue(s: JsString, i: nat)
    ensures DigitAt(s, i)
         == if i < |s| && 0x30 <= s[i] <= 0x39 then Some(s[i] as int - 48) else None
  {
    if i < |s| && 0x30 <= s[i] <= 0x39 {
      DigitUnit(s[i]);
    }
  }

  lemma DigitUnit(c: CodeUnit)
    requires 0x30 <= c <= 0x39
    ensures (c - 0x30) as int == c as int - 48
  {
    if c == 0x30 {
    } else if c == 0x31 {
    } else if c == 0x32 {
    } else if c == 0x33 {
    } else if c == 0x34 {
    } else if c == 0x35 {
    } else if c == 0x36 {
    } else if c == 0x37 {
    } else if c == 0x38 {
    } else {
      assert c == 0x39;
    }
  }

  /** The first two checks of hashpw: "$2$" or "$2a$". */
  lemma VersionErrors(initial: Boxes, password: JsString, salt: JsString)
    ensures var version := |salt| >= 2 && salt[0] == 0x24 && salt[1] == 0x32;
            var plain := |salt| >= 3 && salt[2] == 0x24;
            var minor := |salt| >= 4 && salt[2] == 0x61 && salt[3] == 0x24;
            var r := HashPw(initial, password, salt);
            && (r == Thrown(InvalidSaltVersion) <==> !version)
            && (r == Thrown(InvalidSaltRevision) <==> version && !plain && !minor)
            && (version && plain ==> r == HashPwFrom(initial, password, salt, 3, false))
            && (version && minor ==> r == HashPwFrom(initial, password, salt, 4, true))
  {
    hide JsDecode, Text, PasswordBytes, RoundsAt;
  }

  /** The other three, behind position `off`: a character above '$' where '$' should be, two digits that are no cost,
      and a salt that does not decode to sixteen bytes. Characters that are no digits are let through. */
  lemma SettingErrors(initial: Boxes, password: JsString, salt: JsString, off: nat, revisionA: bool)
    ensures var missing := |salt| > off + 2 && salt[off + 2] > 0x24;
            var digits := |salt| > off + 1 && 0x30 <= salt[off] <= 0x39 && 0x30 <= salt[off + 1] <= 0x39;
            var bad := digits && !(4 <= 10 * (salt[off] as int - 48) + (salt[off + 1] as int - 48) <= 31);
            var short := |JsDecode(Substring(salt, off + 3, off + 25), 16)| != 16;
            var r := HashPwFrom(initial, password, salt, off, revisionA);
            && (r == Thrown(MissingSaltRounds) <==> missing)
            && (r == Thrown(BadNumberOfRounds) <==> !missing && bad)
            && (r == Thrown(BadSaltLength) <==> !missing && !bad && short)
            && (r.Called? <==> !missing && !bad && !short)
  {
    DigitValue(salt, off);
    DigitValue(salt, off + 1);
    hide DigitAt, JsDecode, Text, PasswordBytes, Substring;
  }

  /** hashpw and all its timer turns, for a clock that cuts the rounds off where `cut` says. */
  method RunHashPw(p: JsP, s: JsS, password: JsString, salt: JsString, cut: nat -> bool) returns (r: JsOutcome)
    ensures r == HashPw(BoxesOf(p, s), password, salt)
  {
    hide HashPwFrom;
    if !CharIs(salt, 0, 0x24) || !CharIs(salt, 1, 0x32) {
      return Thrown(InvalidSaltVersion);
    }
    var off;
    var revisionA := false;
    if CharIs(salt, 2, 0x24) {
      off := 3;
    } else {
      if !CharIs(salt, 2, 0x61) || !CharIs(salt, 3, 0x24) {
        return Thrown(InvalidSaltRevision);
      }
      revisionA := true;
      off := 4;
    }
    r := RunFrom(p, s, password, salt, off, revisionA, cut);
  }

  method RunFrom(p: JsP, s: JsS, password: JsString, salt: JsString, off: nat, revisionA: bool, cut: nat -> bool)
    returns (r: JsOutcome)
    ensures r == HashPwFrom(BoxesOf(p, s), password, salt, off, revisionA)
  {
    hide JsDecode, RoundsAt, Substring, PasswordBytes, Text, BoxesOf;
    if off + 2 < |salt| && salt[off + 2] > 0x24 {
      return Thrown(MissingSaltRounds);
    }
    var rounds := RoundsAt(salt, off);
    var saltb := DecodeBase64(Substring(salt, off + 3, off + 25), 16);
    if rounds.Some? && (rounds.value < 4 || rounds.value > 31) {
      return Thrown(BadNumberOfRounds);
    }
    if |saltb| != 16 {
      return Thrown(BadSaltLength);
    }
    var text := RunCrypt(p, s, PasswordBytes(password, revisionA), saltb, rounds, revisionA, cut);
    r := Called(text);
  }

  /** crypt_raw, its timer turns, and the function that hashpw passes to it. */
  method RunCrypt(p: JsP, s: JsS, password: seq<Byte>, saltb: Stream, rounds: Option<nat>, revisionA: bool,
                  cut: nat -> bool)
    returns (text: JsString)
    requires |saltb| == 16 && (rounds.Some? ==> 4 <= rounds.value <= 31)
    ensures text == Text(BoxesOf(p, s), password, saltb, rounds, revisionA)
  {
    hide *;
    var hashed := RunRaw(p, s, StreamOf(password), saltb, rounds, cut);
    var salt64 := EncodeBase64(saltb, |saltb|);
    var hash64 := EncodeBase64(hashed, 6 * 4 - 1);
    assert saltb[..16] == saltb;
    TextParts(BoxesOf(p, s), password, saltb, rounds, revisionA);
    text := Joined(rounds, revisionA, salt64.value, hash64.value);
  }

  lemma TextParts(initial: Boxes, password: seq<Byte>, salt: Stream, rounds: Option<nat>, revisionA: bool)
    requires rounds.Some? ==> rounds.value <= 31
    ensures var digest := RawHash(initial, salt, StreamWords(StreamOf(password), 18), RoundsRun(rounds));
            Text(initial, password, salt, rounds, revisionA)
            == Joined(rounds, revisionA, Widen(Encode(salt)), Widen(Encode(DigestBytes(digest)[..23])))
  {
    hide Joined, RawHash, StreamWords, StreamOf, RoundsRun, Encode, Widen, DigestBytes;
  }

  method RunRaw(p: JsP, s: JsS, password: Stream, saltb: Stream, rounds: Option<nat>, cut: nat -> bool)
    returns (hashed: seq<Byte>)
    requires rounds.Some? ==> 4 <= rounds.value <= 31
    ensures |hashed| == 24
    ensures hashed == DigestBytes(RawHash(BoxesOf(p, s), saltb, StreamWords(password, 18), RoundsRun(rounds)))
  {
    hide *;
    var obj := new BCrypt(p, s);
    NewValue(obj, p, s);
    var run := new CryptRaw(obj, password, saltb, rounds, cut);
    run.Run(cut);
    hashed := run.calls[0];
    OutcomeIsRawHash(run, BoxesOf(p, s), saltb, StreamWords(password, 18), rounds);
  }

  lemma NewValue(obj: BCrypt, p: JsP, s: JsS)
    requires obj.P == p && obj.S == s
    ensures obj.Value() == BoxesOf(p, s)
  {
  }

  lemma OutcomeIsRawHash(run: CryptRaw, initial: Boxes, salt: Stream, key: KeyWords, rounds: Option<nat>)
    requires rounds.Some? ==> rounds.value <= 31
    requires run.start == SaltedSchedule(initial, salt, key) && run.salt == salt && StreamWords(run.password, 18) == key
    requires run.rounds == ShiftOne(rounds)
    ensures run.Outcome() == DigestBytes(RawHash(initial, salt, key, RoundsRun(rounds)))
  {
    hide SaltedSchedule, KeySaltRounds, Digest, DigestBytes, ShiftOne, StreamWords;
  }
}
