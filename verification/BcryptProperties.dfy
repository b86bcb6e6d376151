/** What a password check relies on: hashing again under a hash, and salts that come from the generator. */
module BcryptProperties {
  import opened Words
  import opened Blowfish
  import opened BcryptCodec
  import opened KeyFeeding
  import opened Bcrypt

  /** The canonical salt is the encoding of the salt bytes. */
  lemma CanonicalSaltIsEncoding(setting: seq<Byte>)
    requires GoodHeader(setting) && Decode(setting[7..], 16).Some?
    ensures |setting| >= 29 && forall i :: 7 <= i < 29 ==> IsAlphabet(setting[i])
    ensures CanonicalSalt(setting[7..29]) == Encode(Decode(setting[7..], 16).value)
  {
    SettingParts(setting);
    EncodeDecode(setting[7..], 16);
    assert EncodedLength(16) == 22;
    assert setting[7..29] == setting[7..][..22];
    hide *;
  }

  /** The salt bytes determine the canonical salt and the other way round. */
  lemma {:induction false} EncodeInjective(b: seq<Byte>, c: seq<Byte>)
    requires |b| == |c| && Encode(b) == Encode(c)
    ensures b == c
  {
    DecodeEncode(b, []);
    DecodeEncode(c, []);
  }

  /** The hash depends on the setting only through its first 28 characters and two bits of the next one. */
  lemma DependsOnCanonicalSetting(initial: Boxes, key: seq<Byte>, s: seq<Byte>, t: seq<Byte>, size: int, min: nat)
    requires |s| >= 29 && |t| >= 29 && s[..28] == t[..28]
    requires IsAlphabet(s[28]) && IsAlphabet(t[28]) && Atoi64(s[28]) & 0x30 == Atoi64(t[28]) & 0x30
    ensures Crypt(initial, key, s, size, min) == Crypt(initial, key, t, size, min)
  {
    hide Accepted, HashText, Crypt, IsAlphabet, Atoi64;
    SameAccepted(s, t, min);
    CryptCases(initial, key, s, size, min);
    CryptCases(initial, key, t, size, min);
    if Accepted(s, min) {
      AcceptedParts(s, min);
      AcceptedParts(t, min);
      hide *;
      SameHashText(initial, key, s, t);
    }
  }

  lemma AcceptedParts(s: seq<Byte>, min: nat)
    requires Accepted(s, min)
    ensures GoodHeader(s) && Decode(s[7..], 16).Some?
  {
    hide GoodHeader, Decode, Cost, OneShifted;
  }

  lemma CryptCases(initial: Boxes, key: seq<Byte>, s: seq<Byte>, size: int, min: nat)
    ensures size < 61 ==> Crypt(initial, key, s, size, min) == Refused(ERANGE)
    ensures size >= 61 && !Accepted(s, min) ==> Crypt(initial, key, s, size, min) == Refused(EINVAL)
    ensures size >= 61 && Accepted(s, min) ==>
      GoodHeader(s) && Decode(s[7..], 16).Some? && Crypt(initial, key, s, size, min) == Hash(HashText(initial, key, s))
  {
    hide GoodHeader, Decode, Cost, OneShifted, HashText;
  }

  lemma SameAccepted(s: seq<Byte>, t: seq<Byte>, min: nat)
    requires |s| >= 29 && |t| >= 29 && s[..28] == t[..28]
    requires IsAlphabet(s[28]) && IsAlphabet(t[28]) && Atoi64(s[28]) & 0x30 == Atoi64(t[28]) & 0x30
    ensures Accepted(s, min) == Accepted(t, min)
  {
    hide GoodHeader, Decode, Cost, OneShifted, IsAlphabet, Atoi64;
    SameHeader(s, t);
    SameSalt(s, t);
  }

  lemma SameHashText(initial: Boxes, key: seq<Byte>, s: seq<Byte>, t: seq<Byte>)
    requires |s| >= 29 && |t| >= 29 && s[..28] == t[..28]
    requires IsAlphabet(s[28]) && IsAlphabet(t[28]) && Atoi64(s[28]) & 0x30 == Atoi64(t[28]) & 0x30
    requires GoodHeader(s) && GoodHeader(t) && Decode(s[7..], 16).Some? && Decode(t[7..], 16).Some?
    ensures HashText(initial, key, s) == HashText(initial, key, t)
  {
    SettingParts(s);
    SettingParts(t);
    hide GoodHeader, Decode, DigestFor, Assembled, EncodedDigest, IsAlphabet, Atoi64;
    SameHeader(s, t);
    SameSalt(s, t);
    SameDigestFor(initial, key, s, t);
    SameAssembled(s, t, EncodedDigest(DigestFor(initial, key, s)));
  }

  lemma SameHeader(s: seq<Byte>, t: seq<Byte>)
    requires |s| >= 29 && |t| >= 29 && s[..28] == t[..28]
    ensures GoodHeader(s) == GoodHeader(t)
    ensures At(s, 2) == At(t, 2)
    ensures GoodHeader(s) ==> Cost(s) == Cost(t)
  {
    assert forall i :: 0 <= i < 28 ==> s[i] == s[..28][i] == t[i];
    hide Digit;
  }

  lemma SameCanonicalSalt(s: seq<Byte>, t: seq<Byte>)
    requires |s| >= 29 && |t| >= 29 && s[..28] == t[..28]
    requires forall i :: 7 <= i < 29 ==> IsAlphabet(s[i]) && IsAlphabet(t[i])
    requires Atoi64(s[28]) & 0x30 == Atoi64(t[28]) & 0x30
    ensures CanonicalSalt(s[7..29]) == CanonicalSalt(t[7..29])
  {
    hide IsAlphabet, Atoi64, Itoa64;
    assert s[7..29][..21] == s[..28][7..] == t[7..29][..21];
  }

  lemma SameSalt(s: seq<Byte>, t: seq<Byte>)
    requires |s| >= 29 && |t| >= 29 && s[..28] == t[..28]
    requires IsAlphabet(s[28]) && IsAlphabet(t[28]) && Atoi64(s[28]) & 0x30 == Atoi64(t[28]) & 0x30
    ensures GoodHeader(s) && GoodHeader(t) ==> Decode(s[7..], 16) == Decode(t[7..], 16)
  {
    if GoodHeader(s) && GoodHeader(t) {
      DecodeAccepts(s[7..], 16);
      DecodeAccepts(t[7..], 16);
      assert EncodedLength(16) == 22;
      hide *;
      assert forall i :: 0 <= i < 28 ==> s[i] == s[..28][i] == t[i];
      forall i | 0 <= i < 22
        ensures IsAlphabet(s[7..][i]) == IsAlphabet(t[7..][i])
      {
      }
      if Decode(s[7..], 16).Some? {
        CanonicalSaltIsEncoding(s);
        CanonicalSaltIsEncoding(t);
        SameCanonicalSalt(s, t);
        EncodeInjective(Decode(s[7..], 16).value, Decode(t[7..], 16).value);
      }
    }
  }

  lemma SameDigestFor(initial: Boxes, key: seq<Byte>, s: seq<Byte>, t: seq<Byte>)
    requires GoodHeader(s) && GoodHeader(t) && Decode(s[7..], 16).Some? && Decode(s[7..], 16) == Decode(t[7..], 16)
    requires At(s, 2) == At(t, 2) && Cost(s) == Cost(t)
    ensures DigestFor(initial, key, s) == DigestFor(initial, key, t)
  {
    hide GoodHeader, Cost, Decode, RawHash, FedKey, KeyStream, OneShifted, At;
  }

  lemma SameAssembled(s: seq<Byte>, t: seq<Byte>, digest: seq<Byte>)
    requires |s| >= 29 && |t| >= 29 && s[..28] == t[..28]
    requires forall i :: 7 <= i < 29 ==> IsAlphabet(s[i]) && IsAlphabet(t[i])
    requires Atoi64(s[28]) & 0x30 == Atoi64(t[28]) & 0x30
    ensures Assembled(s, digest) == Assembled(t, digest)
  {
    SameCanonicalSalt(s, t);
    assert s[..7] == s[..28][..7] == t[..7];
    hide CanonicalSalt, IsAlphabet, Atoi64;
  }

  /** A hash, taken as a setting, stands for the setting it was made with. */
  lemma HashAsSetting(setting: seq<Byte>, digest: seq<Byte>)
    requires GoodHeader(setting) && |setting| >= 29 && forall i :: 7 <= i < 29 ==> IsAlphabet(setting[i])
    ensures var h := Assembled(setting, digest);
            h[..28] == setting[..28] && IsAlphabet(h[28]) && Atoi64(h[28]) & 0x30 == Atoi64(setting[28]) & 0x30
  {
    var v := Atoi64(setting[28]);
    assert (v & 0x30) & 0x30 == v & 0x30 && v & 0x30 < 64;
    var h := Assembled(setting, digest);
    assert h[28] == Itoa64(v & 0x30);
    hide IsAlphabet, Atoi64, Itoa64;
    assert setting[7..29][..21] == setting[7..28];
    assert setting[..28] == setting[..7] + setting[7..28];
  }

  /** Hashing the same key under its own hash gives the hash back: this is how a password is checked. */
  lemma HashIsFixedPoint(initial: Boxes, key: seq<Byte>, setting: seq<Byte>, size: int, min: nat)
    requires Crypt(initial, key, setting, size, min).Hash?
    ensures var h := Crypt(initial, key, setting, size, min).text;
            Crypt(initial, key, h, size, min) == Hash(h)
  {
    SettingParts(setting);
    HashAsSetting(setting, EncodedDigest(DigestFor(initial, key, setting)));
    hide GoodHeader, Decode, DigestFor, Assembled, OneShifted, Cost;
    DependsOnCanonicalSetting(initial, key, Crypt(initial, key, setting, size, min).text, setting, size, min);
  }

  /** A generated salt is accepted, its cost reads back as the count (0 as 5), its salt as the entropy bytes. */
  lemma GeneratedSalt(count: nat, input: seq<Byte>, size: int, outputSize: int)
    requires size <= |input| && Gensalt(count, input, size, outputSize).Hash?
    ensures var s, n := Gensalt(count, input, size, outputSize).text, if count == 0 then 5 else count;
            GoodHeader(s) && Cost(s) == n && At(s, 2) == 0x61 && Accepted(s, Pow2(n))
            && Decode(s[7..], 16) == Some(input[..16])
  {
    var n := if count == 0 then 5 else count;
    var s := SaltHeader(n) + Encode(input[..16]);
    PowIsShift(n);
    SaltHeaderGood(n, Encode(input[..16]));
    hide GoodHeader, Decode, OneShifted, Encode, SaltHeader;
    assert s[7..] == Encode(input[..16]) + [];
    DecodeEncode(input[..16], []);
  }

  lemma DigitIs(c: Byte)
    requires 0x30 <= c <= 0x39
    ensures Digit(c) == c as int - 48
  {
    if c == 0x30 {
    } else if c == 0x31 {
    } else if c == 0x32 {
    } else if c == 0x33 {
    } else if c == 0x34 {
    } else if c == 0x35 {
    } else if c == 0x36 {
    } else if c == 0x37 {
    } else if c == 0x38 {
    } else {
      assert c == 0x39;
    }
  }

  lemma TensAndOnes(a: Byte, b: Byte, n: int)
    requires 0x30 <= a <= 0x39 && 0x30 <= b <= 0x39 && n == 10 * (a as int - 48) + (b as int - 48)
    ensures n == 10 * Digit(a) + Digit(b)
    ensures n <= 31 <==> a <= 0x33 && !(a == 0x33 && b > 0x31)
  {
    DigitIs(a);
    DigitIs(b);
    if a <= 0x33 {
      if a == 0x33 && b <= 0x31 {
        assert b == 0x30 || b == 0x31;
      } else if a == 0x33 {
        assert b as int >= 50;
      }
    } else {
      assert a as int >= 52;
    }
  }

  /** The header, character by character: "$2a$" or "$2x$", a decimal cost up to 31, and '$'. */
  lemma HeaderIff(s: seq<Byte>)
    ensures GoodHeader(s) <==>
      && |s| >= 7 && s[0] == 0x24 && s[1] == 0x32 && (s[2] == 0x61 || s[2] == 0x78) && s[3] == 0x24 && s[6] == 0x24
      && 0x30 <= s[4] <= 0x39 && 0x30 <= s[5] <= 0x39
      && 10 * (s[4] as int - 48) + (s[5] as int - 48) <= 31
    ensures GoodHeader(s) ==> Cost(s) == 10 * (s[4] as int - 48) + (s[5] as int - 48)
  {
    if |s| >= 7 && 0x30 <= s[4] <= 0x39 && 0x30 <= s[5] <= 0x39 {
      TensAndOnes(s[4], s[5], 10 * (s[4] as int - 48) + (s[5] as int - 48));
    }
    hide Digit;
  }

  /** What is accepted: a header with a cost from 04 on, and 22 characters of the alphabet. */
  lemma AcceptedIff(s: seq<Byte>)
    ensures Accepted(s, 16) <==>
      GoodHeader(s) && Cost(s) >= 4 && |s| >= 29 && forall i :: 7 <= i < 29 ==> IsAlphabet(s[i])
  {
    if GoodHeader(s) {
      GoodLength(s);
      SixteenRounds(Cost(s));
      DecodeAccepts(s[7..], 16);
      assert EncodedLength(16) == 22;
      hide GoodHeader, Cost, OneShifted, Decode, IsAlphabet;
      assert forall i :: 0 <= i < |s| - 7 ==> s[7..][i] == s[i + 7];
    }
  }

  lemma GoodLength(s: seq<Byte>)
    requires GoodHeader(s)
    ensures |s| >= 7
  {
  }

  lemma SaltHeaderGood(n: nat, tail: seq<Byte>)
    requires 4 <= n <= 31
    ensures GoodHeader(SaltHeader(n) + tail) && Cost(SaltHeader(n) + tail) == n && At(SaltHeader(n) + tail, 2) == 0x61
  {
  }
}
