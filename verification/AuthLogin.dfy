/** From a new salt to a login: a password that was stored is the one that is accepted. */
module AuthLogin {
  import opened Words
  import opened Blowfish
  import opened BcryptCodec
  import opened KeyFeeding
  import opened Bcrypt
  import opened BcryptProperties
  import opened AuthModel

  /** Rounds for which there is a salt: 0, which stands for 5, and 4 to 31. */
  predicate GoodRounds(rounds: int) {
    rounds == 0 || 4 <= rounds <= 31
  }

  predicate Enough(entropy: Option<seq<Byte>>) {
    entropy.Some? && |entropy.value| >= 16
  }

  /** A salt is made exactly for good rounds and enough entropy. */
  lemma SaltMade(rounds: int, entropy: Option<seq<Byte>>)
    ensures Salt(rounds, entropy) != [] <==> GoodRounds(rounds) && Enough(entropy)
    ensures Salt(rounds, entropy) != []
       <==> (rounds == 0 || 4 <= rounds <= 31) && entropy.Some? && |entropy.value| >= 16
  {
    hide Encode;
  }

  /** Every salt that is made can be hashed with, at the cost asked for. */
  lemma SaltAccepted(rounds: int, entropy: Option<seq<Byte>>)
    requires Salt(rounds, entropy) != []
    ensures var s := Salt(rounds, entropy);
            && GoodHeader(s) && Usable(s) && Cost(s) == (if rounds == 0 then 5 else rounds)
            && Decode(s[7..], 16) == Some(entropy.value[..16])
  {
    SaltMade(rounds, entropy);
    GeneratedSalt(rounds, entropy.value, 16, 30);
    SixteenRounds(if rounds == 0 then 5 else rounds);
    hide GoodHeader, Decode, Cost, Encode, OneShifted;
  }

  /** A "$2a$" setting that can be hashed with. */
  predicate Usable(setting: seq<Byte>) {
    Accepted(setting, 16) && At(setting, 2) == 0x61
  }

  lemma UsableParts(setting: seq<Byte>)
    requires Usable(setting)
    ensures setting != [] && GoodHeader(setting) && Decode(setting[7..], 16).Some? && At(setting, 2) == 0x61
  {
    hide Decode, OneShifted, Cost;
  }

  lemma CryptOfUsable(c: Config, key: seq<Byte>, setting: seq<Byte>)
    requires Usable(setting) && GoodHeader(setting) && Decode(setting[7..], 16).Some?
    ensures Crypt(c.initial, key, setting, 61, 16) == Hash(HashText(c.initial, key, setting))
  {
    hide GoodHeader, Decode, HashText, OneShifted, Cost;
  }

  lemma HashPasswordIs(c: Config, key: seq<Byte>, setting: seq<Byte>)
    requires setting != []
    ensures HashPassword(c, key, setting)
         == match Crypt(c.initial, key, setting, 61, 16) case Hash(text) => Returned(text) case Refused(_) => Threw
  {
    hide Crypt;
  }

  lemma HeaderKept(setting: seq<Byte>, digest: seq<Byte>)
    requires GoodHeader(setting) && At(setting, 2) == 0x61
    requires |setting| >= 29 && forall i :: 7 <= i < 29 ==> IsAlphabet(setting[i])
    ensures Bcrypted(Assembled(setting, digest))
  {
    hide IsAlphabet, CanonicalSalt;
    assert setting[0] == At(setting, 0) && setting[1] == At(setting, 1);
    assert setting[2] == At(setting, 2) && setting[3] == At(setting, 3);
  }

  lemma HashTextIs(initial: Boxes, key: seq<Byte>, setting: seq<Byte>)
    requires GoodHeader(setting) && Decode(setting[7..], 16).Some?
    ensures |setting| >= 29 && forall i :: 7 <= i < 29 ==> IsAlphabet(setting[i])
    ensures HashText(initial, key, setting) == Assembled(setting, EncodedDigest(DigestFor(initial, key, setting)))
  {
    SettingParts(setting);
    hide GoodHeader, Decode, Assembled, EncodedDigest, DigestFor, IsAlphabet;
  }

  /** What is stored for a password under a usable salt: hashing again under it gives it back. */
  lemma StoredHash(c: Config, password: seq<Byte>, salt: seq<Byte>)
    requires Usable(salt)
    ensures HashPassword(c, password, salt).Returned?
    ensures var h := HashPassword(c, password, salt).value;
            h != [] && Bcrypted(h) && HashPassword(c, password, h) == Returned(h)
  {
    hide *;
    UsableParts(salt);
    CryptOfUsable(c, password, salt);
    HashPasswordIs(c, password, salt);
    HashIsFixedPoint(c.initial, password, salt, 61, 16);
    HashTextIs(c.initial, password, salt);
    var digest := EncodedDigest(DigestFor(c.initial, password, salt));
    HeaderKept(salt, digest);
    HashPasswordIs(c, password, Assembled(salt, digest));
  }

  lemma VerdictTrue(c: Config, u: User, password: seq<Byte>, h: seq<Byte>)
    requires c.bcrypt && u.status == 1 && u.password == Some(h) && h != [] && Bcrypted(h)
    requires HashPassword(c, password, h) == Returned(h)
    ensures Verdict(c, u, password) == Returned(true)
  {
    hide HashPassword, Bcrypted;
  }

  /** A record with a password stored under a usable salt accepts that password once it is active. */
  lemma HeldPasswordPasses(c: Config, u: User, password: seq<Byte>, salt: seq<Byte>)
    requires c.bcrypt && u.status == 1 && Usable(salt)
    requires u.password.Some? && HashPassword(c, password, salt) == Returned(u.password.value)
    ensures Verdict(c, u, password) == Returned(true)
  {
    hide *;
    StoredHash(c, password, salt);
    VerdictTrue(c, u, password, u.password.value);
  }

  /** And exactly the passwords that hash alike pass. */
  lemma OnlySameHashPasses(c: Config, u: User, other: seq<Byte>)
    requires c.bcrypt && u.status == 1 && u.password.Some? && Bcrypted(u.password.value)
    ensures Verdict(c, u, other) == Returned(true)
       <==> HashPassword(c, other, u.password.value) == Returned(u.password.value)
  {
    hide HashPassword;
  }

  /** Two passwords with the same first 72 bytes open the same accounts. */
  lemma LongPasswordsAlike(c: Config, u: User, p: seq<Byte>, q: seq<Byte>)
    requires |CString(p)| >= 72 && |CString(q)| >= 72 && p[..72] == q[..72]
    ensures Verdict(c, u, p) == Verdict(c, u, q)
  {
    var s := u.password.GetOr([]);
    Only72Bytes(p, q, At(s, 2) == 0x78);
    assert p != [] && q != [];
    hide GoodHeader, FedKey, KeyStream, Decode, RawHash, OneShifted, Cost, EncodedDigest, Assembled;
  }

  lemma PassedCheck(c: Config, st: State, email: string, p: seq<Byte>)
    requires Active(st, email)
    ensures Check(c, st, email, p).1 == Verdict(c, Record(st, email), p)
    ensures Check(c, st, email, p).1 == Returned(true) ==>
      && Active(Check(c, st, email, p).0, email)
      && Record(Check(c, st, email, p).0, email).password == Record(st, email).password
  {
    hide Verdict, UserKey;
  }

  /** A created account is closed. */
  lemma CreateMakes(c: Config, st: State, email: string, password: seq<Byte>, name: string,
                    entropy: Option<seq<Byte>>, digest: string, h: seq<Byte>)
    requires email != "" && !Known(st, email) && c.bcrypt
    requires HashPassword(c, password, Salt(c.rounds, entropy)) == Returned(h)
    ensures var (made, hash) := Create(c, st, email, password, name, entropy, digest);
            && hash == Returned("0" + digest) && Known(made, email)
            && Record(made, email) == User(Some(h), Some(name), 0, Some(0))
            && Verify(made, "0" + digest) == (SetActive(made, email, true), email)
  {
    hide HashPassword, Salt, UserKey;
  }

  /** The state after create and the verification of its hash. */
  function CreatedAndVerified(c: Config, st: State, email: string, password: seq<Byte>, name: string,
                              entropy: Option<seq<Byte>>, digest: string): State
  {
    Verify(Create(c, st, email, password, name, entropy, digest).0, "0" + digest).0
  }

  /** A created account, once verified, accepts its password exactly when there was a salt for it. */
  lemma CreateThenLogin(c: Config, st: State, email: string, password: seq<Byte>, name: string,
                        entropy: Option<seq<Byte>>, digest: string)
    requires email != "" && !Known(st, email) && c.bcrypt
    requires Create(c, st, email, password, name, entropy, digest).1.Returned?
    ensures var open := CreatedAndVerified(c, st, email, password, name, entropy, digest);
            Check(c, open, email, password).1 == Returned(true) <==> GoodRounds(c.rounds) && Enough(entropy)
  {
    CreateReturns(c, st, email, password, name, entropy, digest);
    hide *;
    var h := HashPassword(c, password, Salt(c.rounds, entropy)).value;
    CreateMakes(c, st, email, password, name, entropy, digest, h);
    var made := Create(c, st, email, password, name, entropy, digest).0;
    Activated(made, email);
    VerifiedIs(c, st, email, password, name, entropy, digest);
    LoginIff(c, SetActive(made, email, true), email, password, entropy);
  }

  lemma CreateReturns(c: Config, st: State, email: string, password: seq<Byte>, name: string,
                      entropy: Option<seq<Byte>>, digest: string)
    requires email != "" && !Known(st, email) && c.bcrypt
    ensures Create(c, st, email, password, name, entropy, digest).1.Returned?
       <==> HashPassword(c, password, Salt(c.rounds, entropy)).Returned?
  {
    hide HashPassword, Salt, UserKey;
  }

  lemma VerifiedIs(c: Config, st: State, email: string, password: seq<Byte>, name: string,
                   entropy: Option<seq<Byte>>, digest: string)
    ensures CreatedAndVerified(c, st, email, password, name, entropy, digest)
         == Verify(Create(c, st, email, password, name, entropy, digest).0, "0" + digest).0
  {
  }

  lemma Activated(st: State, email: string)
    requires Known(st, email)
    ensures Active(SetActive(st, email, true), email)
    ensures Record(SetActive(st, email, true), email) == Record(st, email).(status := 1)
  {
    hide UserKey;
  }

  /** Where the stored password is what bcrypt gave for a password and a salt, it is accepted if there was a salt. */
  lemma LoginIff(c: Config, st: State, email: string, password: seq<Byte>, entropy: Option<seq<Byte>>)
    requires c.bcrypt && Active(st, email) && Record(st, email).password.Some?
    requires HashPassword(c, password, Salt(c.rounds, entropy)) == Returned(Record(st, email).password.value)
    ensures Check(c, st, email, password).1 == Returned(true) <==> GoodRounds(c.rounds) && Enough(entropy)
  {
    ActiveStatus(st, email);
    hide *;
    SaltMade(c.rounds, entropy);
    PassedCheck(c, st, email, password);
    if Salt(c.rounds, entropy) != [] {
      SaltAccepted(c.rounds, entropy);
      HeldPasswordPasses(c, Record(st, email), password, Salt(c.rounds, entropy));
    } else {
      NoSalt(c, password);
      NothingStored(c, Record(st, email), password);
    }
  }

  lemma ActiveStatus(st: State, email: string)
    ensures Active(st, email) ==> Known(st, email) && Record(st, email).status == 1
  {
  }

  lemma NothingStored(c: Config, u: User, password: seq<Byte>)
    requires u.password == Some([])
    ensures Verdict(c, u, password) == Returned(false)
  {
  }

  /** Without a salt only the empty password does not throw, and what is stored for it never passes. */
  lemma NoSalt(c: Config, password: seq<Byte>)
    ensures HashPassword(c, password, []) == if password == [] then Returned([]) else Threw
  {
    hide Decode, HashText;
  }

  /** A new password is hashed without an exception exactly when there was a salt for it, or it is empty. */
  lemma HashingThrowsIff(c: Config, password: seq<Byte>, entropy: Option<seq<Byte>>)
    ensures HashPassword(c, password, Salt(c.rounds, entropy)).Threw?
       <==> password != [] && !(GoodRounds(c.rounds) && Enough(entropy))
  {
    hide *;
    SaltMade(c.rounds, entropy);
    if Salt(c.rounds, entropy) == [] {
      NoSalt(c, password);
    } else {
      SaltAccepted(c.rounds, entropy);
      StoredHash(c, password, Salt(c.rounds, entropy));
    }
  }

  /** A password that was reset is accepted at once exactly when there was a salt for it. */
  lemma ResetThenLogin(c: Config, st: State, email: string, password: seq<Byte>, entropy: Option<seq<Byte>>)
    requires Reset(c, st, email, password, entropy).1 == Returned(true)
    ensures Check(c, Reset(c, st, email, password, entropy).0, email, password).1 == Returned(true)
       <==> GoodRounds(c.rounds) && Enough(entropy)
  {
    ResetStores(c, st, email, password, entropy);
    hide *;
    LoginIff(c, Reset(c, st, email, password, entropy).0, email, password, entropy);
  }

  lemma ResetStores(c: Config, st: State, email: string, password: seq<Byte>, entropy: Option<seq<Byte>>)
    requires Reset(c, st, email, password, entropy).1 == Returned(true)
    ensures var after := Reset(c, st, email, password, entropy).0;
            && c.bcrypt && Active(after, email) && Record(after, email).password.Some?
            && HashPassword(c, password, Salt(c.rounds, entropy)) == Returned(Record(after, email).password.value)
  {
    hide HashPassword, Salt, UserKey;
  }

  /** The same for a password that was changed. */
  lemma ChangeThenLogin(c: Config, st: State, email: string, was: seq<Byte>, password: seq<Byte>,
                        entropy: Option<seq<Byte>>)
    requires Change(c, st, email, was, password, entropy).1 == Returned(true)
    ensures Check(c, Change(c, st, email, was, password, entropy).0, email, password).1 == Returned(true)
       <==> GoodRounds(c.rounds) && Enough(entropy)
  {
    ChangeStores(c, st, email, was, password, entropy);
    hide *;
    LoginIff(c, Change(c, st, email, was, password, entropy).0, email, password, entropy);
  }

  lemma ChangeStores(c: Config, st: State, email: string, was: seq<Byte>, password: seq<Byte>,
                     entropy: Option<seq<Byte>>)
    requires Change(c, st, email, was, password, entropy).1 == Returned(true)
    ensures var after := Change(c, st, email, was, password, entropy).0;
            && c.bcrypt && Active(after, email) && Record(after, email).password.Some?
            && HashPassword(c, password, Salt(c.rounds, entropy)) == Returned(Record(after, email).password.value)
  {
    CheckTrueIsActive(c, st, email, was);
    ChangeDone(c, st, email, was, password, entropy);
    hide *;
    var checked := Check(c, st, email, was).0;
    PassedCheck(c, st, email, was);
    var h := HashPassword(c, password, Salt(c.rounds, entropy)).value;
    PutActive(checked, email, Record(checked, email).(password := Some(h), attempts := Some(0)));
  }

  lemma ChangeDone(c: Config, st: State, email: string, was: seq<Byte>, password: seq<Byte>, entropy: Option<seq<Byte>>)
    requires Change(c, st, email, was, password, entropy).1 == Returned(true)
    ensures var checked, gen := Check(c, st, email, was).0, HashPassword(c, password, Salt(c.rounds, entropy));
            && c.bcrypt && Check(c, st, email, was).1 == Returned(true) && gen.Returned? && Known(checked, email)
            && Change(c, st, email, was, password, entropy).0
               == PutRecord(checked, email, Record(checked, email).(password := Some(gen.value), attempts := Some(0)))
  {
    hide HashPassword, Salt, UserKey, Check;
  }

  lemma PutActive(st: State, email: string, u: User)
    requires Active(st, email) && u.status == Record(st, email).status
    ensures Active(PutRecord(st, email, u), email) && Record(PutRecord(st, email, u), email) == u
  {
    hide UserKey;
  }

  lemma CheckTrueIsActive(c: Config, st: State, email: string, p: seq<Byte>)
    ensures Check(c, st, email, p).1 == Returned(true) ==> Active(st, email)
  {
    hide Verdict, UserKey;
  }
}
