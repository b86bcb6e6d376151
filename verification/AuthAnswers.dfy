/** What each call on an account answers, and what it leaves in the record, case by case. */
module AuthAnswers {
  import opened Words
  import opened AuthModel
  import opened AuthLockout
  import opened AuthLogin

  /** A stored password that can be compared: it starts with "$2a$". */
  predicate Comparable(u: User) {
    u.password.Some? && |u.password.value| >= 4
    && u.password.value[0] == 0x24 && u.password.value[1] == 0x32
    && u.password.value[2] == 0x61 && u.password.value[3] == 0x24
  }

  /** authorize compares only for an active account with such a password: true is an equal hash, an exception that of
      the hashing, and everything else is false. */
  lemma VerdictIs(c: Config, u: User, p: seq<Byte>)
    ensures Verdict(c, u, p)
         == if u.status != 1 || !c.bcrypt || !Comparable(u) then Returned(false)
            else match HashPassword(c, p, u.password.value)
                 case Threw => Threw
                 case Returned(h) => Returned(h == u.password.value)
  {
    hide HashPassword;
    if u.password.Some? && |u.password.value| >= 4 {
      var h := u.password.value;
      assert h[..4] == [h[0], h[1], h[2], h[3]];
    }
  }

  /** check, by the verdict and the counter. */
  lemma CheckCounts(c: Config, st: State, email: string, p: seq<Byte>)
    requires Active(st, email)
    ensures var (after, r) := Check(c, st, email, p);
            var u, v := Record(st, email), Verdict(c, Record(st, email), p);
            && r == v && Known(after, email)
            && (v == Threw ==> after == st)
            && (v == Returned(true) ==>
                  Record(after, email) == if u.attempts.Some? then u.(attempts := Some(0)) else u)
            && (v == Returned(false) ==>
                  Record(after, email)
                  == match u.attempts
                     case None => u
                     case Some(a) =>
                       if 0 <= a <= 3 then u.(attempts := Some(a + 1))
                       else if a == 4 || a == 5 then u.(status := 2)
                       else u)
  {
    hide HashPassword, UserKey;
  }

  /** A new password is stored where it can be hashed. */
  lemma ResetAnswers(c: Config, st: State, email: string, password: seq<Byte>, entropy: Option<seq<Byte>>)
    ensures var (after, r) := Reset(c, st, email, password, entropy);
            var hashed := password == [] || (GoodRounds(c.rounds) && Enough(entropy));
            && (r == Returned(true) <==> Known(st, email) && c.bcrypt && hashed)
            && (r == Threw <==> Known(st, email) && c.bcrypt && !hashed)
            && (r == Returned(true) ==>
                  && Known(after, email) && Record(after, email).name == Record(st, email).name
                  && Record(after, email).status == 1 && Record(after, email).attempts == Some(0))
  {
    HashingThrowsIff(c, password, entropy);
    hide HashPassword, UserKey, Salt;
  }

  /** A changed password is stored where the old one passed and the new one can be hashed. */
  lemma ChangeAnswers(c: Config, st: State, email: string, was: seq<Byte>, password: seq<Byte>,
                      entropy: Option<seq<Byte>>)
    ensures var (after, r) := Change(c, st, email, was, password, entropy);
            var v := if Active(st, email) then Verdict(c, Record(st, email), was) else Returned(false);
            var hashed := password == [] || (GoodRounds(c.rounds) && Enough(entropy));
            && (r == Returned(true) <==> v == Returned(true) && hashed)
            && (r == Threw <==> v == Threw || (v == Returned(true) && !hashed))
            && (r == Returned(true) ==>
                  && Known(after, email) && Record(after, email).name == Record(st, email).name
                  && Record(after, email).status == 1 && Record(after, email).attempts == Some(0))
  {
    HashingThrowsIff(c, password, entropy);
    if Active(st, email) {
      CheckCounts(c, st, email, was);
      VerdictIs(c, Record(st, email), was);
    } else {
      InactiveUnchanged(c, st, email, was, "", password, entropy);
    }
    hide HashPassword, UserKey, Salt, Check, Verdict;
  }

  /** A new name is stored where the password passed; that check has set the counter to 0. */
  lemma RenameAnswers(c: Config, st: State, email: string, password: seq<Byte>, name: string)
    ensures var (after, r) := Rename(c, st, email, password, name);
            var v := if Active(st, email) then Verdict(c, Record(st, email), password) else Returned(false);
            && r == v
            && (r == Returned(true) ==>
                  && Known(after, email)
                  && Record(after, email) == Check(c, st, email, password).0.users[UserKey(email)].(name := Some(name)))
  {
    if Active(st, email) {
      CheckCounts(c, st, email, password);
    } else {
      InactiveUnchanged(c, st, email, password, name, [], None);
    }
    hide UserKey, Check, Verdict;
  }

  /** An account is made for an e-mail that has none, where its password can be hashed. */
  lemma CreateAnswers(c: Config, st: State, email: string, password: seq<Byte>, name: string,
                      entropy: Option<seq<Byte>>, digest: string)
    ensures var (after, r) := Create(c, st, email, password, name, entropy, digest);
            var free := email != "" && !Known(st, email) && c.bcrypt;
            var hashed := password == [] || (GoodRounds(c.rounds) && Enough(entropy));
            && r == (if !free then Returned("") else if hashed then Returned("0" + digest) else Threw)
            && (free && hashed ==>
                  && Known(after, email) && Record(after, email).name == Some(name)
                  && Record(after, email).status == 0 && Record(after, email).attempts == Some(0))
  {
    HashingThrowsIff(c, password, entropy);
    hide HashPassword, UserKey, Salt;
  }
}
