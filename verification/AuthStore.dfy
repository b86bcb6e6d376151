/** The class AuthData: its calls over the stored records. */
module AuthStore {
  import opened Words
  import opened AuthModel
  import opened AuthLockout
  import opened AuthLogin
  import opened AuthAnswers

  class AuthData {
    const config: Config
    var users: map<string, User>
    var hashes: map<string, string>

    function Now(): State
      reads this
    {
      State(users, hashes)
    }

    constructor (config: Config)
      ensures this.config == config && Now() == State(map[], map[])
    {
      this.config, users, hashes := config, map[], map[];
    }

    method IsActive(email: string) returns (r: bool)
      ensures r == Active(Now(), email)
    {
      hide UserKey;
      if email == "" || UserKey(email) !in users {
        return false;
      }
      r := users[UserKey(email)].status == 1;
    }

    /** active(email, flag): the account is open or closed; an unknown e-mail gets a record, without a password. */
    method Activate(email: string, flag: bool)
      requires email != ""
      modifies this`users
      ensures Now() == SetActive(old(Now()), email, flag)
      ensures Active(Now(), email) == flag && OnlyTouches(old(Now()), Now(), email)
      ensures Known(Now(), email) && Record(Now(), email).status == if flag then 1 else 0
      ensures Known(old(Now()), email) ==>
                Record(Now(), email) == Record(old(Now()), email).(status := Record(Now(), email).status)
      ensures !Known(old(Now()), email) ==> Record(Now(), email).password == None
    {
      hide UserKey;
      var k, status := UserKey(email), if flag then 1 else 0;
      if k in users {
        users := users[k := users[k].(status := status)];
      } else {
        users := users[k := User(None, None, status, None)];
      }
    }

    /** attempts(email): the counter of an active account, and -1 exactly where there is none from 0 to 5. */
    method GetAttempts(email: string) returns (r: int)
      ensures r == Attempts(Now(), email)
      ensures -1 <= r <= 5
      ensures r >= 0 ==> Active(Now(), email) && Record(Now(), email).attempts == Some(r)
      ensures r == -1 ==> !Active(Now(), email)
                          || forall a :: 0 <= a <= 5 ==> Record(Now(), email).attempts != Some(a)
    {
      hide UserKey;
      if email == "" {
        return -1;
      }
      var active := IsActive(email);
      if !active {
        return -1;
      }
      var a := users[UserKey(email)].attempts;
      if a.None? {
        return -1;
      }
      if a.value >= 0 && a.value <= MAX_LOGIN_ATTEMPTS {
        return a.value;
      }
      return -1;
    }

    /** attempts(email, count): the count that is read next, or -1 and nothing changed. */
    method PutAttempts(email: string, count: int) returns (r: int)
      modifies this`users
      ensures (Now(), r) == SetAttempts(old(Now()), email, count)
      ensures r != -1 ==> r == count == Attempts(Now(), email) && OnlyTouches(old(Now()), Now(), email)
      ensures r != -1 ==> Record(Now(), email).password == Record(old(Now()), email).password
      ensures r == -1 ==> Now() == old(Now())
      ensures r == -1 <==> !(0 <= count <= 5 && Active(old(Now()), email)
                             && Record(old(Now()), email).attempts.Some?)
    {
      hide UserKey;
      if email == "" {
        return -1;
      }
      if count < 0 || count > MAX_LOGIN_ATTEMPTS {
        return -1;
      }
      var active := IsActive(email);
      if !active {
        return -1;
      }
      var k := UserKey(email);
      if users[k].attempts.None? {
        return -1;
      }
      users := users[k := users[k].(attempts := Some(count))];
      return count;
    }

    /** block(email, flag): the account is locked or open, its counter and password as they were. */
    method SetBlock(email: string, flag: bool) returns (r: bool)
      modifies this`users
      ensures (Now(), r) == Block(old(Now()), email, flag)
      ensures r == Known(old(Now()), email) && OnlyTouches(old(Now()), Now(), email)
      ensures r ==> Blocked(Now(), email) == flag && Active(Now(), email) == !flag
      ensures r ==> Record(Now(), email).attempts == Record(old(Now()), email).attempts
                    && Record(Now(), email).password == Record(old(Now()), email).password
    {
      hide UserKey;
      if email == "" || UserKey(email) !in users {
        return false;
      }
      var k := UserKey(email);
      users := users[k := users[k].(status := if flag then 2 else 1)];
      return true;
    }

    /** authorize: false unless the account is active, and then the comparison of two hashes. */
    method AuthorizeUser(email: string, password: seq<Byte>) returns (r: Outcome<bool>)
      ensures r == Authorize(config, Now(), email, password)
      ensures r == if !Active(Now(), email) || !config.bcrypt || !Comparable(Record(Now(), email)) then Returned(false)
                   else match HashPassword(config, password, Record(Now(), email).password.value)
                        case Threw => Threw
                        case Returned(h) => Returned(Some(h) == Record(Now(), email).password)
      ensures r != Returned(false) ==> Active(Now(), email) && Record(Now(), email).password.Some?
      ensures config.bcrypt && Active(Now(), email) && Record(Now(), email).password.Some?
              && Bcrypted(Record(Now(), email).password.value) ==>
        (r == Returned(true) <==> var h := Record(Now(), email).password.value;
                                  HashPassword(config, password, h) == Returned(h))
    {
      hide UserKey, HashPassword;
      if Known(Now(), email) {
        VerdictIs(config, Record(Now(), email), password);
      }
      if config.bcrypt && Active(Now(), email) && Record(Now(), email).password.Some?
         && Bcrypted(Record(Now(), email).password.value) {
        OnlySameHashPasses(config, Record(Now(), email), password);
      }
      if email == "" || UserKey(email) !in users {
        return Returned(false);
      }
      var v := users[UserKey(email)];
      if v.status != 1 {
        return Returned(false);
      }
      var stored := v.password.GetOr([]);
      if stored == [] {
        return Returned(false);
      }
      if !config.bcrypt {
        return Returned(false);
      }
      if !Bcrypted(stored) {
        return Returned(false);
      }
      var h := HashPassword(config, password, stored);
      if h.Threw? {
        return Threw;
      }
      return Returned(h.value == stored);
    }

    /** check: the lock of the account turns as the verdict says, and no other record changes. */
    method CheckUser(email: string, password: seq<Byte>) returns (r: Outcome<bool>)
      modifies this`users
      ensures (Now(), r) == Check(config, old(Now()), email, password)
      ensures !Active(old(Now()), email) ==> Now() == old(Now()) && r == Returned(false)
      ensures OnlyTouches(old(Now()), Now(), email)
      ensures Known(old(Now()), email) && Counting(Record(old(Now()), email)) ==>
        Turned(config, Record(old(Now()), email), password, Now(), email)
      ensures Active(old(Now()), email) ==> r == Verdict(config, Record(old(Now()), email), password)
      ensures forall a :: r == Returned(false) && Active(old(Now()), email)
                          && Record(old(Now()), email).attempts == Some(a) && 0 <= a <= 3 ==>
                Active(Now(), email) && Record(Now(), email) == Record(old(Now()), email).(attempts := Some(a + 1))
      ensures r == Returned(false) && Active(old(Now()), email) && Record(old(Now()), email).attempts == Some(4) ==>
                Blocked(Now(), email) && Record(Now(), email) == Record(old(Now()), email).(status := 2)
      ensures r == Returned(true) && Record(old(Now()), email).attempts.Some? ==>
                Active(Now(), email) && Record(Now(), email) == Record(old(Now()), email).(attempts := Some(0))
    {
      hide UserKey, Verdict, Turned, Counting, OnlyTouches;
      CheckTouches(config, Now(), email, password);
      if Active(Now(), email) {
        CheckCounts(config, Now(), email, password);
      }
      if Known(Now(), email) && Counting(Record(Now(), email)) {
        CheckTurned(config, Now(), email, password);
      }
      var active := IsActive(email);
      if !active {
        return Returned(false);
      }
      var authorized := AuthorizeUser(email, password);
      if authorized.Threw? {
        return Threw;
      }
      if authorized.value {
        var _ := PutAttempts(email, 0);
        return Returned(true);
      }
      var count := GetAttempts(email);
      if count < 0 {
        return Returned(false);
      }
      count := count + 1;
      if count >= MAX_LOGIN_ATTEMPTS {
        var _ := SetBlock(email, true);
      } else {
        var _ := PutAttempts(email, count);
      }
      return Returned(false);
    }

    /** create: a new, closed account and the hash that opens it, or the empty string and nothing changed. */
    method CreateUser(email: string, password: seq<Byte>, name: string, entropy: Option<seq<Byte>>, digest: string)
      returns (r: Outcome<string>)
      modifies this
      ensures (Now(), r) == Create(config, old(Now()), email, password, name, entropy, digest)
      ensures r == if email == "" || Known(old(Now()), email) || !config.bcrypt then Returned("")
                   else if password == [] || (GoodRounds(config.rounds) && Enough(entropy)) then Returned("0" + digest)
                   else Threw
      ensures r.Threw? || r.value == "" ==> Now() == old(Now())
      ensures r.Returned? && r.value != "" ==>
        && !Known(old(Now()), email) && Known(Now(), email) && !Active(Now(), email) && !Blocked(Now(), email)
        && OnlyTouches(old(Now()), Now(), email) && hashes == old(hashes)[r.value := email]
    {
      hide UserKey, HashPassword, Salt;
      CreateAnswers(config, Now(), email, password, name, entropy, digest);
      if email == "" {
        return Returned("");
      }
      if UserKey(email) in users {
        return Returned("");
      }
      if !config.bcrypt {
        return Returned("");
      }
      var salt := Salt(config.rounds, entropy);
      var gen := HashPassword(config, password, salt);
      if gen.Threw? {
        return Threw;
      }
      var hash := "0" + digest;
      users := users[UserKey(email) := User(Some(gen.value), Some(name), 0, Some(0))];
      hashes := hashes[hash := email];
      return Returned(hash);
    }

    /** password(email, newpassword): the account is open with counter 0, even if it was locked; with a salt, the new
        password is the one that passes. */
    method ResetPassword(email: string, password: seq<Byte>, entropy: Option<seq<Byte>>) returns (r: Outcome<bool>)
      modifies this`users
      ensures (Now(), r) == Reset(config, old(Now()), email, password, entropy)
      ensures OnlyTouches(old(Now()), Now(), email)
      ensures r == Returned(true) <==> Known(old(Now()), email) && config.bcrypt
                                       && (password == [] || (GoodRounds(config.rounds) && Enough(entropy)))
      ensures r == Returned(false) <==> !Known(old(Now()), email) || !config.bcrypt
      ensures r == Returned(true) ==> Active(Now(), email) && Attempts(Now(), email) == 0
      ensures r == Returned(true) ==> (Check(config, Now(), email, password).1 == Returned(true)
                                       <==> GoodRounds(config.rounds) && Enough(entropy))
      ensures r != Returned(true) ==> Now() == old(Now())
    {
      hide UserKey, HashPassword, Salt, Check, GoodRounds, Enough;
      ResetAnswers(config, Now(), email, password, entropy);
      if email == "" || UserKey(email) !in users {
        return Returned(false);
      }
      if !config.bcrypt {
        return Returned(false);
      }
      var gen := HashPassword(config, password, Salt(config.rounds, entropy));
      if gen.Threw? {
        return Threw;
      }
      var k := UserKey(email);
      ResetThenLogin(config, Now(), email, password, entropy);
      users := users[k := users[k].(password := Some(gen.value), attempts := Some(0), status := 1)];
      return Returned(true);
    }

    /** password(email, oldpassword, newpassword): the lock turns as for check; with a salt, the new password passes. */
    method ChangePassword(email: string, was: seq<Byte>, password: seq<Byte>, entropy: Option<seq<Byte>>)
      returns (r: Outcome<bool>)
      modifies this`users
      ensures (Now(), r) == Change(config, old(Now()), email, was, password, entropy)
      ensures OnlyTouches(old(Now()), Now(), email)
      ensures Known(old(Now()), email) && Counting(Record(old(Now()), email)) ==>
        Turned(config, Record(old(Now()), email), was, Now(), email)
      ensures !Active(old(Now()), email) ==> Now() == old(Now()) && r == Returned(false)
      ensures r == Returned(true)
         <==> Active(old(Now()), email) && Verdict(config, Record(old(Now()), email), was) == Returned(true)
              && (password == [] || (GoodRounds(config.rounds) && Enough(entropy)))
      ensures r == Returned(false)
         <==> !Active(old(Now()), email) || Verdict(config, Record(old(Now()), email), was) == Returned(false)
      ensures r == Returned(true) ==> Active(Now(), email) && Attempts(Now(), email) == 0
      ensures r == Returned(true) ==> (Check(config, Now(), email, password).1 == Returned(true)
                                       <==> GoodRounds(config.rounds) && Enough(entropy))
    {
      hide UserKey, HashPassword, Salt, Check, Turned, Counting, OnlyTouches, GoodRounds, Enough;
      ghost var st := Now();
      ChangeAnswers(config, st, email, was, password, entropy);
      ChangeTouches(config, st, email, was, password, entropy);
      if !Active(st, email) {
        InactiveUnchanged(config, st, email, was, "", password, entropy);
      }
      if Known(st, email) && Counting(Record(st, email)) {
        ChangeTurned(config, st, email, was, password, entropy);
      }
      r := CheckUser(email, was);
      if r.Threw? {
        return Threw;
      }
      if !r.value {
        return Returned(false);
      }
      if !config.bcrypt {
        return Returned(false);
      }
      var gen := HashPassword(config, password, Salt(config.rounds, entropy));
      if gen.Threw? {
        return Threw;
      }
      var k := UserKey(email);
      if email == "" || k !in users {
        return Returned(false);
      }
      ChangeThenLogin(config, st, email, was, password, entropy);
      users := users[k := users[k].(password := Some(gen.value), attempts := Some(0))];
      return Returned(true);
    }

    /** name(email, password, name): the lock turns as for check. */
    method ChangeName(email: string, password: seq<Byte>, name: string) returns (r: Outcome<bool>)
      modifies this`users
      ensures (Now(), r) == Rename(config, old(Now()), email, password, name)
      ensures OnlyTouches(old(Now()), Now(), email)
      ensures Known(old(Now()), email) && Counting(Record(old(Now()), email)) ==>
        Turned(config, Record(old(Now()), email), password, Now(), email)
      ensures !Active(old(Now()), email) ==> Now() == old(Now()) && r == Returned(false)
      ensures Active(old(Now()), email) ==> r == Verdict(config, Record(old(Now()), email), password)
      ensures r == Returned(true) ==> Known(Now(), email) && Record(Now(), email).name == Some(name)
    {
      hide UserKey, Check, Verdict, Turned, Counting, OnlyTouches;
      ghost var st := Now();
      RenameAnswers(config, st, email, password, name);
      RenameTouches(config, st, email, password, name);
      if !Active(st, email) {
        InactiveUnchanged(config, st, email, password, name, [], None);
      }
      if email == "" || UserKey(email) !in users {
        return Returned(false);
      }
      if Counting(Record(st, email)) {
        RenameTurned(config, st, email, password, name);
      }
      r := CheckUser(email, password);
      if r.Threw? {
        return Threw;
      }
      if !r.value {
        return Returned(false);
      }
      var k := UserKey(email);
      if k !in users {
        return Returned(false);
      }
      users := users[k := users[k].(name := Some(name))];
      return Returned(true);
    }

    /** verify: the e-mail of an account that is active now; a blocked one stays blocked. */
    method VerifyHash(hash: string) returns (r: string)
      modifies this`users
      ensures (Now(), r) == Verify(old(Now()), hash)
      ensures r != "" <==> hash in hashes && Known(old(Now()), hashes[hash])
                           && (Record(old(Now()), hashes[hash]).status == 0 || Active(old(Now()), hashes[hash]))
      ensures r != "" ==> hash in hashes && hashes[hash] == r && Active(Now(), r) && !Blocked(old(Now()), r)
      ensures r != "" ==> OnlyTouches(old(Now()), Now(), r) && Now() == SetActive(old(Now()), r, true)
      ensures r == "" ==> Now() == old(Now())
    {
      hide UserKey;
      var email := if hash in hashes then hashes[hash] else "";
      if email == "" || UserKey(email) !in users {
        return "";
      }
      var status := users[UserKey(email)].status;
      if status == 0 {
        Activate(email, true);
        return email;
      }
      if status == 1 {
        assert users == users[UserKey(email) := users[UserKey(email)].(status := 1)];
        return email;
      }
      return "";
    }
  }
}
