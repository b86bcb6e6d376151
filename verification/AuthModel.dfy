/** The user accounts of auth.cpp: records in a table, and the calls that read and rewrite them. */
module AuthModel {
  import opened Words
  import opened Blowfish
  import Bcrypt

  const MAX_LOGIN_ATTEMPTS := 5

  /** A user's record; one that was made by setting its status alone has nothing else. */
  datatype User = User(password: Option<seq<Byte>>, name: Option<string>, status: int, attempts: Option<int>)

  /** The tables users and hashes, the latter with the e-mail for each hash. */
  datatype State = State(users: map<string, User>, hashes: map<string, string>)

  /** The boxes that the hash starts from, whether the method is bcrypt, and the rounds from the settings. */
  datatype Config = Config(initial: Boxes, bcrypt: bool, rounds: int)

  /** tools::replace(email, ".", "#"). */
  function UserKey(email: string): (k: string)
    ensures |k| == |email|
    ensures forall i :: 0 <= i < |k| ==> k[i] == if email[i] == '.' then '#' else email[i]
  {
    if email == "" then "" else [if email[0] == '.' then '#' else email[0]] + UserKey(email[1..])
  }

  /** Whether get_user succeeds. */
  predicate Known(st: State, email: string) {
    email != "" && UserKey(email) in st.users
  }

  function Record(st: State, email: string): User
    requires Known(st, email)
  {
    st.users[UserKey(email)]
  }

  function PutRecord(st: State, email: string, u: User): State {
    st.(users := st.users[UserKey(email) := u])
  }

  /** No record but that of `email` is made, lost or changed. */
  ghost predicate OnlyTouches(st: State, after: State, email: string) {
    forall k :: k != UserKey(email) ==>
      (k in after.users <==> k in st.users) && (k in st.users ==> after.users[k] == st.users[k])
  }

  /** bcrypt_hash: crypt_ra's NULL, made a string, throws. */
  function HashPassword(c: Config, key: seq<Byte>, setting: seq<Byte>): Outcome<seq<Byte>> {
    if key == [] && setting == [] then Returned([])
    else
      match Bcrypt.Crypt(c.initial, key, setting, 61, 16)
      case Hash(text) => Returned(text)
      case Refused(_) => Threw
  }

  /** bcrypt_salt: empty without 16 bytes of entropy or with rounds that are refused. */
  function Salt(rounds: int, entropy: Option<seq<Byte>>): seq<Byte> {
    if entropy.None? || |entropy.value| < 16 || rounds < 0 then []
    else
      match Bcrypt.Gensalt(rounds, entropy.value, 16, 30)
      case Hash(text) => text
      case Refused(_) => []
  }

  predicate Active(st: State, email: string) {
    Known(st, email) && Record(st, email).status == 1
  }

  /** active(email, flag): sets the status of a record, or makes one that has nothing else. */
  function SetActive(st: State, email: string, flag: bool): State
    requires email != ""
  {
    var status := if flag then 1 else 0;
    var u := if Known(st, email) then Record(st, email).(status := status) else User(None, None, status, None);
    PutRecord(st, email, u)
  }

  /** attempts(email): -1 for an account that is not active or has no proper counter. */
  function Attempts(st: State, email: string): int {
    if !Active(st, email) then -1
    else
      var a := Record(st, email).attempts;
      if a.Some? && 0 <= a.value <= MAX_LOGIN_ATTEMPTS then a.value else -1
  }

  /** attempts(email, count): a record that has no counter cannot get one. */
  function SetAttempts(st: State, email: string, count: int): (State, int) {
    if email == "" || count < 0 || count > MAX_LOGIN_ATTEMPTS || !Active(st, email) then (st, -1)
    else if Record(st, email).attempts.None? then (st, -1)
    else (PutRecord(st, email, Record(st, email).(attempts := Some(count))), count)
  }

  function Blocked(st: State, email: string): bool {
    Known(st, email) && Record(st, email).status == 2
  }

  function Block(st: State, email: string, flag: bool): (State, bool) {
    if !Known(st, email) then (st, false)
    else (PutRecord(st, email, Record(st, email).(status := if flag then 2 else 1)), true)
  }

  /** Whether a stored password is one that authorize will hash against. */
  predicate Bcrypted(stored: seq<Byte>) {
    |stored| >= 4 && stored[..4] == [0x24, 0x32, 0x61, 0x24]
  }

  /** What authorize says to a password of this record. */
  function Verdict(c: Config, u: User, password: seq<Byte>): Outcome<bool> {
    if u.status != 1 then Returned(false)
    else
      var stored := u.password.GetOr([]);
      if stored == [] || !c.bcrypt || !Bcrypted(stored) then Returned(false)
      else
        match HashPassword(c, password, stored)
        case Threw => Threw
        case Returned(h) => Returned(h == stored)
  }

  function Authorize(c: Config, st: State, email: string, password: seq<Byte>): Outcome<bool> {
    if !Known(st, email) then Returned(false) else Verdict(c, Record(st, email), password)
  }

  /** The end of check after a wrong password. */
  function Fail(st: State, email: string): State {
    var count := Attempts(st, email);
    if count < 0 then st
    else if count + 1 >= MAX_LOGIN_ATTEMPTS then Block(st, email, true).0
    else SetAttempts(st, email, count + 1).0
  }

  function Check(c: Config, st: State, email: string, password: seq<Byte>): (State, Outcome<bool>) {
    if !Active(st, email) then (st, Returned(false))
    else
      match Authorize(c, st, email, password)
      case Threw => (st, Threw)
      case Returned(good) =>
        if good then (SetAttempts(st, email, 0).0, Returned(true)) else (Fail(st, email), Returned(false))
  }

  /** create: the account's verification hash, or the empty string. */
  function Create(c: Config, st: State, email: string, password: seq<Byte>, name: string,
                  entropy: Option<seq<Byte>>, digest: string): (State, Outcome<string>) {
    if email == "" || UserKey(email) in st.users || !c.bcrypt then (st, Returned(""))
    else
      match HashPassword(c, password, Salt(c.rounds, entropy))
      case Threw => (st, Threw)
      case Returned(h) =>
        var made := PutRecord(st, email, User(Some(h), Some(name), 0, Some(0)));
        (made.(hashes := made.hashes["0" + digest := email]), Returned("0" + digest))
  }

  /** password(email, newpassword): the account is unblocked too. */
  function Reset(c: Config, st: State, email: string, password: seq<Byte>, entropy: Option<seq<Byte>>)
    : (State, Outcome<bool>)
  {
    if !Known(st, email) || !c.bcrypt then (st, Returned(false))
    else
      match HashPassword(c, password, Salt(c.rounds, entropy))
      case Threw => (st, Threw)
      case Returned(h) =>
        var u := Record(st, email).(password := Some(h), attempts := Some(0), status := 1);
        (PutRecord(st, email, u), Returned(true))
  }

  /** password(email, oldpassword, newpassword). */
  function Change(c: Config, st: State, email: string, was: seq<Byte>, password: seq<Byte>, entropy: Option<seq<Byte>>)
    : (State, Outcome<bool>)
  {
    var (checked, r) := Check(c, st, email, was);
    if r != Returned(true) || !c.bcrypt then (checked, if r.Threw? then Threw else Returned(false))
    else
      match HashPassword(c, password, Salt(c.rounds, entropy))
      case Threw => (checked, Threw)
      case Returned(h) =>
        if !Known(checked, email) then (checked, Returned(false))
        else
          var u := Record(checked, email).(password := Some(h), attempts := Some(0));
          (PutRecord(checked, email, u), Returned(true))
  }

  /** name(email, password, name). */
  function Rename(c: Config, st: State, email: string, password: seq<Byte>, name: string): (State, Outcome<bool>) {
    if !Known(st, email) then (st, Returned(false))
    else
      var (checked, r) := Check(c, st, email, password);
      if r != Returned(true) || !Known(checked, email) then (checked, if r.Threw? then Threw else Returned(false))
      else (PutRecord(checked, email, Record(checked, email).(name := Some(name))), Returned(true))
  }

  /** verify: a new account becomes active; one that is active stays so; a blocked one stays blocked. */
  function Verify(st: State, hash: string): (State, string) {
    var email := if hash in st.hashes then st.hashes[hash] else "";
    if !Known(st, email) then (st, "")
    else if Record(st, email).status == 0 then (SetActive(st, email, true), email)
    else if Record(st, email).status == 1 then (st, email)
    else (st, "")
  }
}
