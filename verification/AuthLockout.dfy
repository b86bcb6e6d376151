/** The lockout of an account over whole runs of calls on all accounts. */
module AuthLockout {
  import opened Words
  import opened AuthModel

  /** An account that can be logged into, or is locked, after so many failures. */
  datatype Lock = Open(fails: nat) | Locked(fails: nat)

  predicate Counting(u: User) {
    (u.status == 1 || u.status == 2) && u.attempts.Some? && 0 <= u.attempts.value <= 5
  }

  function LockOf(u: User): Lock
    requires Counting(u)
  {
    if u.status == 1 then Open(u.attempts.value) else Locked(u.attempts.value)
  }

  /** What one verdict on a password does to the lock. */
  function Turn(l: Lock, passed: bool): Lock {
    match l
    case Locked(_) => l
    case Open(a) =>
      if passed then Open(0) else if a >= 4 then Locked(a) else Open(a + 1)
  }

  function Turns(l: Lock, verdicts: seq<bool>): Lock
    decreases |verdicts|
  {
    if verdicts == [] then l else Turns(Turn(l, verdicts[0]), verdicts[1..])
  }

  /** The calls of AuthData that change a table. */
  datatype Op =
    | CheckOp(email: string, password: seq<Byte>)
    | ChangeOp(email: string, was: seq<Byte>, password: seq<Byte>, entropy: Option<seq<Byte>>)
    | RenameOp(email: string, password: seq<Byte>, name: string)
    | CreateOp(email: string, password: seq<Byte>, name: string, entropy: Option<seq<Byte>>, digest: string)
    | ResetOp(email: string, password: seq<Byte>, entropy: Option<seq<Byte>>)
    | BlockOp(email: string, flag: bool)
    | ActivateOp(email: string, flag: bool)
    | AttemptsOp(email: string, count: int)
    | VerifyOp(hash: string)

  function Step(c: Config, st: State, op: Op): State {
    match op
    case CheckOp(e, p) => Check(c, st, e, p).0
    case ChangeOp(e, w, p, x) => Change(c, st, e, w, p, x).0
    case RenameOp(e, p, n) => Rename(c, st, e, p, n).0
    case CreateOp(e, p, n, x, d) => Create(c, st, e, p, n, x, d).0
    case ResetOp(e, p, x) => Reset(c, st, e, p, x).0
    case BlockOp(e, flag) => Block(st, e, flag).0
    case ActivateOp(e, flag) => if e == "" then st else SetActive(st, e, flag)
    case AttemptsOp(e, n) => SetAttempts(st, e, n).0
    case VerifyOp(h) => Verify(st, h).0
  }

  function Run(c: Config, st: State, ops: seq<Op>): State
    decreases |ops|
  {
    if ops == [] then st else Run(c, Step(c, st, ops[0]), ops[1..])
  }

  /** Whether a call leaves the lock of account `k` to its password checks: it does not reset, block, activate or set
      the counter of that account. Calls on other accounts are free. */
  predicate Steady(op: Op, k: string) {
    (op.ResetOp? || op.BlockOp? || op.ActivateOp? || op.AttemptsOp?) ==> UserKey(op.email) != k
  }

  /** The verdicts that a call gives on passwords of account `k`: one for check and for the two calls that start with
      one, none where the hash throws. */
  function Verdicts(c: Config, st: State, op: Op, k: string): seq<bool>
    requires k in st.users
  {
    if !(op.CheckOp? || op.ChangeOp? || op.RenameOp?) || op.email == "" || UserKey(op.email) != k then []
    else
      match Verdict(c, st.users[k], if op.ChangeOp? then op.was else op.password)
      case Threw => []
      case Returned(b) => [b]
  }

  function RunVerdicts(c: Config, st: State, ops: seq<Op>, k: string): seq<bool>
    requires k in st.users
    decreases |ops|
  {
    if ops == [] || k !in Step(c, st, ops[0]).users then []
    else Verdicts(c, st, ops[0], k) + RunVerdicts(c, Step(c, st, ops[0]), ops[1..], k)
  }

  /** A check of an account that is not active is false and changes nothing. */
  lemma InactiveUnchanged(c: Config, st: State, email: string, p: seq<Byte>, n: string, w: seq<Byte>,
                          x: Option<seq<Byte>>)
    requires !Active(st, email)
    ensures Check(c, st, email, p) == (st, Returned(false))
    ensures Change(c, st, email, p, w, x) == (st, Returned(false))
    ensures Rename(c, st, email, p, n) == (st, Returned(false))
  {
  }

  /** A check that succeeds says so and sets the counter to 0; one that fails counts or locks. */
  lemma CheckTurns(c: Config, st: State, email: string, p: seq<Byte>)
    requires Known(st, email) && Counting(Record(st, email))
    ensures var u, (after, r) := Record(st, email), Check(c, st, email, p);
            && after.users.Keys == st.users.Keys
            && (forall k :: k in st.users && k != UserKey(email) ==> after.users[k] == st.users[k])
            && after.hashes == st.hashes
            && (match Verdict(c, u, p)
                case Threw => (after, r) == (st, Threw)
                case Returned(b) =>
                  && r == Returned(b)
                  && Record(after, email) == (match Turn(LockOf(u), b)
                                              case Open(a) => u.(status := 1, attempts := Some(a))
                                              case Locked(a) => u.(status := 2, attempts := Some(a))))
  {
    hide HashPassword;
  }

  predicate Keeps(st: State, after: State, k: string) {
    k in st.users && k in after.users && after.users[k] == st.users[k]
  }

  lemma CheckTouches(c: Config, st: State, email: string, p: seq<Byte>)
    ensures OnlyTouches(st, Check(c, st, email, p).0, email)
    ensures email == "" ==> Check(c, st, email, p).0 == st
  {
    hide HashPassword, Verdict, UserKey;
  }

  lemma PutTouches(st: State, after: State, email: string, u: User)
    requires OnlyTouches(st, after, email)
    ensures OnlyTouches(st, PutRecord(after, email, u), email)
  {
    hide UserKey;
  }

  lemma ChangeTouches(c: Config, st: State, email: string, w: seq<Byte>, p: seq<Byte>, x: Option<seq<Byte>>)
    ensures OnlyTouches(st, Change(c, st, email, w, p, x).0, email)
    ensures email == "" ==> Change(c, st, email, w, p, x).0 == st
  {
    CheckTouches(c, st, email, w);
    var h := ChangeIs(c, st, email, w, p, x);
    var checked := Check(c, st, email, w).0;
    if Known(checked, email) {
      PutTouches(st, checked, email, Record(checked, email).(password := Some(h), attempts := Some(0)));
    }
    hide HashPassword, Check, Change, UserKey, OnlyTouches, PutRecord;
  }

  lemma RenameTouches(c: Config, st: State, email: string, p: seq<Byte>, n: string)
    ensures OnlyTouches(st, Rename(c, st, email, p, n).0, email)
    ensures email == "" ==> Rename(c, st, email, p, n).0 == st
  {
    hide HashPassword, Check, UserKey, OnlyTouches, PutRecord;
    CheckTouches(c, st, email, p);
    NothingTouched(st, email);
    var checked := Check(c, st, email, p).0;
    if Known(checked, email) {
      PutTouches(st, checked, email, Record(checked, email).(name := Some(n)));
    }
  }

  lemma NothingTouched(st: State, email: string)
    ensures OnlyTouches(st, st, email)
  {
    hide UserKey;
  }

  lemma ElsewhereKept(st: State, after: State, email: string, k: string)
    requires OnlyTouches(st, after, email) && k in st.users && k != UserKey(email)
    ensures Keeps(st, after, k)
  {
    hide UserKey;
  }

  lemma OtherElsewhere(c: Config, st: State, op: Op, k: string)
    requires k in st.users && Counting(st.users[k]) && Steady(op, k)
    requires !(op.CheckOp? || op.ChangeOp? || op.RenameOp?)
    ensures Keeps(st, Step(c, st, op), k)
  {
    hide HashPassword, UserKey;
  }

  /** The lock of the account has turned as the verdict on `p` says. */
  predicate Turned(c: Config, u: User, p: seq<Byte>, after: State, email: string)
    requires Counting(u)
  {
    && Known(after, email) && Counting(Record(after, email))
    && LockOf(Record(after, email)) == match Verdict(c, u, p)
                                       case Threw => LockOf(u)
                                       case Returned(b) => Turn(LockOf(u), b)
  }

  lemma CheckTurned(c: Config, st: State, email: string, p: seq<Byte>)
    requires Known(st, email) && Counting(Record(st, email))
    ensures Turned(c, Record(st, email), p, Check(c, st, email, p).0, email)
    ensures Check(c, st, email, p).1 == Returned(true) ==> Record(Check(c, st, email, p).0, email).attempts == Some(0)
  {
    CheckTurns(c, st, email, p);
    hide HashPassword, Check, UserKey, Verdict;
  }

  /** Neither the password nor the name is part of the lock. */
  lemma OtherFieldsFree(c: Config, u: User, p: seq<Byte>, st: State, email: string, v: User)
    requires Counting(u) && Turned(c, u, p, st, email)
    requires v.status == Record(st, email).status && v.attempts == Record(st, email).attempts
    ensures Turned(c, u, p, PutRecord(st, email, v), email)
  {
    hide Verdict, Turn, UserKey;
  }

  lemma ChangeIs(c: Config, st: State, email: string, w: seq<Byte>, p: seq<Byte>, x: Option<seq<Byte>>)
      returns (h: seq<Byte>)
    ensures var (checked, r) := Check(c, st, email, w);
            var after := Change(c, st, email, w, p, x).0;
            || after == checked
            || (r == Returned(true) && Known(checked, email)
                && after == PutRecord(checked, email,
                                      Record(checked, email).(password := Some(h), attempts := Some(0))))
  {
    var gen := HashPassword(c, p, Salt(c.rounds, x));
    hide Check, HashPassword, Salt, UserKey;
    h := if gen.Returned? then gen.value else [];
  }

  lemma RenameIs(c: Config, st: State, email: string, p: seq<Byte>, n: string)
    requires Known(st, email)
    ensures var checked := Check(c, st, email, p).0;
            var after := Rename(c, st, email, p, n).0;
            || after == checked
            || (Known(checked, email) && after == PutRecord(checked, email, Record(checked, email).(name := Some(n))))
  {
    hide Check, UserKey;
  }

  /** change turns the lock as the check that it starts with. */
  lemma ChangeTurned(c: Config, st: State, email: string, w: seq<Byte>, p: seq<Byte>, x: Option<seq<Byte>>)
    requires Known(st, email) && Counting(Record(st, email))
    ensures Turned(c, Record(st, email), w, Change(c, st, email, w, p, x).0, email)
  {
    hide *;
    CheckTurned(c, st, email, w);
    var h := ChangeIs(c, st, email, w, p, x);
    var checked := Check(c, st, email, w).0;
    if Change(c, st, email, w, p, x).0 != checked {
      OtherFieldsFree(c, Record(st, email), w, checked, email,
                      Record(checked, email).(password := Some(h), attempts := Some(0)));
    }
  }

  /** And so does name. */
  lemma RenameTurned(c: Config, st: State, email: string, p: seq<Byte>, n: string)
    requires Known(st, email) && Counting(Record(st, email))
    ensures Turned(c, Record(st, email), p, Rename(c, st, email, p, n).0, email)
  {
    hide *;
    CheckTurned(c, st, email, p);
    RenameIs(c, st, email, p, n);
    var checked := Check(c, st, email, p).0;
    if Rename(c, st, email, p, n).0 != checked {
      OtherFieldsFree(c, Record(st, email), p, checked, email, Record(checked, email).(name := Some(n)));
    }
  }

  lemma OneTurn(l: Lock, b: bool)
    ensures Turns(l, [b]) == Turn(l, b) && Turns(l, []) == l
  {
    assert [b][1..] == [];
  }

  /** A call on one account leaves the others alone; the lock of account `k` turns with the verdicts of its checks. */
  lemma StepTurns(c: Config, st: State, op: Op, k: string)
    requires k in st.users && Counting(st.users[k]) && Steady(op, k)
    ensures var after := Step(c, st, op);
            && k in after.users && Counting(after.users[k])
            && LockOf(after.users[k]) == Turns(LockOf(st.users[k]), Verdicts(c, st, op, k))
  {
    hide HashPassword, UserKey, Verdict, Check, Change, Rename, Turn, Turns, Counting, LockOf, OnlyTouches;
    OneTurn(LockOf(st.users[k]), true);
    OneTurn(LockOf(st.users[k]), false);
    if !(op.CheckOp? || op.ChangeOp? || op.RenameOp?) {
      OtherElsewhere(c, st, op, k);
    } else if op.email == "" || UserKey(op.email) != k {
      match op {
        case CheckOp(e, p) => CheckTouches(c, st, e, p);
        case ChangeOp(e, w, p, x) => ChangeTouches(c, st, e, w, p, x);
        case RenameOp(e, p, n) => RenameTouches(c, st, e, p, n);
      }
      if op.email != "" {
        ElsewhereKept(st, Step(c, st, op), op.email, k);
      }
    } else {
      match op
      case CheckOp(e, p) => CheckTurned(c, st, e, p);
      case ChangeOp(e, w, p, x) => ChangeTurned(c, st, e, w, p, x);
      case RenameOp(e, p, n) => RenameTurned(c, st, e, p, n);
    }
  }

  lemma {:induction false} TurnsAppend(l: Lock, v: seq<bool>, w: seq<bool>)
    ensures Turns(l, v + w) == Turns(Turns(l, v), w)
    decreases |v|
  {
    if v == [] {
      assert v + w == w;
    } else {
      assert (v + w)[1..] == v[1..] + w;
      TurnsAppend(Turn(l, v[0]), v[1..], w);
    }
  }

  /** Over every run that is steady for an account, whatever happens to the others, its lock is what the verdicts on
      its passwords make of it. */
  lemma {:induction false} RunTurns(c: Config, st: State, ops: seq<Op>, k: string)
    requires k in st.users && Counting(st.users[k]) && forall i :: 0 <= i < |ops| ==> Steady(ops[i], k)
    ensures var last := Run(c, st, ops);
            && k in last.users && Counting(last.users[k])
            && LockOf(last.users[k]) == Turns(LockOf(st.users[k]), RunVerdicts(c, st, ops, k))
    decreases |ops|
  {
    hide Counting, LockOf, Steady, Step, Verdicts;
    if ops == [] {
      OneTurn(LockOf(st.users[k]), true);
    } else {
      StepTurns(c, st, ops[0], k);
      var next := Step(c, st, ops[0]);
      RunTurns(c, next, ops[1..], k);
      TurnsAppend(LockOf(st.users[k]), Verdicts(c, st, ops[0], k), RunVerdicts(c, next, ops[1..], k));
      hide Turns;
    }
  }

  /** From `i` on, `j - i` failures in a row, enough to lock: five, or those left over at the start. */
  predicate LockingStreak(a: nat, verdicts: seq<bool>, i: nat, j: nat) {
    && i < j <= |verdicts| && (forall m :: i <= m < j ==> !verdicts[m])
    && j - i + (if i == 0 then a else 0) >= 5
  }

  lemma {:induction false} StreakLocks(a: nat, verdicts: seq<bool>, i: nat, j: nat)
    requires LockingStreak(a, verdicts, i, j)
    ensures Turns(Open(a), verdicts).Locked?
    decreases |verdicts|
  {
    var next := Turn(Open(a), verdicts[0]);
    if next.Locked? {
      LockedStays(next, verdicts[1..]);
    } else if i == 0 {
      StreakLocks(next.fails, verdicts[1..], 0, j - 1);
    } else {
      StreakLocks(next.fails, verdicts[1..], i - 1, j - 1);
    }
  }

  lemma {:induction false} LockedStays(l: Lock, verdicts: seq<bool>)
    requires l.Locked?
    ensures Turns(l, verdicts) == l
    decreases |verdicts|
  {
    if verdicts != [] {
      LockedStays(l, verdicts[1..]);
    }
  }

  lemma {:induction false} FindStreak(a: nat, verdicts: seq<bool>) returns (i: nat, j: nat)
    requires Turns(Open(a), verdicts).Locked?
    ensures LockingStreak(a, verdicts, i, j)
    decreases |verdicts|
  {
    var next := Turn(Open(a), verdicts[0]);
    if next.Locked? {
      return 0, 1;
    }
    i, j := FindStreak(next.fails, verdicts[1..]);
    if i == 0 && !verdicts[0] {
      j := j + 1;
    } else {
      i, j := i + 1, j + 1;
    }
  }

  /** An open account with `a` failures is locked after some verdicts exactly when five failures came in a row, or
      5 - a at the start. */
  lemma LockedIffStreak(a: nat, verdicts: seq<bool>)
    ensures Turns(Open(a), verdicts).Locked? <==> exists i, j :: LockingStreak(a, verdicts, i, j)
  {
    if Turns(Open(a), verdicts).Locked? {
      var i, j := FindStreak(a, verdicts);
    }
    forall i, j | LockingStreak(a, verdicts, i, j)
      ensures Turns(Open(a), verdicts).Locked?
    {
      StreakLocks(a, verdicts, i, j);
    }
  }

  /** `n` failures in a row: the counter runs up to 4 and the fifth failure locks, leaving it at 4. */
  lemma {:induction false} FailuresCount(a: nat, n: nat)
    requires a <= 4
    ensures Turns(Open(a), seq(n, _ => false))
         == if a + n <= 4 then Open(a + n) else Locked(4)
    decreases n
  {
    var v := seq(n, _ => false);
    if n > 0 {
      var rest := seq(n - 1, _ => false);
      assert v[1..] == rest;
      if a < 4 {
        FailuresCount(a + 1, n - 1);
      } else {
        LockedStays(Locked(a), rest);
      }
    }
  }

  /** In any steady run of an account that is open with counter 0, four failures and no other verdict leave it open
      with counter 4; five lock it. */
  lemma FiveFailuresLock(c: Config, st: State, ops: seq<Op>, k: string)
    requires k in st.users && st.users[k].status == 1 && st.users[k].attempts == Some(0)
    requires forall i :: 0 <= i < |ops| ==> Steady(ops[i], k)
    ensures k in Run(c, st, ops).users
    ensures var v, u := RunVerdicts(c, st, ops, k), Run(c, st, ops).users[k];
            && (v == [false, false, false, false] ==> u.status == 1 && u.attempts == Some(4))
            && (v == [false, false, false, false, false] ==> u.status == 2 && u.attempts == Some(4))
  {
    RunTurns(c, st, ops, k);
    FailuresCount(0, 4);
    FailuresCount(0, 5);
    assert seq(4, _ => false) == [false, false, false, false];
    assert seq(5, _ => false) == [false, false, false, false, false];
    hide Run, RunVerdicts, Steady, Turns;
  }

  /** Unblocking keeps the counter, so an account that failures had locked is locked again by its next failure. */
  lemma UnblockKeepsCounter(c: Config, st: State, email: string, p: seq<Byte>)
    requires Known(st, email) && Counting(Record(st, email))
    ensures var (after, r) := Block(st, email, false);
            && r && Active(after, email) && Counting(Record(after, email))
            && Record(after, email) == Record(st, email).(status := 1)
            && (Verdict(c, Record(after, email), p) == Returned(false) ==>
                (Blocked(Check(c, after, email, p).0, email) <==> Record(st, email).attempts.value >= 4))
  {
  }
}
