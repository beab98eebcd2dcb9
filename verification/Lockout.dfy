/** Logins and the lockout policy of auth/service.py over a store of users. */
module Lockout {
  import opened Models

  const MAX_FAILED_ATTEMPTS := 5
  const LOCKOUT_DURATION: int := Seconds(15 * 60)

  datatype Role = Admin | Analyst

  datatype User = User(
    username: string,
    passwordHash: string,
    role: Role,
    failedAttempts: nat,
    lockedUntil: Option<Instant>)

  type Store = map<string, User>

  datatype CreateResult = Created | EmptyUsername | WeakPassword | AlreadyExists

  datatype LoginResult = LoggedIn(username: string, role: Role) | Locked(until: Instant) | Invalid

  /** `verify_password(password, password_hash)`, which the lockout never looks inside. */
  type Verifier = (string, string) -> bool

  predicate IsSpace(c: char) {
    9 <= c as int <= 13 || 28 <= c as int <= 32 || c as int == 133 || c as int == 160
  }

  /** Python's `strip()`. */
  function Strip(s: string): string {
    if s == [] then []
    else if IsSpace(s[0]) then Strip(s[1..])
    else if IsSpace(s[|s| - 1]) then Strip(s[..|s| - 1])
    else s
  }

  /** What stripping leaves: the rest is white space on either side, and it neither starts nor ends
      with any. Nothing else has these properties. */
  lemma {:induction false} StripIsExact(s: string) returns (before: string, after: string)
    ensures s == before + Strip(s) + after && AllSpace(before) && AllSpace(after)
    ensures Trimmed(Strip(s))
  {
    hide IsSpace;
    before, after := [], [];
    if s != [] {
      hide Trimmed;
      if IsSpace(s[0]) {
        before, after := StripIsExact(s[1..]);
        SplitFirst(s, before, Strip(s[1..]), after);
        before := [s[0]] + before;
      } else if IsSpace(s[|s| - 1]) {
        before, after := StripIsExact(s[..|s| - 1]);
        SplitLast(s, before, Strip(s[..|s| - 1]), after);
        after := after + [s[|s| - 1]];
      } else {
        TrimmedAlready(s);
      }
    }
  }

  lemma SplitFirst(s: string, a: string, b: string, c: string)
    requires s != [] && s[1..] == a + b + c
    ensures s == [s[0]] + a + b + c
  {
    assert s == [s[0]] + s[1..];
  }

  lemma SplitLast(s: string, a: string, b: string, c: string)
    requires s != [] && s[..|s| - 1] == a + b + c
    ensures s == a + b + (c + [s[|s| - 1]])
  {
    assert s == s[..|s| - 1] + [s[|s| - 1]];
  }

  lemma TrimmedAlready(s: string)
    requires s != [] && !IsSpace(s[0]) && !IsSpace(s[|s| - 1])
    ensures Trimmed(s)
  {
  }

  ghost predicate AllSpace(s: string) {
    forall c | c in s :: IsSpace(c)
  }

  ghost predicate Trimmed(s: string) {
    s != [] ==> !IsSpace(s[0]) && !IsSpace(s[|s| - 1])
  }

  lemma {:induction false} StripIsUnique(before: string, core: string, after: string)
    requires AllSpace(before) && AllSpace(after) && Trimmed(core)
    ensures Strip(before + core + after) == core
    decreases |before| + |after|
  {
    hide IsSpace;
    var s := before + core + after;
    if before != [] {
      assert s[0] == before[0] && s[0] in before && s[1..] == before[1..] + core + after;
      StripIsUnique(before[1..], core, after);
    } else if after != [] {
      var n := |after| - 1;
      assert after[n] in after && s[|s| - 1] == after[n] && s[..|s| - 1] == core + after[..n];
      StripIsUnique([], core, after[..n]);
      assert [] + core + after[..n] == core + after[..n];
      if core == [] {
        NothingButSpace(s);
      }
    } else {
      assert s == core;
    }
  }

  lemma {:induction false} NothingButSpace(s: string)
    requires AllSpace(s)
    ensures Strip(s) == []
  {
    if s != [] {
      hide IsSpace;
      assert s[0] in s && forall c | c in s[1..] :: c in s;
      NothingButSpace(s[1..]);
    }
  }

  predicate LockedAt(user: User, now: Instant) {
    user.lockedUntil.Some? && now < user.lockedUntil.value
  }

  function Failed(user: User, now: Instant): User {
    user.(failedAttempts := user.failedAttempts + 1,
          lockedUntil := if user.failedAttempts + 1 >= MAX_FAILED_ATTEMPTS then Some(now + LOCKOUT_DURATION) else None)
  }

  /** One login against the record of its user. */
  function Attempted(verify: Verifier, user: User, password: string, now: Instant): (User, LoginResult) {
    if LockedAt(user, now) then (user, Locked(user.lockedUntil.value))
    else if !verify(password, user.passwordHash) then (Failed(user, now), Invalid)
    else (user.(failedAttempts := 0, lockedUntil := None), LoggedIn(user.username, user.role))
  }

  class AuthService {
    const verify: Verifier
    const meetsPolicy: string -> bool
    var store: Store

    constructor (verify: Verifier, meetsPolicy: string -> bool)
      ensures store == map[] && this.verify == verify && this.meetsPolicy == meetsPolicy
    {
      this.verify, this.meetsPolicy, store := verify, meetsPolicy, map[];
    }

    /** `hash` is what the salted hash of `password` turns out to be. */
    method CreateUser(username: string, password: string, hash: string, role: Role) returns (result: CreateResult)
      modifies this
      ensures Consistent(old(store)) ==> Consistent(store)
      ensures result.EmptyUsername? <==> Strip(username) == []
      ensures result.WeakPassword? <==> Strip(username) != [] && !meetsPolicy(password)
      ensures result.AlreadyExists? <==> Strip(username) != [] && meetsPolicy(password) && Strip(username) in old(store)
      ensures store == if result.Created? then old(store)[Strip(username) := User(Strip(username), hash, role, 0, None)]
                       else old(store)
    {
      var name := Strip(username);
      if name == [] {
        return EmptyUsername;
      }
      if !meetsPolicy(password) {
        return WeakPassword;
      }
      if name in store {
        return AlreadyExists;
      }
      store := store[name := User(name, hash, role, 0, None)];
      return Created;
    }

    method UpdateAuthState(username: string, failedAttempts: nat, lockedUntil: Option<Instant>)
      modifies this
      ensures store == if username in old(store)
                       then var user := old(store)[username];
                            old(store)[username := user.(failedAttempts := failedAttempts, lockedUntil := lockedUntil)]
                       else old(store)
    {
      if username in store {
        store := store[username := store[username].(failedAttempts := failedAttempts, lockedUntil := lockedUntil)];
      }
    }

    method Login(username: string, password: string, now: Instant) returns (result: LoginResult)
      requires Keyed(store)
      modifies this
      ensures (store, result) == Step(verify, old(store), Attempt(username, password, now))
    {
      var name := Strip(username);
      if name !in store {
        return Invalid;
      }
      var user := store[name];
      if user.lockedUntil.Some? && now < user.lockedUntil.value {
        assert store == store[name := user];
        return Locked(user.lockedUntil.value);
      }
      if !verify(password, user.passwordHash) {
        RecordFailure(user, now);
        return Invalid;
      }
      if user.failedAttempts != 0 || user.lockedUntil.Some? {
        UpdateAuthState(user.username, 0, None);
      }
      assert store == old(store)[name := Attempted(verify, user, password, now).0];
      return LoggedIn(user.username, user.role);
    }

    method RecordFailure(user: User, now: Instant)
      requires user.username in store && store[user.username] == user
      modifies this
      ensures store == old(store)[user.username := user.(failedAttempts := user.failedAttempts + 1,
          lockedUntil := if user.failedAttempts >= 4 then Some(now + 900_000_000) else None)]
    {
      var attempts := user.failedAttempts + 1;
      var lockedUntil := if attempts >= MAX_FAILED_ATTEMPTS then Some(now + LOCKOUT_DURATION) else None;
      UpdateAuthState(user.username, attempts, lockedUntil);
    }
  }

  // ---------------------------------------------------------------------------
  // Whole runs
  // ---------------------------------------------------------------------------

  datatype Attempt = Attempt(username: string, password: string, now: Instant)

  function Step(verify: Verifier, store: Store, a: Attempt): (Store, LoginResult) {
    var name := Strip(a.username);
    if name !in store then (store, Invalid)
    else
      var (user, result) := Attempted(verify, store[name], a.password, a.now);
      (store[name := user], result)
  }

  function After(verify: Verifier, store: Store, attempts: seq<Attempt>): Store {
    if attempts == [] then store
    else Step(verify, After(verify, store, attempts[..|attempts| - 1]), attempts[|attempts| - 1]).0
  }

  function ResultOf(verify: Verifier, store: Store, attempts: seq<Attempt>, i: nat): LoginResult
    requires i < |attempts|
  {
    Step(verify, After(verify, store, attempts[..i]), attempts[i]).1
  }

  /** The user name is the primary key. */
  ghost predicate Keyed(store: Store) {
    forall name | name in store :: store[name].username == name
  }

  /** Moreover, an account carries a lock iff it has failed at least five times in a row. */
  ghost predicate Consistent(store: Store) {
    Keyed(store)
    && forall name | name in store ::
         store[name].lockedUntil.Some? <==> store[name].failedAttempts >= 5
  }

  lemma {:induction false} RunsStayConsistent(verify: Verifier, store: Store, attempts: seq<Attempt>)
    requires Consistent(store)
    ensures Consistent(After(verify, store, attempts))
    ensures After(verify, store, attempts).Keys == store.Keys
  {
    if attempts != [] {
      RunsStayConsistent(verify, store, attempts[..|attempts| - 1]);
    }
  }

  /** A login under a name that no account has is answered "invalid" at any time, whatever the
      password, and changes nothing. */
  lemma UnknownNameIsInvalid(verify: Verifier, store: Store, attempts: seq<Attempt>, next: Attempt)
    requires Consistent(store) && Strip(next.username) !in store
    ensures ResultOf(verify, store, attempts + [next], |attempts|) == Invalid
    ensures After(verify, store, attempts + [next]) == After(verify, store, attempts)
  {
    hide Strip, Attempted, Consistent, After;
    RunsStayConsistent(verify, store, attempts);
    AfterOneMore(verify, store, attempts, next);
  }

  lemma AfterOneMore(verify: Verifier, store: Store, attempts: seq<Attempt>, next: Attempt)
    ensures var before := After(verify, store, attempts);
            && After(verify, store, attempts + [next]) == Step(verify, before, next).0
            && ResultOf(verify, store, attempts + [next], |attempts|) == Step(verify, before, next).1
  {
    hide Step;
    assert (attempts + [next])[..|attempts|] == attempts;
  }

  /** The attempts on one account. */
  function OnlyFor(name: string, attempts: seq<Attempt>): seq<Attempt> {
    if attempts == [] then []
    else
      var front, last := OnlyFor(name, attempts[..|attempts| - 1]), attempts[|attempts| - 1];
      if Strip(last.username) == name then front + [last] else front
  }

  /** What becomes of an account depends on the attempts on that account alone. */
  lemma {:induction false} AccountsAreIndependent(verify: Verifier, store: Store, attempts: seq<Attempt>, name: string)
    requires name in store
    ensures name in After(verify, store, attempts) && name in After(verify, store, OnlyFor(name, attempts))
    ensures After(verify, store, attempts)[name] == After(verify, store, OnlyFor(name, attempts))[name]
  {
    if attempts != [] {
      var front, last := attempts[..|attempts| - 1], attempts[|attempts| - 1];
      AccountsAreIndependent(verify, store, front, name);
      if Strip(last.username) == name {
        assert (OnlyFor(name, front) + [last])[..|OnlyFor(name, front)|] == OnlyFor(name, front);
      }
    }
  }

  /** While an account is locked every login on it is refused, whatever the password and whatever
      happens on other accounts, and its record does not change. */
  lemma {:induction false} LockHolds(verify: Verifier, store: Store, attempts: seq<Attempt>, name: string)
    requires name in store && store[name].lockedUntil.Some?
    requires forall a | a in attempts && Strip(a.username) == name :: a.now < store[name].lockedUntil.value
    ensures name in After(verify, store, attempts) && After(verify, store, attempts)[name] == store[name]
    ensures forall i | 0 <= i < |attempts| && Strip(attempts[i].username) == name ::
              ResultOf(verify, store, attempts, i) == Locked(store[name].lockedUntil.value)
  {
    if attempts != [] {
      var front, last := attempts[..|attempts| - 1], attempts[|attempts| - 1];
      LockHolds(verify, store, front, name);
      forall i | 0 <= i < |attempts| && Strip(attempts[i].username) == name
        ensures ResultOf(verify, store, attempts, i) == Locked(store[name].lockedUntil.value)
      {
        if i < |front| {
          assert attempts[..i] == front[..i];
          assert ResultOf(verify, store, front, i) == Locked(store[name].lockedUntil.value);
        } else {
          assert attempts[..i] == front && last in attempts;
        }
      }
    }
  }

  /** The instants at which the answer to a login on the account was "invalid", since the last one
      that was let in. */
  function FailuresInARow(verify: Verifier, store: Store, attempts: seq<Attempt>, name: string): seq<Instant> {
    if attempts == [] then []
    else
      var n := |attempts| - 1;
      var before := FailuresInARow(verify, store, attempts[..n], name);
      if Strip(attempts[n].username) != name then before
      else
        match ResultOf(verify, store, attempts, n)
        case LoggedIn(_, _) => []
        case Invalid => before + [attempts[n].now]
        case Locked(_) => before
  }

  /** When the lock that follows from these failures ends, fifteen minutes after the last. */
  function LockFrom(failures: seq<Instant>): Option<Instant> {
    if |failures| >= 5 then Some(failures[|failures| - 1] + 900_000_000) else None
  }

  /** Seen from outside: a new account answers "locked" iff its last five or more answers were
      "invalid" and the latest of them is less than fifteen minutes old; otherwise it lets in
      whoever has the password, and nobody else. */
  lemma {:induction false} AnswersFollowHistory(
    verify: Verifier, store: Store, attempts: seq<Attempt>, name: string, next: Attempt)
    requires name in store && store[name].failedAttempts == 0 && store[name].lockedUntil.None?
    requires Strip(next.username) == name
    ensures var failures := FailuresInARow(verify, store, attempts, name);
            var answer := ResultOf(verify, store, attempts + [next], |attempts|);
            var lock := LockFrom(failures);
            && name in After(verify, store, attempts)
            && After(verify, store, attempts)[name] == store[name].(failedAttempts := |failures|, lockedUntil := lock)
            && (answer.Locked? <==> |failures| >= 5 && next.now < failures[|failures| - 1] + 900_000_000)
            && (answer.Locked? ==> answer.until == failures[|failures| - 1] + 900_000_000)
            && (answer.LoggedIn? <==> !answer.Locked? && verify(next.password, store[name].passwordHash))
            && (answer.LoggedIn? ==> answer == LoggedIn(store[name].username, store[name].role))
  {
    hide Strip;
    assert (attempts + [next])[..|attempts|] == attempts;
    if attempts != [] {
      var front, last := attempts[..|attempts| - 1], attempts[|attempts| - 1];
      if Strip(last.username) == name {
        AnswersFollowHistory(verify, store, front, name, last);
        assert front + [last] == attempts;
      } else {
        AnswersFollowHistory(verify, store, front, name, next);
      }
    }
  }

  /** How many of the attempts had their password compared with the account's hash. */
  function TestedCount(verify: Verifier, store: Store, attempts: seq<Attempt>, name: string): nat {
    if attempts == [] then 0
    else
      var front, last := attempts[..|attempts| - 1], attempts[|attempts| - 1];
      var before := After(verify, store, front);
      TestedCount(verify, store, front, name)
      + if Strip(last.username) == name && name in before && !LockedAt(before[name], last.now) then 1 else 0
  }

  /** No attempt on the account succeeds. */
  ghost predicate NoSuccess(verify: Verifier, store: Store, attempts: seq<Attempt>, name: string) {
    forall i | 0 <= i < |attempts| && Strip(attempts[i].username) == name ::
        !ResultOf(verify, store, attempts, i).LoggedIn?
  }

  /** After `n` tests since `start` the record has `n` more failures and, from the fifth test on,
      a lock that reaches fifteen minutes further with every test. */
  ghost predicate PushedBack(before: User, user: User, n: nat, start: Instant) {
    && user.failedAttempts == before.failedAttempts + n
    && (n >= 5 ==> user.lockedUntil.Some? && user.lockedUntil.value >= start + (n - 4) * 900_000_000)
  }

  lemma TestPushesBack(before: User, user: User, n: nat, start: Instant, now: Instant)
    requires PushedBack(before, user, n, start) && start <= now && !LockedAt(user, now)
    ensures PushedBack(before, Failed(user, now), n + 1, start)
    ensures n >= 5 ==> now >= start + (n - 4) * 900_000_000
  {
  }

  lemma {:induction false} LocksPushBack(
    verify: Verifier, store: Store, attempts: seq<Attempt>, name: string, start: Instant)
    requires name in store && NoSuccess(verify, store, attempts, name)
    requires forall a | a in attempts :: start <= a.now
    ensures var n := TestedCount(verify, store, attempts, name);
            name in After(verify, store, attempts)
            && PushedBack(store[name], After(verify, store, attempts)[name], n, start)
            && (n >= 6 ==> exists a :: a in attempts && a.now >= start + (n - 5) * 900_000_000)
  {
    hide After, TestedCount, ResultOf, Strip, Step, PushedBack;
    if attempts == [] {
      NothingTested(verify, store, name, start);
    } else {
      var front, last := attempts[..|attempts| - 1], attempts[|attempts| - 1];
      assert attempts == front + [last] && attempts[..|front|] == front && last in attempts;
      NoSuccessPrefix(verify, store, attempts, name);
      LocksPushBack(verify, store, front, name, start);
      assert Strip(last.username) == name ==> !ResultOf(verify, store, attempts, |front|).LoggedIn?;
      LastAttempt(verify, store, attempts, name);
      var user := After(verify, store, front)[name];
      if Strip(last.username) == name && !LockedAt(user, last.now) {
        TestPushesBack(store[name], user, TestedCount(verify, store, front, name), start, last.now);
      }
    }
  }

  lemma NothingTested(verify: Verifier, store: Store, name: string, start: Instant)
    requires name in store
    ensures After(verify, store, []) == store && TestedCount(verify, store, [], name) == 0
    ensures PushedBack(store[name], store[name], 0, start)
  {
  }

  /** What the last attempt, if it does not log in, does to the account and to the count. */
  lemma LastAttempt(verify: Verifier, store: Store, attempts: seq<Attempt>, name: string)
    requires attempts != []
    ensures var front, last := attempts[..|attempts| - 1], attempts[|attempts| - 1];
            var before, after := After(verify, store, front), After(verify, store, attempts);
            var tested := Strip(last.username) == name && name in before && !LockedAt(before[name], last.now);
            && TestedCount(verify, store, attempts, name)
                  == TestedCount(verify, store, front, name) + (if tested then 1 else 0)
            && (name in before
                && (Strip(last.username) == name ==> !ResultOf(verify, store, attempts, |front|).LoggedIn?) ==>
                  name in after && after[name] == if tested then Failed(before[name], last.now) else before[name])
  {
    hide Strip;
  }

  lemma NoSuccessPrefix(verify: Verifier, store: Store, attempts: seq<Attempt>, name: string)
    requires attempts != [] && NoSuccess(verify, store, attempts, name)
    ensures NoSuccess(verify, store, attempts[..|attempts| - 1], name)
  {
    var front := attempts[..|attempts| - 1];
    forall i | 0 <= i < |front| && Strip(front[i].username) == name
      ensures !ResultOf(verify, store, front, i).LoggedIn?
    {
      assert front[..i] == attempts[..i] && front[i] == attempts[i];
      assert !ResultOf(verify, store, attempts, i).LoggedIn?;
    }
  }

  /** Within a stretch of `duration` in which no login on the account succeeds, at most five
      passwords are tested, plus one for every full fifteen minutes. */
  lemma GuessesAreBounded(
    verify: Verifier, store: Store, attempts: seq<Attempt>, name: string, start: Instant, duration: nat)
    requires name in store && NoSuccess(verify, store, attempts, name)
    requires forall a | a in attempts :: start <= a.now <= start + duration
    ensures TestedCount(verify, store, attempts, name) <= 5 + duration / 900_000_000
  {
    LocksPushBack(verify, store, attempts, name, start);
    var n := TestedCount(verify, store, attempts, name);
    hide TestedCount, After;
    BoundFromSpan(n, duration);
  }

  lemma BoundFromSpan(n: nat, duration: nat)
    requires n >= 6 ==> (n - 5) * 900_000_000 <= duration
    ensures n <= 5 + duration / 900_000_000
  {
    if n >= 6 {
      FullPeriods(n - 5, duration);
    }
  }

  lemma FullPeriods(periods: nat, duration: nat)
    requires periods * 900_000_000 <= duration
    ensures periods <= duration / 900_000_000
  {
  }

  /** The bound is met: against a fresh account, wrong passwords at the first instant and then at
      every expiry of the lock are all tested. */
  lemma {:induction false} BoundIsMet(
    verify: Verifier, store: Store, name: string, password: string, k: nat) returns (attempts: seq<Attempt>)
    requires name in store && Strip(name) == name && !verify(password, store[name].passwordHash)
    requires store[name].failedAttempts == 0 && store[name].lockedUntil.None?
    ensures forall a | a in attempts :: 0 <= a.now <= k * 900_000_000
    ensures TestedCount(verify, store, attempts, name) == 5 + k
    ensures var t := After(verify, store, attempts);
            name in t && t[name].passwordHash == store[name].passwordHash
            && t[name].failedAttempts == 5 + k
                  && t[name].lockedUntil == Some((k + 1) * 900_000_000)
  {
    if k == 0 {
      attempts := FiveTests(verify, store, name, password, 5);
    } else {
      var front := BoundIsMet(verify, store, name, password, k - 1);
      var next := Attempt(name, password, k * 900_000_000);
      assert (front + [next])[..|front|] == front;
      attempts := front + [next];
    }
  }

  lemma {:induction false} FiveTests(
    verify: Verifier, store: Store, name: string, password: string, i: nat) returns (attempts: seq<Attempt>)
    requires name in store && Strip(name) == name && !verify(password, store[name].passwordHash)
              && i <= 5
    requires store[name].failedAttempts == 0 && store[name].lockedUntil.None?
    ensures forall a | a in attempts :: a.now == 0
    ensures TestedCount(verify, store, attempts, name) == i
    ensures var t := After(verify, store, attempts);
            name in t && t[name].passwordHash == store[name].passwordHash && t[name].failedAttempts == i
            && t[name].lockedUntil == if i == 5 then Some(900_000_000) else None
  {
    attempts := [];
    if i > 0 {
      var front := FiveTests(verify, store, name, password, i - 1);
      var next := Attempt(name, password, 0);
      assert (front + [next])[..|front|] == front;
      attempts := front + [next];
    }
  }
}
