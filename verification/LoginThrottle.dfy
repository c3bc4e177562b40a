/** The login throttle: a Redis counter per key whose expiry every failure renews. */
module LoginThrottle {
  import opened Wrappers

  type Time = int

  /** A counter key with its expiry; the key is gone from `expires` on. */
  datatype Entry = Entry(count: nat, expires: Time)

  function LiveCount(e: Option<Entry>, now: Time): nat {
    if e.Some? && now < e.value.expires then e.value.count else 0
  }

  predicate Locked(e: Option<Entry>, now: Time, max: nat) {
    max <= LiveCount(e, now)
  }

  /** Increment, then set the expiry anew. */
  function AfterFailure(e: Option<Entry>, now: Time, window: nat): Option<Entry> {
    Some(Entry(LiveCount(e, now) + 1, now + window))
  }

  // ---------------------------------------------------------------- history

  datatype Op = Failure(at: Time) | Success(at: Time)

  /** The counter after the registered operations, oldest first. */
  function After(ops: seq<Op>, window: nat): Option<Entry> {
    if ops == [] then None
    else
      var last := ops[|ops| - 1];
      if last.Success? then None
      else AfterFailure(After(ops[..|ops| - 1], window), last.at, window)
  }

  /** The last `n` operations are failures, each less than a window before the next, the last less
      than a window before `now`. */
  ghost predicate RecentFailures(ops: seq<Op>, now: Time, n: nat, window: nat) {
    && n <= |ops|
    && (forall i :: |ops| - n <= i < |ops| ==> ops[i].Failure?)
    && (forall i, j :: |ops| - n <= i && j == i + 1 && j < |ops| ==> ops[j].at < ops[i].at + window)
    && (0 < n ==> now < ops[|ops| - 1].at + window)
  }

  /** The counter reaches `n` exactly when the last `n` operations are recent failures. */
  lemma {:induction false} CountIsRecentFailures(ops: seq<Op>, now: Time, n: nat, window: nat)
    ensures n <= LiveCount(After(ops, window), now) <==> RecentFailures(ops, now, n, window)
    decreases |ops|
  {
    if ops == [] || n == 0 {
    } else {
      var front, last := ops[..|ops| - 1], ops[|ops| - 1];
      CountIsRecentFailures(front, last.at, n - 1, window);
      if last.Failure? && now < last.at + window && RecentFailures(ops, now, n, window) {
        assert RecentFailures(front, last.at, n - 1, window) by {
          assert 1 < n ==> ops[|ops| - 1].at < ops[|ops| - 2].at + window;
        }
      }
    }
  }

  /** The lock: at least `max` failures since the last success, no gap of a window or more. */
  lemma LockedIffRecentFailures(ops: seq<Op>, now: Time, max: nat, window: nat)
    ensures Locked(After(ops, window), now, max) <==> RecentFailures(ops, now, max, window)
  {
    CountIsRecentFailures(ops, now, max, window);
  }

  // ---------------------------------------------------------------- serial attempts

  /** What the credentials turn out to be, when they are checked at all. */
  datatype Verdict = WrongPassword | AccountDisabled | Correct

  datatype Attempt = Attempt(at: Time, verdict: Verdict)

  /** One login: a locked key is not touched, a wrong password counts, a success deletes the key. */
  function Login(e: Option<Entry>, a: Attempt, max: nat, window: nat): Option<Entry> {
    if Locked(e, a.at, max) then e
    else match a.verdict
      case WrongPassword => AfterFailure(e, a.at, window)
      case AccountDisabled => e
      case Correct => None
  }

  function Logins(e: Option<Entry>, attempts: seq<Attempt>, max: nat, window: nat): Option<Entry>
    decreases |attempts|
  {
    if attempts == [] then e else Logins(Login(e, attempts[0], max, window), attempts[1..], max, window)
  }

  /** In serial runs the counter never exceeds the maximum. */
  lemma {:induction false} CountNeverExceedsMax(e: Option<Entry>, attempts: seq<Attempt>, max: nat, window: nat)
    requires e.Some? ==> e.value.count <= max
    ensures var r := Logins(e, attempts, max, window); r.Some? ==> r.value.count <= max
    decreases |attempts|
  {
    if attempts == [] {
    } else {
      CountNeverExceedsMax(Login(e, attempts[0], max, window), attempts[1..], max, window);
    }
  }

  /** A failure at `at` that locks the key locks it until exactly one window later, whatever is
      attempted meanwhile. */
  lemma {:induction false} LockEndsOneWindowAfterFailure(
    e: Option<Entry>, at: Time, attempts: seq<Attempt>, now: Time, max: nat, window: nat)
    requires 0 < max <= AfterFailure(e, at, window).value.count
    requires forall i :: 0 <= i < |attempts| ==> attempts[i].at < at + window
    ensures Logins(AfterFailure(e, at, window), attempts, max, window) == AfterFailure(e, at, window)
    ensures Locked(Logins(AfterFailure(e, at, window), attempts, max, window), now, max) <==> now < at + window
    decreases |attempts|
  {
    if attempts == [] {
    } else {
      LockEndsOneWindowAfterFailure(e, at, attempts[1..], now, max, window);
    }
  }

  /** The operation a login registers, if any: nothing while locked, nothing for a disabled account. */
  function RegisteredBy(e: Option<Entry>, a: Attempt, max: nat): seq<Op> {
    if Locked(e, a.at, max) then []
    else match a.verdict
      case WrongPassword => [Failure(a.at)]
      case AccountDisabled => []
      case Correct => [Success(a.at)]
  }

  function Registered(e: Option<Entry>, attempts: seq<Attempt>, max: nat, window: nat): seq<Op>
    decreases |attempts|
  {
    if attempts == [] then []
    else RegisteredBy(e, attempts[0], max) + Registered(Login(e, attempts[0], max, window), attempts[1..], max, window)
  }

  lemma AfterSnoc(ops: seq<Op>, op: Op, window: nat)
    ensures After(ops + [op], window) == if op.Success? then None else AfterFailure(After(ops, window), op.at, window)
  {
    assert (ops + [op])[..|ops|] == ops;
  }

  lemma LoginIsRegistered(ops: seq<Op>, a: Attempt, max: nat, window: nat)
    ensures Login(After(ops, window), a, max, window)
            == After(ops + RegisteredBy(After(ops, window), a, max), window)
  {
    var own := RegisteredBy(After(ops, window), a, max);
    if own == [] {
      assert ops + own == ops;
    } else {
      AfterSnoc(ops, own[0], window);
      hide After;
    }
  }

  /** Serial logins leave the counter that the operations they register give. */
  lemma {:induction false} LoginsAreHistory(ops: seq<Op>, attempts: seq<Attempt>, max: nat, window: nat)
    ensures Logins(After(ops, window), attempts, max, window)
            == After(ops + Registered(After(ops, window), attempts, max, window), window)
    decreases |attempts|
  {
    hide After, Login, RegisteredBy;
    var e := After(ops, window);
    if attempts == [] {
      assert ops + [] == ops;
    } else {
      var a, rest := attempts[0], attempts[1..];
      var own := RegisteredBy(e, a, max);
      LoginIsRegistered(ops, a, max, window);
      LoginsAreHistory(ops + own, rest, max, window);
      var more := Registered(Login(e, a, max, window), rest, max, window);
      assert ops + (own + more) == ops + own + more;
    }
  }

  /** The lock as logins see it: after any attempts a key is locked exactly when the registered ones end
      in that many recent failures. */
  lemma LoginsLockedIff(attempts: seq<Attempt>, now: Time, max: nat, window: nat)
    ensures Locked(Logins(None, attempts, max, window), now, max)
            <==> RecentFailures(Registered(None, attempts, max, window), now, max, window)
  {
    LoginsAreHistory([], attempts, max, window);
    assert [] + Registered(None, attempts, max, window) == Registered(None, attempts, max, window);
    LockedIffRecentFailures(Registered(None, attempts, max, window), now, max, window);
  }

  // ---------------------------------------------------------------- the Redis store

  class RedisLoginThrottle {
    const max: nat
    const window: nat
    var entries: map<string, Entry>

    constructor (maxAttempts: nat, windowMinutes: nat)
      ensures max == maxAttempts && window == windowMinutes * 60 && entries == map[]
    {
      max, window, entries := maxAttempts, windowMinutes * 60, map[];
    }

    function Get(key: string): Option<Entry>
      reads this
    {
      if key in entries then Some(entries[key]) else None
    }

    /** Redis being down reads as not locked. */
    method IsLocked(key: string, now: Time, redisUp: bool) returns (r: bool)
      ensures r <==> redisUp && Locked(Get(key), now, max)
    {
      if !redisUp {
        return false;
      }
      r := LiveCount(Get(key), now) >= max;
    }

    method RegisterFailure(key: string, now: Time, redisUp: bool)
      modifies this
      ensures redisUp ==> Get(key) == AfterFailure(old(Get(key)), now, window)
      ensures redisUp ==> entries - {key} == old(entries) - {key}
      ensures !redisUp ==> entries == old(entries)
    {
      if redisUp {
        var count := LiveCount(Get(key), now);
        entries := entries[key := Entry(count + 1, now + window)];
      }
    }

    method Reset(key: string, redisUp: bool)
      modifies this
      ensures entries == if redisUp then old(entries) - {key} else old(entries)
    {
      if redisUp {
        entries := entries - {key};
      }
    }
  }
}
