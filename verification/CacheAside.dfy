/**
 The namespace-versioned cache-aside: readers interleave their Redis calls and the database read with
 writers that first commit and then bump the namespace version. A value is identified with the
 revision of the database it was loaded from; `key` ranges over the namespace's cache keys.
 */
module CacheAside {
  import opened Wrappers

  /** Where a read of `key` stands: the version it saw, and what it loaded, if anything. */
  datatype Reader =
    | Idle
    | HasVersion(key: string, version: nat)
    | Missed(key: string, version: nat)
    | Loaded(key: string, version: nat, revision: nat)

  /** `revision` counts commits; `pending` are committed revisions not bumped yet; `bumpedAt` maps a
      bumped revision to the version its bump produced. */
  datatype Cache = Cache(
    revision: nat,
    version: nat,
    entries: map<(nat, string), nat>,
    readers: seq<Reader>,
    pending: set<nat>,
    bumpedAt: map<nat, nat>)

  datatype Step =
    | Commit
    | Bump(revision: nat)
    | BumpLost(revision: nat)
    | ReadVersion(r: nat, key: string)
    | Hit(r: nat)
    | Miss(r: nat)
    | Bypass(r: nat)
    | Load(r: nat)
    | Store(r: nat, redisUp: bool)
    | Expire(version: nat, key: string)

  predicate At(c: Cache, r: nat) {
    r < |c.readers|
  }

  predicate Enabled(c: Cache, st: Step) {
    match st
    case Commit => true
    case Bump(n) => n in c.pending
    case BumpLost(n) => n in c.pending
    case ReadVersion(r, _) => At(c, r) && c.readers[r].Idle?
    case Hit(r) => At(c, r) && c.readers[r].HasVersion? && (c.readers[r].version, c.readers[r].key) in c.entries
    case Miss(r) => At(c, r) && c.readers[r].HasVersion? && (c.readers[r].version, c.readers[r].key) !in c.entries
    case Bypass(r) => At(c, r) && c.readers[r].HasVersion?
    case Load(r) => At(c, r) && c.readers[r].Missed?
    case Store(r, _) => At(c, r) && c.readers[r].Loaded?
    case Expire(_, _) => true
  }

  function Next(c: Cache, st: Step): Cache
    requires Enabled(c, st)
  {
    match st
    case Commit => c.(revision := c.revision + 1, pending := c.pending + {c.revision + 1})
    case Bump(n) =>
      c.(version := c.version + 1, pending := c.pending - {n}, bumpedAt := c.bumpedAt[n := c.version + 1])
    case BumpLost(n) => c.(pending := c.pending - {n})
    case ReadVersion(r, key) => c.(readers := c.readers[r := HasVersion(key, c.version)])
    case Hit(r) => c.(readers := c.readers[r := Idle])
    case Miss(r) => c.(readers := c.readers[r := Missed(c.readers[r].key, c.readers[r].version)])
    case Bypass(r) => c.(readers := c.readers[r := Idle])
    case Load(r) => c.(readers := c.readers[r := Loaded(c.readers[r].key, c.readers[r].version, c.revision)])
    case Store(r, redisUp) =>
      var l := c.readers[r];
      c.(readers := c.readers[r := Idle],
         entries := if redisUp then c.entries[(l.version, l.key) := l.revision] else c.entries)
    case Expire(v, key) => c.(entries := c.entries - {(v, key)})
  }

  /** The revision of the value a step returns to its caller. */
  function Returned(c: Cache, st: Step): Option<nat>
    requires Enabled(c, st)
  {
    match st
    case Hit(r) => Some(c.entries[(c.readers[r].version, c.readers[r].key)])
    case Bypass(_) => Some(c.revision)
    case Store(r, _) => Some(c.readers[r].revision)
    case _ => None
  }

  /** A read ends with the stored entry, with a load, or with a load because Redis failed. */
  predicate Answers(st: Step) {
    st.Hit? || st.Store? || st.Bypass?
  }

  /** The version the returning reader saw. */
  function SeenVersion(c: Cache, st: Step): nat
    requires Enabled(c, st) && Answers(st)
  {
    c.readers[st.r].version
  }

  function Start(readers: nat): Cache {
    Cache(0, 0, map[], seq(readers, _ => Idle), {}, map[])
  }

  function Run(c: Cache, sts: seq<Step>): Option<Cache>
    decreases |sts|
  {
    if sts == [] then Some(c)
    else if Enabled(c, sts[0]) then Run(Next(c, sts[0]), sts[1..])
    else None
  }

  predicate NoLostBumps(sts: seq<Step>) {
    forall k :: 0 <= k < |sts| ==> !sts[k].BumpLost?
  }

  // ---------------------------------------------------------------- coherence

  /** A value of revision `n` under version `v` contains every commit bumped up to `v`. */
  ghost predicate Covers(c: Cache, v: nat, n: nat) {
    v <= c.version && n <= c.revision && forall m :: m in c.bumpedAt && c.bumpedAt[m] <= v ==> m <= n
  }

  ghost predicate CacheInv(c: Cache) {
    && (forall e :: e in c.entries ==> Covers(c, e.0, c.entries[e]))
    && (forall r :: 0 <= r < |c.readers| ==>
          match c.readers[r]
          case Idle => true
          case HasVersion(_, v) => v <= c.version
          case Missed(_, v) => v <= c.version
          case Loaded(_, v, n) => Covers(c, v, n))
    && (forall m :: m in c.bumpedAt ==> m <= c.revision && c.bumpedAt[m] <= c.version)
    && (forall m :: m in c.pending ==> m <= c.revision)
    // every commit was bumped or still will be
    && (forall m :: 1 <= m <= c.revision ==> m in c.pending || m in c.bumpedAt)
  }

  lemma StepKeeps(c: Cache, st: Step)
    requires CacheInv(c) && Enabled(c, st) && !st.BumpLost?
    ensures CacheInv(Next(c, st))
  {
    var d := Next(c, st);
    assert forall v: nat, n: nat :: Covers(c, v, n) ==> Covers(d, v, n);
  }

  /** Holds in every reachable state, whatever the interleaving. */
  lemma {:induction false} RunKeeps(c: Cache, sts: seq<Step>)
    requires CacheInv(c) && Run(c, sts).Some? && NoLostBumps(sts)
    ensures CacheInv(Run(c, sts).value)
    decreases |sts|
  {
    hide CacheInv;
    if sts == [] {
    } else {
      StepKeeps(c, sts[0]);
      RunKeeps(Next(c, sts[0]), sts[1..]);
    }
  }

  /** An entry under the current version misses only commits whose bump is still to come. */
  lemma CurrentEntryMissesOnlyPending(c: Cache, key: string, m: nat)
    requires CacheInv(c) && (c.version, key) in c.entries && c.entries[(c.version, key)] < m <= c.revision
    ensures m in c.pending
  {
    assert Covers(c, c.version, c.entries[(c.version, key)]);
  }

  /** Every read returns a value that contains all commits bumped before the read began; when it saw
      the current version and no writer is waiting to bump, a hit equals a fresh load. */
  lemma ReadsAreCoherent(readers: nat, sts: seq<Step>, st: Step)
    requires Run(Start(readers), sts).Some? && NoLostBumps(sts)
    requires var c := Run(Start(readers), sts).value; Enabled(c, st) && Answers(st)
    ensures var c := Run(Start(readers), sts).value;
            Returned(c, st).Some? && Covers(c, SeenVersion(c, st), Returned(c, st).value)
    ensures var c := Run(Start(readers), sts).value;
            SeenVersion(c, st) == c.version && c.pending == {} ==> Returned(c, st) == Some(c.revision)
  {
    RunKeeps(Start(readers), sts);
    var c := Run(Start(readers), sts).value;
    var v, n := SeenVersion(c, st), Returned(c, st).value;
    assert Covers(c, v, n) by {
      if st.Hit? {
        assert (v, c.readers[st.r].key) in c.entries;
      }
    }
    assert v == c.version && c.pending == {} && n < c.revision ==> n + 1 in c.bumpedAt;
  }

  /** A stored value is served to every reader of its version and key until it expires; then each must load. */
  lemma StoredUntilExpired(c: Cache, r: nat, redisUp: bool, q: nat)
    requires Enabled(c, Store(r, redisUp)) && q != r && At(c, q)
    requires c.readers[q] == HasVersion(c.readers[r].key, c.readers[r].version)
    ensures var d := Next(c, Store(r, redisUp));
            redisUp ==> Enabled(d, Hit(q)) && Returned(d, Hit(q)) == Some(c.readers[r].revision)
    ensures var e := Next(Next(c, Store(r, redisUp)), Expire(c.readers[r].version, c.readers[r].key));
            !Enabled(e, Hit(q)) && Enabled(e, Miss(q))
  {}

  // ---------------------------------------------------------------- lost bumps

  /** The state as if the bump of `m` were still to come. */
  function WithPending(c: Cache, m: nat): Cache {
    c.(pending := c.pending + {m})
  }

  /** Nothing that can still be served under the current version misses commit `m`. */
  ghost predicate Contains(c: Cache, m: nat) {
    && (forall e :: e in c.entries && e.0 == c.version ==> m <= c.entries[e])
    && (forall r :: 0 <= r < |c.readers| && c.readers[r].Loaded? && c.readers[r].version == c.version ==>
          m <= c.readers[r].revision)
  }

  /** Holds after the bump of `m` was lost, if another bump or no stale value was there. */
  ghost predicate HarmlessInv(c: Cache, m: nat) {
    m !in c.pending && m <= c.revision && CacheInv(WithPending(c, m)) && (c.pending != {} || Contains(c, m))
  }

  lemma HarmlessStep(c: Cache, m: nat, st: Step)
    requires HarmlessInv(c, m) && Enabled(c, st) && !st.BumpLost?
    ensures HarmlessInv(Next(c, st), m)
  {
    StepKeeps(WithPending(c, m), st);
    assert WithPending(Next(c, st), m) == Next(WithPending(c, m), st);
    if st.Bump? {
      assert Contains(Next(c, st), m);
    } else if c.pending == {} {
      assert Contains(Next(c, st), m) || st.Commit?;
    }
  }

  lemma {:induction false} HarmlessRun(c: Cache, m: nat, sts: seq<Step>)
    requires HarmlessInv(c, m) && Run(c, sts).Some? && NoLostBumps(sts)
    ensures HarmlessInv(Run(c, sts).value, m)
    decreases |sts|
  {
    hide HarmlessInv;
    if sts == [] {
    } else {
      HarmlessStep(c, m, sts[0]);
      HarmlessRun(Next(c, sts[0]), m, sts[1..]);
    }
  }

  /** The step returns, under the current version, a value that misses a commit. */
  ghost predicate Stale(c: Cache, st: Step) {
    Enabled(c, st) && Answers(st) && SeenVersion(c, st) == c.version && Returned(c, st) != Some(c.revision)
  }

  lemma HarmlessIsFresh(c: Cache, m: nat, st: Step)
    requires HarmlessInv(c, m) && c.pending == {}
    ensures !Stale(c, st)
  {
    if Enabled(c, st) && Answers(st) && SeenVersion(c, st) == c.version {
      var n := Returned(c, st).value;
      assert Covers(WithPending(c, m), c.version, n) by {
        if st.Hit? {
          assert (c.version, c.readers[st.r].key) in WithPending(c, m).entries;
        }
      }
      assert n < c.revision ==> n + 1 == m || n + 1 in c.bumpedAt;
    }
  }

  /** Steps after which reader 0 begins a new read; nothing is stored. */
  function Freeing(reader: Reader): seq<Step> {
    match reader
    case Idle => []
    case HasVersion(_, _) => [Bypass(0)]
    case Missed(_, _) => [Load(0), Store(0, false)]
    case Loaded(_, _, _) => [Store(0, false)]
  }

  lemma FreeingRuns(c: Cache)
    requires 0 < |c.readers|
    ensures Run(c, Freeing(c.readers[0])) == Some(c.(readers := c.readers[0 := Idle]))
    ensures NoLostBumps(Freeing(c.readers[0]))
  {
    hide Run;
    RunNothing(c);
    if c.readers[0].Missed? {
      RunSnoc(c, [], Load(0));
      RunSnoc(c, [] + [Load(0)], Store(0, false));
      assert [] + [Load(0)] + [Store(0, false)] == Freeing(c.readers[0]);
      assert Next(Next(c, Load(0)), Store(0, false)).readers == c.readers[0 := Idle];
    } else if !c.readers[0].Idle? {
      var st := Freeing(c.readers[0])[0];
      RunSnoc(c, [], st);
      assert [] + [st] == Freeing(c.readers[0]);
    } else {
      assert c.readers[0 := Idle] == c.readers;
    }
  }

  /** A run without further lost bumps leads to a stale read although no bump is pending. */
  ghost predicate ServesStale(c: Cache) {
    exists sts, st ::
      NoLostBumps(sts) && Run(c, sts).Some? && Run(c, sts).value.pending == {} && Stale(Run(c, sts).value, st)
  }

  lemma StaleEntryIsServed(c: Cache, key: string, m: nat)
    requires 0 < |c.readers| && c.pending == {} && m <= c.revision
    requires (c.version, key) in c.entries && c.entries[(c.version, key)] < m
    ensures ServesStale(c)
  {
    hide Run;
    var free := Freeing(c.readers[0]);
    FreeingRuns(c);
    RunSnoc(c, free, ReadVersion(0, key));
    var sts := free + [ReadVersion(0, key)];
    assert NoLostBumps(sts) && Stale(Run(c, sts).value, Hit(0));
  }

  lemma StaleLoadIsServed(c: Cache, r: nat, m: nat)
    requires r < |c.readers| && c.pending == {} && m <= c.revision
    requires c.readers[r].Loaded? && c.readers[r].version == c.version && c.readers[r].revision < m
    ensures ServesStale(c)
  {
    RunNothing(c);
    assert NoLostBumps([]) && Stale(Run(c, []).value, Store(r, true));
  }

  /** Losing the bump of `m` lets a stale value be served, with no bump pending, if and only if no other
      bump is pending and a value without `m` is cached or about to be cached under the current version. */
  lemma LostBumpHarmsIff(c: Cache, m: nat)
    requires CacheInv(c) && m in c.pending && 0 < |c.readers|
    ensures ServesStale(Next(c, BumpLost(m))) <==> c.pending == {m} && !Contains(c, m)
  {
    hide Run, CacheInv;
    var d := Next(c, BumpLost(m));
    PendingCommitted(c, m);
    if c.pending == {m} && !Contains(c, m) {
      if e :| e in c.entries && e.0 == c.version && c.entries[e] < m {
        assert e == (c.version, e.1);
        StaleEntryIsServed(d, e.1, m);
      } else {
        var r :| 0 <= r < |c.readers| && c.readers[r].Loaded? && c.readers[r].version == c.version
                 && c.readers[r].revision < m;
        StaleLoadIsServed(d, r, m);
      }
    } else {
      assert WithPending(d, m) == c;
      assert HarmlessInv(d, m);
      hide HarmlessInv, Stale;
      forall sts, st | NoLostBumps(sts) && Run(d, sts).Some? && Run(d, sts).value.pending == {}
        ensures !Stale(Run(d, sts).value, st)
      {
        HarmlessRun(d, m, sts);
        HarmlessIsFresh(Run(d, sts).value, m, st);
      }
    }
  }

  lemma PendingCommitted(c: Cache, m: nat)
    requires CacheInv(c) && m in c.pending
    ensures m <= c.revision
  {}

  /** An input: no writer is waiting and yet a hit under the current version is stale. */
  lemma LostBumpServesStale()
    ensures exists c: Cache, sts: seq<Step> ::
              && Run(Start(1), sts) == Some(c) && c.pending == {}
              && Enabled(c, Hit(0)) && SeenVersion(c, Hit(0)) == c.version
              && Returned(c, Hit(0)) == Some(0) && c.revision == 1
  {
    hide Run;
    var c, sts := FirstReadCached();
    c, sts := Extended(Start(1), sts, c, Commit, c.(revision := 1, pending := {1}));
    c, sts := Extended(Start(1), sts, c, BumpLost(1), c.(pending := {}));
    c, sts := Extended(Start(1), sts, c, ReadVersion(0, "k"), c.(readers := [HasVersion("k", 0)]));
  }

  lemma FirstReadCached() returns (c: Cache, sts: seq<Step>)
    ensures c == Cache(0, 0, map[(0, "k") := 0], [Idle], {}, map[]) && Run(Start(1), sts) == Some(c)
  {
    hide Run;
    c, sts := Start(1), [];
    RunNothing(c);
    c, sts := Extended(Start(1), sts, c, ReadVersion(0, "k"), c.(readers := [HasVersion("k", 0)]));
    c, sts := Extended(Start(1), sts, c, Miss(0), c.(readers := [Missed("k", 0)]));
    c, sts := Extended(Start(1), sts, c, Load(0), c.(readers := [Loaded("k", 0, 0)]));
    c, sts := Extended(Start(1), sts, c, Store(0, true), c.(readers := [Idle], entries := map[(0, "k") := 0]));
  }

  lemma RunNothing(s: Cache)
    ensures Run(s, []) == Some(s)
  {}

  lemma {:induction false} RunSnoc(s: Cache, sts: seq<Step>, st: Step)
    requires Run(s, sts).Some? && Enabled(Run(s, sts).value, st)
    ensures Run(s, sts + [st]) == Some(Next(Run(s, sts).value, st))
    decreases |sts|
  {
    if sts == [] {
    } else {
      assert (sts + [st])[1..] == sts[1..] + [st];
      RunSnoc(Next(s, sts[0]), sts[1..], st);
    }
  }

  lemma Extended(s: Cache, sts: seq<Step>, c: Cache, st: Step, d: Cache) returns (c': Cache, sts': seq<Step>)
    requires Run(s, sts) == Some(c) && Enabled(c, st) && Next(c, st) == d
    ensures c' == d && sts' == sts + [st] && Run(s, sts') == Some(c')
  {
    RunSnoc(s, sts, st);
    c', sts' := d, sts + [st];
  }

  // ---------------------------------------------------------------- the Redis cache

  /** One namespace of RedisCache; `load` is the revision that the database would return. */
  class RedisCache {
    var version: nat
    var entries: map<(nat, string), nat>

    constructor ()
      ensures Valid() && version == 0 && entries == map[]
    {
      version, entries := 0, map[];
    }

    /** No entry was stored under a version that is still to come. */
    ghost predicate Valid()
      reads this
    {
      forall e :: e in entries ==> e.0 <= version
    }

    /** The hook of commit `m`: the step Bump(m), or BumpLost(m) without Redis. After a bump nothing that
        was stored before can be hit. */
    method Bump(redisUp: bool, ghost m: nat, ghost revision: nat) returns (ghost st: Step)
      requires Valid()
      modifies this`version
      ensures Valid() && st == if redisUp then Step.Bump(m) else BumpLost(m)
      ensures redisUp ==> forall key :: (version, key) !in entries
      ensures var before := old(View(revision)).(pending := {m});
              Enabled(before, st)
              && Next(before, st) == View(revision).(bumpedAt := if redisUp then map[m := version] else map[])
    {
      st := if redisUp then Step.Bump(m) else BumpLost(m);
      if redisUp {
        version := version + 1;
      }
    }

    /** A read after the bump is a fresh load, whatever is cached. */
    method ReadAfterBump(key: string, load: nat, versionUp: bool, getUp: bool, setUp: bool) returns (value: nat)
      requires Valid()
      modifies this
      ensures Valid() && value == load
    {
      ghost var st := Bump(true, 0, load);
      ghost var steps;
      value, steps := GetOrLoad(key, load, versionUp, getUp, setUp);
    }

    /** The cache with one reader between reads, over a database at the given revision. */
    ghost function View(revision: nat): Cache
      reads this
    {
      Cache(revision, version, entries, [Idle], {}, map[])
    }

    /** Fail-open at each Redis call: version read, entry read, entry write. Once the version is read
        the call is a run of reader steps, the last of which returns its value. */
    method GetOrLoad(key: string, load: nat, versionUp: bool, getUp: bool, setUp: bool)
      returns (value: nat, ghost steps: seq<Step>)
      requires Valid()
      modifies this`entries
      ensures Valid()
      ensures value == if versionUp && getUp && (version, key) in old(entries)
                       then old(entries)[(version, key)] else load
      ensures entries == if versionUp && getUp && setUp then old(entries)[(version, key) := value] else old(entries)
      ensures versionUp ==> ReadRun(old(View(load)), steps, View(load), value)
    {
      hide Run, ReadRun;
      steps := [];
      if !versionUp {
        return load, steps;
      }
      ghost var start := View(load);
      ghost var c := start;
      RunNothing(start);
      c, steps := Extended(start, steps, c, ReadVersion(0, key), c.(readers := [HasVersion(key, version)]));
      if !getUp {
        LastStep(start, steps, c, Bypass(0), View(load));
        return load, steps + [Bypass(0)];
      }
      if (version, key) in entries {
        value := entries[(version, key)];
        assert entries[(version, key) := value] == entries;
        LastStep(start, steps, c, Hit(0), View(load));
        return value, steps + [Hit(0)];
      }
      value := load;
      c, steps := Extended(start, steps, c, Miss(0), c.(readers := [Missed(key, version)]));
      c, steps := Extended(start, steps, c, Load(0), c.(readers := [Loaded(key, version, value)]));
      if setUp {
        entries := entries[(version, key) := value];
      }
      LastStep(start, steps, c, Store(0, setUp), View(load));
      steps := steps + [Store(0, setUp)];
    }
  }

  /** `steps` is a run whose last step returns `value`. */
  ghost predicate ReadRun(c: Cache, steps: seq<Step>, d: Cache, value: nat) {
    && steps != [] && Run(c, steps) == Some(d)
    && var before := Run(c, steps[..|steps| - 1]);
       before.Some? && Enabled(before.value, steps[|steps| - 1])
       && Returned(before.value, steps[|steps| - 1]) == Some(value)
  }

  lemma LastStep(s: Cache, steps: seq<Step>, c: Cache, st: Step, d: Cache)
    requires Run(s, steps) == Some(c) && Enabled(c, st) && Next(c, st) == d && Returned(c, st).Some?
    ensures ReadRun(s, steps + [st], d, Returned(c, st).value)
  {
    RunSnoc(s, steps, st);
    assert (steps + [st])[..|steps|] == steps;
  }
}
