/**
 The unit of work and the aggregates it tracks. `Event` stands for a domain event; a hook is modelled
 by its identity and whether calling it raises.
 */
module UnitOfWork {

  class AggregateRoot<Event> {
    var events: seq<Event>

    constructor ()
      ensures events == []
    {
      events := [];
    }

    method RecordEvent(e: Event)
      modifies this
      ensures events == old(events) + [e]
    {
      events := events + [e];
    }

    method PullEvents() returns (pulled: seq<Event>)
      modifies this
      ensures pulled == old(events) && events == []
    {
      pulled := events;
      events := [];
    }
  }

  datatype Hook = Hook(id: nat, raises: bool)

  /** The hooks that raise, in order. */
  function Raising(hooks: seq<Hook>): seq<Hook> {
    if hooks == [] then []
    else Raising(hooks[..|hooks| - 1]) + if hooks[|hooks| - 1].raises then [hooks[|hooks| - 1]] else []
  }

  /** A list is split where it ends: the raising hooks keep their order and none is missing. */
  lemma RaisingSnoc(hooks: seq<Hook>, h: Hook)
    ensures h.raises ==> Raising(hooks + [h]) == Raising(hooks) + [h]
    ensures !h.raises ==> Raising(hooks + [h]) == Raising(hooks)
  {
    assert (hooks + [h])[..|hooks|] == hooks;
  }

  /** The recorded events of the aggregates, in tracking order, then recording order. */
  ghost function Recorded<Event>(seen: seq<AggregateRoot<Event>>): seq<Event>
    reads seen
  {
    if seen == [] then [] else Recorded(seen[..|seen| - 1]) + seen[|seen| - 1].events
  }

  ghost predicate NoRepeats<Event>(seen: seq<AggregateRoot<Event>>) {
    forall i, j :: 0 <= i < j < |seen| ==> seen[i] != seen[j]
  }

  lemma {:induction false} RecordedSnoc<Event>(seen: seq<AggregateRoot<Event>>, a: AggregateRoot<Event>)
    ensures Recorded(seen + [a]) == Recorded(seen) + a.events
  {
    assert (seen + [a])[..|seen|] == seen;
  }

  lemma {:induction false} RecordedNothing<Event>(seen: seq<AggregateRoot<Event>>)
    requires forall i :: 0 <= i < |seen| ==> seen[i].events == []
    ensures Recorded(seen) == []
    decreases |seen|
  {
    if seen == [] {
    } else {
      RecordedNothing(seen[..|seen| - 1]);
    }
  }

  /** `state` is the data written by the command, `outbox` the committed rows; `draft` and `staged`
      belong to the open transaction. `ran` lists the hooks called so far, `logged` those of them that
      raised. */
  class SqlAlchemyUnitOfWork<Event, State> {
    const hasOutbox: bool
    var state: State
    var outbox: seq<Event>
    var draft: State
    var staged: seq<Event>
    var seen: seq<AggregateRoot<Event>>
    var afterCommit: seq<Hook>
    var ran: seq<Hook>
    var logged: seq<Hook>

    ghost predicate Valid()
      reads this
    {
      NoRepeats(seen)
    }

    constructor (hasOutbox: bool, state: State)
      ensures Valid() && this.hasOutbox == hasOutbox && this.state == state && this.outbox == [] && ran == []
              && logged == []
      ensures draft == state && staged == [] && seen == [] && afterCommit == []
    {
      this.hasOutbox, this.state, this.outbox, ran, logged := hasOutbox, state, [], [], [];
      draft, staged, seen, afterCommit := state, [], [], [];
    }

    /** Opens a transaction. */
    method Enter()
      modifies this
      ensures Valid() && seen == [] && afterCommit == [] && staged == [] && draft == state
      ensures state == old(state) && outbox == old(outbox) && ran == old(ran) && logged == old(logged)
    {
      draft, staged, seen, afterCommit := state, [], [], [];
    }

    /** Leaving with an exception discards what was not committed. */
    method Exit(raised: bool)
      requires Valid()
      modifies this
      ensures Valid() && state == old(state) && outbox == old(outbox) && ran == old(ran) && logged == old(logged)
              && seen == old(seen)
      ensures afterCommit == old(afterCommit) && staged == [] && draft == state
    {
      draft, staged := state, [];
    }

    method Write(s: State)
      requires Valid()
      modifies this`draft
      ensures draft == s
    {
      draft := s;
    }

    /** Tracks an object once, by identity. */
    method Track(a: AggregateRoot<Event>)
      requires Valid()
      modifies this`seen
      ensures Valid()
      ensures seen == if a in old(seen) then old(seen) else old(seen) + [a]
    {
      var i := 0;
      while i < |seen|
        invariant 0 <= i <= |seen| && a !in seen[..i]
        invariant seen == old(seen)
      {
        if seen[i] == a {
          return;
        }
        i := i + 1;
      }
      seen := seen + [a];
    }

    method OnCommit(h: Hook)
      requires Valid()
      modifies this`afterCommit
      ensures afterCommit == old(afterCommit) + [h]
    {
      afterCommit := afterCommit + [h];
    }

    /** Moves the tracked aggregates' events into the transaction. */
    method StageEvents()
      requires Valid()
      modifies this`staged, seen
      ensures staged == old(staged) + old(Recorded(seen))
      ensures forall i :: 0 <= i < |seen| ==> seen[i].events == []
    {
      var i := 0;
      while i < |seen|
        invariant 0 <= i <= |seen|
        invariant staged == old(staged) + old(Recorded(seen[..i]))
        invariant forall k :: 0 <= k < i ==> seen[k].events == []
        invariant forall k :: i <= k < |seen| ==> seen[k].events == old(seen[k].events)
      {
        var events := seen[i].PullEvents();
        assert seen[..i + 1] == seen[..i] + [seen[i]];
        ghost var before := staged;
        var j := 0;
        while j < |events|
          invariant 0 <= j <= |events| && staged == before + events[..j]
          invariant forall k :: 0 <= k <= i ==> seen[k].events == []
          invariant forall k :: i < k < |seen| ==> seen[k].events == old(seen[k].events)
        {
          staged := staged + [events[j]];
          j := j + 1;
        }
        assert old(Recorded(seen[..i + 1])) == old(Recorded(seen[..i])) + events by {
          assert seen[..i + 1][..i] == seen[..i];
        }
        i := i + 1;
      }
      assert seen[..|seen|] == seen;
    }

    /** Calls every hook once; an exception is logged and the next hook still runs. */
    method RunHooks(callbacks: seq<Hook>)
      modifies this`ran, this`logged
      ensures ran == old(ran) + callbacks && logged == old(logged) + Raising(callbacks)
    {
      var i := 0;
      while i < |callbacks|
        invariant 0 <= i <= |callbacks| && ran == old(ran) + callbacks[..i]
        invariant logged == old(logged) + Raising(callbacks[..i])
      {
        ran := ran + [callbacks[i]];
        if callbacks[i].raises {
          logged := logged + [callbacks[i]];
        }
        RaisingSnoc(callbacks[..i], callbacks[i]);
        assert callbacks[..i + 1] == callbacks[..i] + [callbacks[i]];
        i := i + 1;
      }
      assert callbacks[..i] == callbacks;
    }

    /** State and events become durable together, then every hook runs once; when the transaction
        fails nothing becomes durable and no hook runs. A raising hook does not stop the others. */
    method Commit(fails: bool) returns (ok: bool)
      requires Valid()
      modifies this, seen
      ensures Valid() && seen == old(seen) && ok == !fails
      ensures ok ==> state == old(draft)
      ensures ok ==> outbox == old(outbox) + old(staged) + if hasOutbox then old(Recorded(seen)) else []
      ensures ok ==> ran == old(ran) + old(afterCommit) && afterCommit == [] && staged == []
      ensures ok ==> logged == old(logged) + Raising(old(afterCommit))
      ensures !ok ==> state == old(state) && outbox == old(outbox) && ran == old(ran) && afterCommit == old(afterCommit)
      ensures !ok ==> logged == old(logged)
      ensures hasOutbox ==> forall i :: 0 <= i < |seen| ==> seen[i].events == []
      ensures draft == old(draft)
    {
      hide Recorded, Raising;
      if hasOutbox {
        StageEvents();
      }
      if fails {
        return false;
      }
      state := draft;
      outbox := outbox + staged;
      staged := [];
      var callbacks := afterCommit;
      afterCommit := [];
      RunHooks(callbacks);
      ok := true;
    }

    /** Committing again with no further changes adds no event and runs no hook. */
    method CommitTwice()
      requires Valid() && staged == []
      modifies this, seen
      ensures Valid() && state == old(draft)
      ensures outbox == old(outbox) + if hasOutbox then old(Recorded(seen)) else []
      ensures ran == old(ran) + old(afterCommit) && logged == old(logged) + Raising(old(afterCommit))
    {
      hide NoRepeats;
      var _ := Commit(false);
      Recommit();
    }

    /** A commit when nothing was recorded, staged or registered since the last one. */
    method Recommit()
      requires Valid() && staged == [] && afterCommit == [] && state == draft
      requires hasOutbox ==> forall i :: 0 <= i < |seen| ==> seen[i].events == []
      modifies this, seen
      ensures Valid() && state == old(state) && outbox == old(outbox) && ran == old(ran) && logged == old(logged)
    {
      if hasOutbox {
        RecordedNothing(seen);
      }
      hide Recorded, NoRepeats;
      var _ := Commit(false);
    }

    /** Tracking an aggregate again changes nothing that a commit would write. */
    method TrackTwice(a: AggregateRoot<Event>)
      requires Valid()
      modifies this`seen
      ensures Valid() && a in seen
      ensures Recorded(seen) == old(Recorded(seen)) + if a in old(seen) then [] else a.events
    {
      Track(a);
      Track(a);
      if a !in old(seen) {
        RecordedSnoc(old(seen), a);
      }
    }

    /** What a command does before it raises: any list of actions, commits that fail included. */
    method Perform(actions: seq<Action<Event, State>>)
      requires Valid() && forall a :: a in seen ==> a in Touched(actions)
      modifies this, Touched(actions)
      ensures Valid() && state == old(state) && outbox == old(outbox) && ran == old(ran) && logged == old(logged)
    {
      for i := 0 to |actions|
        invariant Valid() && forall a :: a in seen ==> a in Touched(actions)
        invariant state == old(state) && outbox == old(outbox) && ran == old(ran) && logged == old(logged)
      {
        match actions[i] {
          case TrackIt(a) =>
            assert actions[i].aggregate in Touched(actions);
            Track(a);
          case Record(a, e) =>
            assert actions[i].aggregate in Touched(actions);
            a.RecordEvent(e);
          case Store(s) =>
            Write(s);
          case Register(h) =>
            OnCommit(h);
          case FailToCommit =>
            var _ := Commit(true);
        }
      }
    }

    /** Whatever a command does before it raises, state, outbox and hooks stay as they were, and nothing
        it wrote or staged is left in the session. */
    method AbortedCommand(actions: seq<Action<Event, State>>)
      modifies this, Touched(actions)
      ensures Valid() && state == old(state) && outbox == old(outbox) && ran == old(ran) && logged == old(logged)
      ensures draft == state && staged == []
    {
      Enter();
      Perform(actions);
      Exit(true);
    }
  }

  /** The steps of a command between entering and leaving the unit of work. */
  datatype Action<!Event, State> =
    | TrackIt(aggregate: AggregateRoot<Event>)
    | Record(aggregate: AggregateRoot<Event>, event: Event)
    | Store(state: State)
    | Register(hook: Hook)
    | FailToCommit

  ghost function Touched<Event, State>(actions: seq<Action<Event, State>>): set<AggregateRoot<Event>> {
    set i | 0 <= i < |actions| && (actions[i].TrackIt? || actions[i].Record?) :: actions[i].aggregate
  }
}
