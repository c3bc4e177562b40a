/**
 When a lost mark breaks the order. The handled event keeps its order as long as no copy of it arrives
 behind a later event; whether one can is decided by the queue and by what the relays still hold.
 */
module PipelineLostMarks {
  import opened Wrappers
  import opened Pipeline
  import opened PipelineOrder
  import opened PipelineLimits
  import opened Messaging

  // ---------------------------------------------------------------- publication order

  /** A row is sent only after all rows before it were marked. */
  ghost predicate SentInOrder<E>(s: Pipe<E>) {
    forall i :: i in s.log ==> PublishedBelow(s.rows, i)
  }

  lemma SentInOrderStep<E>(s: Pipe<E>, l: Label<E>)
    requires RelaysInv(s) && SentInOrder(s) && Enabled(s, l)
    ensures SentInOrder(Next(s, l))
  {
    var t := Next(s, l);
    if l.Publish? {
      assert RelayOk(s, s.relays[l.r]);
    }
    forall i | i in t.log ensures PublishedBelow(t.rows, i) {
      assert PublishedBelow(s.rows, i);
    }
  }

  lemma {:induction false} SentInOrderRun<E>(s: Pipe<E>, ls: seq<Label<E>>)
    requires RelaysInv(s) && SentInOrder(s) && Run(s, ls).Some?
    ensures SentInOrder(Run(s, ls).value)
    decreases |ls|
  {
    if ls == [] {
    } else {
      RelaysInvStep(s, ls[0]);
      SentInOrderStep(s, ls[0]);
      SentInOrderRun(Next(s, ls[0]), ls[1..]);
    }
  }

  // ---------------------------------------------------------------- the condition

  /** The relay will still send row `id`, unless it fails before. */
  ghost predicate Unsent(relay: Relay, id: nat) {
    && relay.Busy?
    && exists k :: relay.pos <= k < |relay.batch| && relay.batch[k] == id && (k == relay.pos ==> !relay.sent)
  }

  /** The relay has sent row `id` and not marked it yet. */
  ghost predicate SentUnmarked(relay: Relay, id: nat) {
    relay.Busy? && relay.pos < |relay.batch| && relay.batch[relay.pos] == id && relay.sent
  }

  ghost predicate SomeUnsent<E>(s: Pipe<E>, id: nat) {
    exists r :: 0 <= r < |s.relays| && Unsent(s.relays[r], id)
  }

  ghost predicate SomeSentUnmarked<E>(s: Pipe<E>, id: nat) {
    exists r :: 0 <= r < |s.relays| && SentUnmarked(s.relays[r], id)
  }

  ghost predicate LaterSeen<E>(s: Pipe<E>, id: nat) {
    (exists x :: x in s.queue && id < x) || (exists x :: x in s.execs && id < x)
  }

  /** Row `id`, no copy of which is queued, can still arrive behind a later event. Marked, it must wait in
      a stale batch while a later event is queued or another relay can send one; unmarked, a relay must be
      about to mark it while another one can still read it. */
  ghost predicate Replayable<E>(s: Pipe<E>, id: nat)
    requires id < |s.rows|
  {
    if s.rows[id].published then SomeUnsent(s, id) && (2 <= |s.relays| || LaterSeen(s, id))
    else 2 <= |s.relays| && SomeSentUnmarked(s, id)
  }

  /** Losing the mark of the handled head lets a copy of it be handled after a later event. */
  ghost predicate LostMarkHarms<E>(s: Pipe<E>)
    requires s.queue != [] && s.queue[0] < |s.rows|
  {
    var id := s.queue[0];
    id !in s.marks
    && if id in s.queue[1..] then exists k :: 0 < k < |s.queue| && id < s.queue[k] && id !in s.queue[1..k]
       else Replayable(s, id)
  }

  // ---------------------------------------------------------------- harmless losses

  function WithMark<E>(s: Pipe<E>, id: nat): Pipe<E> {
    s.(marks := s.marks + {id})
  }

  /** The event is executed, its mark is lost, and no copy of it can overtake. */
  ghost predicate Harmless<E>(s: Pipe<E>, id: nat) {
    && id !in s.queue && IsBound(s.rows, id)
    && OrderInv(WithMark(s, id)) && !Replayable(s, id)
  }

  ghost predicate LostInv<E>(s: Pipe<E>, id: nat) {
    RelaysInv(s) && SentInOrder(s) && (OrderInv(s) || Harmless(s, id))
  }

  lemma MarkCommutes<E>(s: Pipe<E>, id: nat, l: Label<E>)
    requires id !in s.queue && Enabled(s, l) && Orderly(l)
    ensures Enabled(WithMark(s, id), l) && Next(WithMark(s, id), l) == WithMark(Next(s, l), id)
  {
    if l.MarkProcessed? {
      assert s.marks + {id} + {s.queue[0]} == s.marks + {s.queue[0]} + {id};
    }
  }

  /** An executed event that is not followed by a later one is the last. */
  lemma LastExecuted<E>(s: Pipe<E>, id: nat)
    requires Accounted(s) && Stutters(s.rows, s.execs) && id in s.marks && !LaterSeen(s, id)
    ensures s.execs != [] && Last(s.execs) == id
  {
    var k :| 0 <= k < |s.execs| && s.execs[k] == id;
    assert s.execs[|s.execs| - 1] in s.execs;
  }

  lemma QueuedCopy<E>(rows: seq<Row<E>>, queue: seq<nat>, marks: set<nat>, id: nat)
    requires QueuedInOrder(rows, queue, marks + {id}) && forall x :: x in queue ==> x < id
    requires forall j :: j < id && IsBound(rows, j) ==> j in marks
    ensures QueuedInOrder(rows, queue + [id], marks)
  {
    var longer := queue + [id];
    forall k, j | 0 <= k < |longer| && j < longer[k] && IsBound(rows, j) ensures j in marks || j in longer[..k] {
      if k < |queue| {
        assert queue[k] in queue && longer[..k] == queue[..k];
      }
    }
  }

  lemma CopyAccounted<E>(s: Pipe<E>, id: nat)
    requires Accounted(WithMark(s, id)) && id < |s.rows|
    ensures Accounted(Deliverable(s, id))
  {
    AccountedPublish(WithMark(s, id), id);
  }

  /** A copy that arrives before every later event makes the loss good. */
  lemma CopyRestoresOrder<E>(s: Pipe<E>, id: nat)
    requires OrderInv(WithMark(s, id)) && id !in s.queue && IsBound(s.rows, id) && !LaterSeen(s, id)
    ensures OrderInv(Deliverable(s, id))
  {
    var t := Deliverable(s, id);
    LastExecuted(WithMark(s, id), id);
    hide Stutters;
    QueuedCopy(s.rows, s.queue, s.marks, id);
    hide QueuedInOrder;
    CopyAccounted(s, id);
    hide Accounted;
    assert s.queue != [] ==> t.queue[0] == s.queue[0] && s.queue[0] in s.queue;
  }

  lemma LostCopy<E>(s: Pipe<E>, id: nat, r: nat, outcome: Outcome)
    requires SentInOrder(s) && Harmless(s, id) && Enabled(s, Label<E>.Publish(r, outcome))
    requires s.relays[r].batch[s.relays[r].pos] == id && !outcome.LostThenRaised?
    ensures OrderInv(Next(s, Label<E>.Publish(r, outcome)))
  {
    assert Unsent(s.relays[r], id);
    NothingLater(s, id);
    CopyRestoresOrder(s, id);
    var t := Next(s, Label<E>.Publish(r, outcome));
    assert Accounted(t) && PhaseOk(t);
    hide OrderInv, SentInOrder, Replayable;
    OrderFrame(Deliverable(s, id), t);
  }

  lemma LostPublish<E>(s: Pipe<E>, id: nat, r: nat, outcome: Outcome)
    requires RelaysInv(s) && SentInOrder(s) && Harmless(s, id) && Enabled(s, Label<E>.Publish(r, outcome))
    ensures var t := Next(s, Label<E>.Publish(r, outcome)); OrderInv(t) || Harmless(t, id)
  {
    hide OrderInv, SentInOrder, Replayable, RelaysInv;
    if s.relays[r].batch[s.relays[r].pos] == id && !outcome.LostThenRaised? {
      LostCopy(s, id, r, outcome);
    } else {
      MarkedRelays(s, id);
      MarkCommutes(s, id, Label<E>.Publish(r, outcome));
      OrderStep(WithMark(s, id), Label<E>.Publish(r, outcome));
      PublishKeepsHarmless(s, id, r, outcome);
    }
  }

  lemma MarkedRelays<E>(s: Pipe<E>, id: nat)
    requires RelaysInv(s)
    ensures RelaysInv(WithMark(s, id))
  {
    RelaysKept(s, WithMark(s, id), s.relays);
  }

  /** Where a copy is about to be sent and no harm can come, nothing later was seen. */
  lemma NothingLater<E>(s: Pipe<E>, id: nat)
    requires SentInOrder(s) && Harmless(s, id) && SomeUnsent(s, id)
    ensures !LaterSeen(s, id)
  {
    if !s.rows[id].published {
      forall x | x in s.queue || x in s.execs ensures x <= id {
        assert x in s.log;
        assert PublishedBelow(s.rows, x);
      }
    }
  }

  lemma PublishKeepsHarmless<E>(s: Pipe<E>, id: nat, r: nat, outcome: Outcome)
    requires RelaysInv(s) && Harmless(s, id) && Enabled(s, Label<E>.Publish(r, outcome))
    requires s.relays[r].batch[s.relays[r].pos] == id ==> outcome.LostThenRaised?
    ensures !Replayable(Next(s, Label<E>.Publish(r, outcome)), id)
  {
    hide OrderInv;
    var t := Next(s, Label<E>.Publish(r, outcome));
    var relay := s.relays[r];
    var row := relay.batch[relay.pos];
    assert RelayOk(s, relay);
    assert Unsent(t.relays[r], id) ==> Unsent(relay, id);
    assert SomeUnsent(t, id) ==> SomeUnsent(s, id);
    assert SomeSentUnmarked(t, id) ==> SomeSentUnmarked(s, id);
    if LaterSeen(t, id) && !LaterSeen(s, id) {
      assert id < row;
      assert !Unsent(relay, id);
      assert s.rows[id].published;
    }
  }

  lemma MarkKeepsHarmless<E>(s: Pipe<E>, id: nat, r: nat)
    requires RelaysInv(s) && Harmless(s, id) && Enabled(s, Label<E>.MarkPublished(r))
    ensures !Replayable(Next(s, Label<E>.MarkPublished(r)), id)
  {
    hide OrderInv;
    var t := Next(s, Label<E>.MarkPublished(r));
    var relay := s.relays[r];
    assert RelayOk(s, relay);
    assert Unsent(t.relays[r], id) ==> Unsent(relay, id);
    assert SomeUnsent(t, id) ==> SomeUnsent(s, id);
    assert SomeSentUnmarked(t, id) ==> SomeSentUnmarked(s, id);
    if relay.batch[relay.pos] == id {
      assert SentUnmarked(relay, id) && !Unsent(relay, id);
      assert SomeSentUnmarked(s, id);
      if |s.relays| == 1 {
        assert !Unsent(t.relays[0], id);
      }
    }
  }

  lemma {:induction false} PendingAreUnpublished<E>(rows: seq<Row<E>>, i: nat, limit: nat)
    requires i <= |rows|
    ensures forall k :: 0 <= k < |Pending(rows, i, limit)| ==>
              Pending(rows, i, limit)[k] < |rows| && !rows[Pending(rows, i, limit)[k]].published
    decreases |rows| - i
  {
    if i == |rows| || limit == 0 {
    } else {
      PendingAreUnpublished(rows, i + 1, if rows[i].published then limit else limit - 1);
    }
  }

  lemma ReadKeepsHarmless<E>(s: Pipe<E>, id: nat, r: nat, limit: nat)
    requires Harmless(s, id) && Enabled(s, Label<E>.ReadBatch(r, limit))
    ensures !Replayable(Next(s, Label<E>.ReadBatch(r, limit)), id)
  {
    hide OrderInv;
    var t := Next(s, Label<E>.ReadBatch(r, limit));
    PendingAreUnpublished(s.rows, 0, limit);
    assert s.rows[id].published ==> !Unsent(t.relays[r], id);
    assert s.rows[id].published && SomeUnsent(t, id) ==> SomeUnsent(s, id);
    assert SomeSentUnmarked(t, id) ==> SomeSentUnmarked(s, id);
  }

  lemma OtherKeepsHarmless<E>(s: Pipe<E>, id: nat, l: Label<E>)
    requires Harmless(s, id) && Enabled(s, l) && Orderly(l)
    requires !l.Publish? && !l.MarkPublished? && !l.ReadBatch?
    ensures !Replayable(Next(s, l), id) && id !in Next(s, l).queue && IsBound(Next(s, l).rows, id)
  {
    hide OrderInv;
    var t := Next(s, l);
    assert s.queue != [] ==> s.queue == [s.queue[0]] + s.queue[1..];
    assert forall x :: x in t.queue ==> x in s.queue;
    assert forall x :: x in t.execs ==> x in s.execs || x in s.queue;
    assert LaterSeen(t, id) ==> LaterSeen(s, id);
    assert SomeUnsent(t, id) ==> SomeUnsent(s, id);
    assert SomeSentUnmarked(t, id) ==> SomeSentUnmarked(s, id);
  }

  lemma LostStep<E>(s: Pipe<E>, id: nat, l: Label<E>)
    requires LostInv(s, id) && Enabled(s, l) && Orderly(l)
    ensures LostInv(Next(s, l), id)
  {
    hide SentInOrder, Replayable;
    RelaysInvStep(s, l);
    SentInOrderStep(s, l);
    if OrderInv(s) {
      OrderStep(s, l);
    } else if l.Publish? {
      LostPublish(s, id, l.r, l.outcome);
    } else {
      MarkCommutes(s, id, l);
      OrderStep(WithMark(s, id), l);
      hide RelaysInv, OrderInv;
      match l
      case MarkPublished(r) => MarkKeepsHarmless(s, id, r);
      case ReadBatch(r, limit) => ReadKeepsHarmless(s, id, r, limit);
      case _ => OtherKeepsHarmless(s, id, l);
    }
  }

  lemma {:induction false} LostRun<E>(s: Pipe<E>, id: nat, ls: seq<Label<E>>)
    requires LostInv(s, id) && Run(s, ls).Some? && OrderlyRun(ls)
    ensures LostInv(Run(s, ls).value, id)
    decreases |ls|
  {
    hide LostInv;
    if ls == [] {
    } else {
      LostStep(s, id, ls[0]);
      LostRun(Next(s, ls[0]), id, ls[1..]);
    }
  }

  lemma LostInvStutters<E>(s: Pipe<E>, id: nat)
    requires LostInv(s, id)
    ensures Stutters(s.rows, s.execs)
  {}

  lemma LostInvKeepsOrder<E(!new)>(s: Pipe<E>, id: nat)
    requires LostInv(s, id)
    ensures KeepsOrder(s)
  {
    hide LostInv, Stutters;
    forall ls | OrderlyRun(ls) && Run(s, ls).Some?
      ensures Stutters(Run(s, ls).value.rows, Run(s, ls).value.execs)
    {
      LostRun(s, id, ls);
      LostInvStutters(Run(s, ls).value, id);
    }
  }

  // ---------------------------------------------------------------- harmful losses

  /** Row `id` was executed and acknowledged, its mark was lost and no copy is queued; nothing later is marked. */
  ghost predicate Lost<E>(s: Pipe<E>, id: nat) {
    && RelaysInv(s) && s.phase.Waiting? && IsBound(s.rows, id)
    && id !in s.marks && id !in s.queue && forall j :: j in s.marks ==> j < id
  }

  /** What relay steps leave alone, and what relay `r` adds to the queue: rows from `low` up to `id`. */
  ghost predicate Sends<E>(s: Pipe<E>, t: Pipe<E>, r: nat, low: nat, id: nat) {
    && RelaysInv(t)
    && t.phase == s.phase && t.marks == s.marks && t.execs == s.execs
    && |t.relays| == |s.relays| && (forall q :: 0 <= q < |s.relays| && q != r ==> t.relays[q] == s.relays[q])
    && |t.rows| == |s.rows|
    && (forall i :: 0 <= i < |s.rows| ==>
          t.rows[i].bound == s.rows[i].bound && (s.rows[i].published ==> t.rows[i].published))
    && |s.queue| < |t.queue| && t.queue[..|s.queue|] == s.queue && t.queue[|t.queue| - 1] == id
    && (forall k :: |s.queue| <= k < |t.queue| - 1 ==> low <= t.queue[k] < id)
  }

  /** A relay that holds row `id` unsent can send it, after the rows before it in its batch. */
  lemma {:induction false} RelayReaches<E>(s: Pipe<E>, r: nat, id: nat) returns (ls: seq<Label<E>>)
    requires RelaysInv(s) && r < |s.relays| && Unsent(s.relays[r], id) && IsBound(s.rows, id)
    ensures OrderlyRun(ls) && Run(s, ls).Some?
    ensures Sends(s, Run(s, ls).value, r, s.relays[r].batch[s.relays[r].pos], id)
    decreases id - s.relays[r].batch[s.relays[r].pos], if s.relays[r].sent then 0 else 1
  {
    var relay := s.relays[r];
    var row := relay.batch[relay.pos];
    assert RelayOk(s, relay);
    var l := if relay.sent then Label<E>.MarkPublished(r) else Label<E>.Publish(r, Confirmed);
    var t := Next(s, l);
    RelaysInvStep(s, l);
    if row == id {
      ls := [l];
      RunStart(t);
      RunOne(s, l, []);
      assert [l] + [] == [l];
    } else {
      ReachStep(s, r, id);
      var rest := RelayReaches(t, r, id);
      ls := [l] + rest;
      RunOne(s, l, rest);
      SendsOn(s, t, Run(t, rest).value, r, row, t.relays[r].batch[t.relays[r].pos], id);
    }
  }

  /** One step of a relay on its way to row `id`. */
  lemma ReachStep<E>(s: Pipe<E>, r: nat, id: nat)
    requires RelaysInv(s) && r < |s.relays| && Unsent(s.relays[r], id) && s.relays[r].batch[s.relays[r].pos] != id
    requires IsBound(s.rows, id)
    ensures var relay := s.relays[r];
            var l := if relay.sent then Label<E>.MarkPublished(r) else Label<E>.Publish(r, Confirmed);
            && Enabled(s, l) && Unsent(Next(s, l).relays[r], id) && relay.batch[relay.pos] < id
            && var next := Next(s, l).relays[r];
               next.batch[next.pos] == relay.batch[relay.pos] + if relay.sent then 1 else 0
  {
    var relay := s.relays[r];
    assert RelayOk(s, relay);
    var k :| relay.pos <= k < |relay.batch| && relay.batch[k] == id && (k == relay.pos ==> !relay.sent);
    assert relay.pos + 1 < |relay.batch|;
    var l := if relay.sent then Label<E>.MarkPublished(r) else Label<E>.Publish(r, Confirmed);
    var next := Next(s, l).relays[r];
    assert next.pos <= k < |next.batch| && next.batch[k] == id;
  }

  lemma SendsOn<E>(s: Pipe<E>, t: Pipe<E>, u: Pipe<E>, r: nat, row: nat, low: nat, id: nat)
    requires r < |s.relays| && s.relays[r].Busy? && s.relays[r].pos < |s.relays[r].batch|
    requires row == s.relays[r].batch[s.relays[r].pos] < id && row <= low && row < |s.rows|
    requires t == Next(s, if s.relays[r].sent then Label<E>.MarkPublished(r) else Label<E>.Publish(r, Confirmed))
    requires Sends(t, u, r, low, id)
    ensures Sends(s, u, r, row, id)
  {
    hide RelaysInv;
    assert t.queue == s.queue || t.queue == s.queue + [row];
    assert u.queue[..|s.queue|] == u.queue[..|t.queue|][..|s.queue|];
    forall k | |s.queue| <= k < |u.queue| - 1 ensures row <= u.queue[k] < id {
      if k < |t.queue| {
        assert u.queue[k] == u.queue[..|t.queue|][k];
      }
    }
  }

  lemma OrderlyOne<E>(l: Label<E>)
    requires Orderly(l)
    ensures OrderlyRun([l])
  {}

  /** A later event is queued and a relay still sends a copy of the executed one. */
  lemma LaterQueued<E>(s: Pipe<E>, r: nat, id: nat, k: nat) returns (ls: seq<Label<E>>)
    requires Lost(s, id) && r < |s.relays| && Unsent(s.relays[r], id)
    requires k < |s.queue| && id < s.queue[k]
    ensures OrderlyRun(ls) && Run(s, ls).Some? && !Sorted(Run(s, ls).value.execs)
  {
    hide Run, OrderlyRun, Unsent, RelaysInv;
    var first := RelayReaches(s, r, id);
    var t := Run(s, first).value;
    assert t.queue[..k + 1] == s.queue[..k + 1] by {
      assert t.queue[..k + 1] == t.queue[..|s.queue|][..k + 1];
    }
    var second := WrongOrderExecutes(t, k, |t.queue| - 1);
    ls := first + second;
    RunSplits(s, first, second);
    OrderlyAppend(first, second);
  }

  lemma {:induction false} PendingComplete<E>(rows: seq<Row<E>>, i: nat, limit: nat, j: nat)
    requires i <= j < |rows| && !rows[j].published && |rows| - i <= limit
    ensures j in Pending(rows, i, limit)
    decreases |rows| - i
  {
    if i == j {
    } else {
      PendingComplete(rows, i + 1, if rows[i].published then limit else limit - 1, j);
    }
  }

  /** A relay can give up its batch. */
  lemma MakeIdle<E>(s: Pipe<E>, r: nat) returns (ls: seq<Label<E>>)
    requires RelaysInv(s) && r < |s.relays|
    ensures OrderlyRun(ls) && Run(s, ls) == Some(s.(relays := s.relays[r := Idle])) && RelaysInv(Run(s, ls).value)
  {
    RunStart(s);
    if s.relays[r].Busy? {
      ls := [Label<E>.RelayCrash(r)];
      RunOne(s, Label<E>.RelayCrash(r), []);
      RunStart(Next(s, Label<E>.RelayCrash(r)));
      assert [Label<E>.RelayCrash(r)] + [] == ls;
      RelaysInvStep(s, Label<E>.RelayCrash(r));
    } else {
      ls := [];
      assert s.relays[r := Idle] == s.relays;
    }
  }

  /** A relay can give up its batch and read anew; row `id`, if unpublished, is then in the batch. */
  lemma Rereads<E>(s: Pipe<E>, r: nat, id: nat) returns (ls: seq<Label<E>>)
    requires RelaysInv(s) && r < |s.relays| && id < |s.rows| && !s.rows[id].published
    ensures OrderlyRun(ls) && Run(s, ls).Some?
    ensures var t := Run(s, ls).value;
            && RelaysInv(t) && |t.relays| == |s.relays| && t == s.(relays := s.relays[r := t.relays[r]])
            && Unsent(t.relays[r], id)
            && t.relays[r].Busy? && t.relays[r].pos < |t.relays[r].batch|
            && var row := t.relays[r].batch[t.relays[r].pos];
               row < |s.rows| && !s.rows[row].published
  {
    hide RelaysInv;
    var first := MakeIdle(s, r);
    var idle := s.(relays := s.relays[r := Idle]);
    var l := Label<E>.ReadBatch(r, |s.rows|);
    PendingComplete(s.rows, 0, |s.rows|, id);
    PendingAreUnpublished(s.rows, 0, |s.rows|);
    var batch := Pending(s.rows, 0, |s.rows|);
    RelaysInvStep(idle, l);
    RunThen(s, first, l);
    ls := first + [l];
    hide Run;
    assert s.relays[r := Idle][r := Busy(batch, 0, false)] == s.relays[r := Busy(batch, 0, false)];
    assert Unsent(Busy(batch, 0, false), id);
  }

  /** Row `id` is marked: a relay can deliver a new event, and nothing else than later ones with it. */
  lemma NewEventArrives<E>(s: Pipe<E>, q: nat, id: nat) returns (ls: seq<Label<E>>)
    requires RelaysInv(s) && q < |s.relays| && id < |s.rows| && s.rows[id].published && id !in s.queue
    ensures OrderlyRun(ls) && Run(s, ls).Some?
    ensures var t := Run(s, ls).value;
            && RelaysInv(t) && t.phase == s.phase && t.marks == s.marks && t.execs == s.execs
            && |t.relays| == |s.relays| && (forall r :: 0 <= r < |s.relays| && r != q ==> t.relays[r] == s.relays[r])
            && |s.rows| <= |t.rows| && t.rows[id].bound == s.rows[id].bound
            && id !in t.queue && t.queue != [] && id < t.queue[|t.queue| - 1]
  {
    hide OrderlyRun, Unsent, Run;
    var l := Label<E>.Commit(s.rows[id].event, true);
    var m := |s.rows|;
    var a := Next(s, l);
    RelaysInvStep(s, l);
    var read := Rereads(a, q, m);
    var b := Run(a, read).value;
    var send := RelayReaches(b, q, m);
    var c := Run(b, send).value;
    var low := b.relays[q].batch[b.relays[q].pos];
    LowIsLater(b, q, id);
    NotQueued(a, c, id, low, m);
    RunOne(s, l, read + send);
    RunSplits(a, read, send);
    ls := [l] + (read + send);
    OrderlyAppend(read, send);
    OrderlyOne(l);
    OrderlyAppend([l], read + send);
  }

  /** Row `id` is marked and waits in a stale batch; another relay can send a new event before it. */
  lemma NewEventOvertakes<E>(s: Pipe<E>, r: nat, q: nat, id: nat) returns (ls: seq<Label<E>>)
    requires Lost(s, id) && r < |s.relays| && q < |s.relays| && q != r
    requires Unsent(s.relays[r], id) && s.rows[id].published
    ensures OrderlyRun(ls) && Run(s, ls).Some? && !Sorted(Run(s, ls).value.execs)
  {
    hide OrderlyRun, Unsent, Run, RelaysInv;
    var first := NewEventArrives(s, q, id);
    var t := Run(s, first).value;
    var second := LaterQueued(t, r, id, |t.queue| - 1);
    ls := first + second;
    RunSplits(s, first, second);
    OrderlyAppend(first, second);
  }

  lemma LowIsLater<E>(s: Pipe<E>, q: nat, id: nat)
    requires RelaysInv(s) && q < |s.relays| && s.relays[q].Busy? && id < |s.rows| && s.rows[id].published
    requires s.relays[q].pos < |s.relays[q].batch| && s.relays[q].batch[s.relays[q].pos] < |s.rows|
    requires !s.rows[s.relays[q].batch[s.relays[q].pos]].published
    ensures id < s.relays[q].batch[s.relays[q].pos]
  {}

  lemma NotQueued<E>(s: Pipe<E>, t: Pipe<E>, id: nat, low: nat, m: nat)
    requires id !in s.queue && id < low && |s.queue| < |t.queue| && t.queue[..|s.queue|] == s.queue
    requires t.queue[|t.queue| - 1] == m && id < m
    requires forall k :: |s.queue| <= k < |t.queue| - 1 ==> low <= t.queue[k] < m
    ensures id !in t.queue
  {
    forall k | 0 <= k < |t.queue| ensures t.queue[k] != id {
      if k < |s.queue| {
        assert t.queue[k] == s.queue[k];
      }
    }
  }

  /** Row `id` was sent and is about to be marked; another relay can read it before that. */
  lemma RereadOvertakes<E>(s: Pipe<E>, r: nat, q: nat, id: nat) returns (ls: seq<Label<E>>)
    requires Lost(s, id) && r < |s.relays| && q < |s.relays| && q != r
    requires SentUnmarked(s.relays[q], id) && !s.rows[id].published
    ensures OrderlyRun(ls) && Run(s, ls).Some? && !Sorted(Run(s, ls).value.execs)
  {
    hide Run, OrderlyRun, Unsent;
    var read := Rereads(s, r, id);
    var a := Run(s, read).value;
    var l := Label<E>.MarkPublished(q);
    var b := Next(a, l);
    RelaysInvStep(a, l);
    assert Lost(b, id) by {
      hide RelaysInv;
    }
    var rest := NewEventOvertakes(b, r, q, id);
    RunOne(a, l, rest);
    RunSplits(s, read, [l] + rest);
    ls := read + ([l] + rest);
    OrderlyOne(l);
    OrderlyAppend([l], rest);
    OrderlyAppend(read, [l] + rest);
  }

  // ---------------------------------------------------------------- the exact condition

  /** The state after the mark of the handled head was lost and the message acknowledged. */
  function AfterLostMark<E>(s: Pipe<E>): Pipe<E>
    requires s.queue != [] && s.phase.Executed?
  {
    Next(Next(s, Label<E>.MarkProcessed(false)), Label<E>.Ack)
  }

  lemma LossKeepsRelays<E>(s: Pipe<E>)
    requires RelaysInv(s) && s.queue != [] && s.phase.Executed?
    ensures RelaysInv(AfterLostMark(s))
  {
    RelaysKept(s, AfterLostMark(s), s.relays);
  }

  lemma QueuedTailCopy<E>(rows: seq<Row<E>>, queue: seq<nat>, marks: set<nat>)
    requires QueuedInOrder(rows, queue, marks) && queue != []
    requires forall k :: 0 < k < |queue| && queue[0] < queue[k] ==> queue[0] in queue[1..k]
    ensures QueuedInOrder(rows, queue[1..], marks)
  {
    var rest := queue[1..];
    forall k, j | 0 <= k < |rest| && j < rest[k] && IsBound(rows, j) ensures j in marks || j in rest[..k] {
      assert queue[k + 1] == rest[k] && queue[1..k + 1] == rest[..k];
      assert queue[..k + 1] == [queue[0]] + rest[..k];
    }
  }

  /** With another copy queued in front of every later event, order is kept as if the mark were written. */
  lemma CopyKeepsOrder<E>(s: Pipe<E>)
    requires OrderInv(s) && s.queue != [] && s.phase.Executed? && s.queue[0] in s.queue[1..]
    requires forall k :: 0 < k < |s.queue| && s.queue[0] < s.queue[k] ==> s.queue[0] in s.queue[1..k]
    ensures OrderInv(AfterLostMark(s))
  {
    QueuedTailCopy(s.rows, s.queue, s.marks);
    assert s.queue == [s.queue[0]] + s.queue[1..];
    AccountedStep(s, Label<E>.MarkProcessed(false));
    AccountedAck(Next(s, Label<E>.MarkProcessed(false)));
    hide Accounted, QueuedInOrder, Stutters, MarksFollow;
  }

  lemma HeadIsBound<E>(s: Pipe<E>)
    requires Accounted(s) && s.queue != []
    ensures IsBound(s.rows, s.queue[0])
  {
    assert s.queue[0] in s.queue;
  }

  lemma LossIsHarmless<E>(s: Pipe<E>)
    requires OrderInv(s) && s.queue != [] && s.phase.Executed?
    requires s.queue[0] !in s.queue[1..] && s.queue[0] < |s.rows| && !Replayable(s, s.queue[0])
    ensures Harmless(AfterLostMark(s), s.queue[0])
  {
    var marked := Next(s, Label<E>.MarkProcessed(true));
    OrderMark(s);
    OrderAck(marked);
    HeadIsBound(s);
    LossIsNotReplayable(s);
    hide OrderInv, Accounted, Replayable;
    assert WithMark(AfterLostMark(s), s.queue[0]) == Acknowledged(marked);
  }

  lemma LossIsNotReplayable<E>(s: Pipe<E>)
    requires s.queue != [] && s.phase.Executed? && s.queue[0] < |s.rows| && !Replayable(s, s.queue[0])
    ensures !Replayable(AfterLostMark(s), s.queue[0])
  {
    var t := AfterLostMark(s);
    forall x | x in t.queue ensures x in s.queue {
      assert s.queue == [s.queue[0]] + t.queue;
    }
    assert t.execs == s.execs && t.relays == s.relays && t.rows == s.rows;
  }

  /** The theorem's hypotheses hold in every state that an orderly run reaches. */
  lemma OrderlyStates<E>(n: nat, ls: seq<Label<E>>)
    requires Run(Start<E>(n), ls).Some? && OrderlyRun(ls)
    ensures var s := Run(Start<E>(n), ls).value; RelaysInv(s) && SentInOrder(s) && OrderInv(s)
  {
    ExecutionsStutter(Start<E>(n), ls);
    SentInOrderRun(Start<E>(n), ls);
  }

  /** A lost mark keeps the order of all orderly continuations if and only if no copy of the event can
      arrive behind a later one. */
  lemma LostMarkKeepsOrderIff<E(!new)>(s: Pipe<E>)
    requires RelaysInv(s) && SentInOrder(s) && OrderInv(s) && s.queue != [] && s.phase.Executed?
    ensures s.queue[0] < |s.rows|
    ensures KeepsOrder(AfterLostMark(s)) <==> !LostMarkHarms(s)
  {
    assert s.queue[0] in s.queue;
    if LostMarkHarms(s) {
      var ls := HarmfulRun(s);
    } else {
      KeepsLostInv(s);
      LostInvKeepsOrder(AfterLostMark(s), s.queue[0]);
    }
  }

  lemma KeepsLostInv<E>(s: Pipe<E>)
    requires RelaysInv(s) && SentInOrder(s) && OrderInv(s) && s.queue != [] && s.phase.Executed?
    requires s.queue[0] < |s.rows| && !LostMarkHarms(s)
    ensures LostInv(AfterLostMark(s), s.queue[0])
  {
    var t := AfterLostMark(s);
    LossKeepsRelays(s);
    hide RelaysInv;
    if s.queue[0] in s.marks {
      hide OrderInv;
      OrderAck(s);
      assert t == Acknowledged(s);
    } else if s.queue[0] in s.queue[1..] {
      hide OrderInv;
      CopyKeepsOrder(s);
    } else {
      hide OrderInv;
      LossIsHarmless(s);
    }
  }

  lemma HarmfulRun<E>(s: Pipe<E>) returns (ls: seq<Label<E>>)
    requires RelaysInv(s) && SentInOrder(s) && OrderInv(s) && s.queue != [] && s.phase.Executed?
    requires s.queue[0] < |s.rows| && LostMarkHarms(s)
    ensures var t := AfterLostMark(s);
            OrderlyRun(ls) && Run(t, ls).Some? && !Stutters(Run(t, ls).value.rows, Run(t, ls).value.execs)
  {
    hide Run, OrderlyRun, OrderInv, RelaysInv, SentInOrder, Replayable, Stutters, Lost;
    if s.queue[0] in s.queue[1..] {
      var k, at := CopyBehindHead(s);
      ls := LostMarkBreaksOrder(s, k, at);
    } else {
      LossIsLost(s);
      LossIsReplayable(s);
      ls := LostReplays(AfterLostMark(s), s.queue[0]);
      NotSorted(Run(AfterLostMark(s), ls).value);
    }
  }

  /** The first copy behind the head stands behind a later event. */
  lemma CopyBehindHead<E>(s: Pipe<E>) returns (k: nat, at: nat)
    requires s.queue != [] && s.queue[0] in s.queue[1..]
    requires exists k :: 0 < k < |s.queue| && s.queue[0] < s.queue[k] && s.queue[0] !in s.queue[1..k]
    ensures 0 < k < at < |s.queue| && s.queue[at] == s.queue[0] < s.queue[k] && s.queue[0] !in s.queue[1..k + 1]
  {
    var id := s.queue[0];
    k :| 0 < k < |s.queue| && id < s.queue[k] && id !in s.queue[1..k];
    var i :| 0 <= i < |s.queue[1..]| && s.queue[1..][i] == id;
    at := i + 1;
    forall j | 1 <= j < k ensures s.queue[j] != id {
      assert s.queue[1..k][j - 1] == s.queue[j];
    }
    forall j | 1 <= j < k + 1 ensures s.queue[j] != id {}
  }

  /** A copy of a lost event that can still arrive behind a later one is executed after it. */
  lemma LostReplays<E>(s: Pipe<E>, id: nat) returns (ls: seq<Label<E>>)
    requires Lost(s, id) && Replayable(s, id) && forall x :: x in s.execs ==> x <= id
    ensures OrderlyRun(ls) && Run(s, ls).Some? && !Sorted(Run(s, ls).value.execs)
  {
    hide Run, OrderlyRun, RelaysInv, Unsent, SentUnmarked;
    if s.rows[id].published {
      var r :| 0 <= r < |s.relays| && Unsent(s.relays[r], id);
      if LaterSeen(s, id) {
        var x :| x in s.queue && id < x;
        var k :| 0 <= k < |s.queue| && s.queue[k] == x;
        ls := LaterQueued(s, r, id, k);
      } else {
        ls := NewEventOvertakes(s, r, if r == 0 then 1 else 0, id);
      }
    } else {
      var q :| 0 <= q < |s.relays| && SentUnmarked(s.relays[q], id);
      ls := RereadOvertakes(s, if q == 0 then 1 else 0, q, id);
    }
  }

  lemma LossIsReplayable<E>(s: Pipe<E>)
    requires OrderInv(s) && s.queue != [] && s.phase.Executed? && s.queue[0] < |s.rows| && Replayable(s, s.queue[0])
    ensures Replayable(AfterLostMark(s), s.queue[0])
    ensures forall x :: x in AfterLostMark(s).execs ==> x <= s.queue[0]
  {
    var t := AfterLostMark(s);
    HeadIsLast(s);
    hide OrderInv;
    assert forall x :: x in s.queue && s.queue[0] < x ==> x in t.queue by {
      assert s.queue == [s.queue[0]] + t.queue;
    }
  }

  lemma LossIsLost<E>(s: Pipe<E>)
    requires RelaysInv(s) && OrderInv(s) && s.queue != [] && s.phase.Executed?
    requires s.queue[0] !in s.queue[1..] && s.queue[0] !in s.marks
    ensures Lost(AfterLostMark(s), s.queue[0])
  {
    hide RelaysInv, Accounted, Stutters, QueuedInOrder;
    LossKeepsRelays(s);
    HeadIsBound(s);
    MarksBefore(s.rows, s.execs, s.marks, s.queue[0]);
    hide MarksFollow, OrderInv;
  }

  lemma MarksBefore<E>(rows: seq<Row<E>>, execs: seq<nat>, marks: set<nat>, id: nat)
    requires MarksFollow(rows, execs, marks) && execs != [] && Last(execs) == id && id !in marks
    ensures forall j :: j in marks ==> j < id
  {}

  lemma HeadIsLast<E>(s: Pipe<E>)
    requires s.queue != [] && s.phase.Executed? && PhaseOk(s) && Sorted(s.execs)
    ensures forall x :: x in s.execs ==> x <= s.queue[0]
  {}

  // ---------------------------------------------------------------- an input

  lemma Extended<E>(s: Pipe<E>, ls: seq<Label<E>>, t: Pipe<E>, l: Label<E>, u: Pipe<E>)
    returns (t': Pipe<E>, ls': seq<Label<E>>)
    requires Run(s, ls) == Some(t) && OrderlyRun(ls) && Orderly(l) && Enabled(t, l) && Next(t, l) == u
    ensures t' == u && ls' == ls + [l] && Run(s, ls') == Some(u) && OrderlyRun(ls')
  {
    RunThen(s, ls, l);
    t', ls' := u, ls + [l];
  }

  /** Two relays have read the same row. */
  function BothRead<E>(e: E): Pipe<E> {
    Pipe([Row(e, true, false)], [Busy([0], 0, false), Busy([0], 0, false)], [], [], Waiting, {}, [], {}, {})
  }

  lemma BothReadIsReached<E>(e: E) returns (ls: seq<Label<E>>)
    ensures OrderlyRun(ls) && Run(Start<E>(2), ls) == Some(BothRead(e))
  {
    hide Run;
    var s := Start<E>(2);
    var rows, batch := [Row(e, true, false)], Busy([0], 0, false);
    assert s == Pipe([], [Idle, Idle], [], [], Waiting, {}, [], {}, {});
    assert Pending(rows, 1, 0) == [] && Pending(rows, 0, 1) == [0];
    RunStart(s);
    ls := [];
    var t := s;
    assert [] + rows == rows;
    t, ls := Extended(s, ls, t, Commit(e, true), t.(rows := rows));
    assert t.relays[0 := batch] == [batch, Idle];
    t, ls := Extended(s, ls, t, ReadBatch(0, 1), t.(relays := [batch, Idle]));
    assert t.relays[1 := batch] == [batch, batch];
    t, ls := Extended(s, ls, t, ReadBatch(1, 1), t.(relays := [batch, batch]));
  }

  /** One of them publishes and marks the row, the other still holds it; the consumer has handled it and is
      about to lose the mark: a reachable loss that breaks the order. */
  lemma HarmfulLossIsReached<E>(e: E) returns (ls: seq<Label<E>>)
    ensures OrderlyRun(ls) && Run(Start<E>(2), ls).Some?
    ensures var s := Run(Start<E>(2), ls).value;
            s.phase.Executed? && s.queue == [0] && |s.rows| == 1 && LostMarkHarms(s)
  {
    ls := BothReadIsReached(e);
    hide Run;
    var s := Start<E>(2);
    var t := BothRead(e);
    var marked, batch := [Row(e, true, true)], Busy([0], 0, false);
    assert [] + [0] == [0] && t.relays[0 := batch.(sent := true)] == [batch.(sent := true), batch];
    var sent := t.(log := [0], queue := [0], relays := [batch.(sent := true), batch]);
    t, ls := Extended(s, ls, t, Publish(0, Confirmed), sent);
    assert t.rows[0 := t.rows[0].(published := true)] == marked && t.relays[0 := Idle] == [Idle, batch];
    t, ls := Extended(s, ls, t, MarkPublished(0), t.(rows := marked, relays := [Idle, batch]));
    t, ls := Extended(s, ls, t, Deliver, t.(phase := Delivered));
    t, ls := Extended(s, ls, t, CheckProcessed(true), t.(phase := Cleared));
    t, ls := Extended(s, ls, t, Handle, t.(phase := Executed, execs := [0]));
    assert Unsent(t.relays[1], 0);
  }
}
