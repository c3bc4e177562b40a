/**
 The delivery pipeline between two services as a labelled transition system: transactional
 outbox, any number of relays, one broker queue, one serial idempotent consumer.

 A message is identified with the index of its outbox row, because `event_id` is unique per row.
 Every failure the code can meet is a label, so a property of all runs holds under crashes, broker
 errors and Redis errors; `Orderly` singles out the labels under which delivery order is kept.
 */
module Pipeline {
  import opened Wrappers

  /** One outbox row; `bound` says that its routing key matches a binding of the queue. */
  datatype Row<E> = Row(event: E, bound: bool, published: bool)

  /** A relay is between batches, or works on row `batch[pos]`; `sent` after the broker's confirm. */
  datatype Relay = Idle | Busy(batch: seq<nat>, pos: nat, sent: bool)

  /** How far the consumer is with the message at the head of the queue. */
  datatype Phase = Waiting | Delivered | Cleared | Executed | Marked

  /** `log`, `execs`, `acked` and `dead` are histories: publications, handler executions that
      committed, acknowledged messages and dead-lettered messages. */
  datatype Pipe<E> = Pipe(
    rows: seq<Row<E>>,
    relays: seq<Relay>,
    log: seq<nat>,
    queue: seq<nat>,
    phase: Phase,
    marks: set<nat>,
    execs: seq<nat>,
    acked: set<nat>,
    dead: set<nat>)

  datatype Outcome = Confirmed | DeliveredThenRaised | LostThenRaised

  /** Where the broker puts a message that was not acknowledged. */
  datatype Return = Requeue(at: nat) | DeadLetter

  datatype Label<E> =
    | Commit(event: E, bound: bool)
    | ReadBatch(r: nat, limit: nat)
    | Publish(r: nat, outcome: Outcome)
    | MarkPublished(r: nat)
    | RelayCrash(r: nat)
    | Deliver
    | CheckProcessed(redisUp: bool)
    | Handle
    | HandlerRaises(back: Return)
    | MarkProcessed(redisUp: bool)
    | Ack
    | ConsumerCrash(back: Return)
    | ExpireMark(id: nat)

  /** The ids a relay reads: unpublished rows from `i` on, in id order, at most `limit`. */
  function Pending<E>(rows: seq<Row<E>>, i: nat, limit: nat): seq<nat>
    requires i <= |rows|
    decreases |rows| - i
  {
    if i == |rows| || limit == 0 then []
    else if rows[i].published then Pending(rows, i + 1, limit)
    else [i] + Pending(rows, i + 1, limit - 1)
  }

  function Start<E>(relays: nat): Pipe<E> {
    Pipe([], seq(relays, _ => Idle), [], [], Waiting, {}, [], {}, {})
  }

  predicate BusyRelay<E>(s: Pipe<E>, r: nat) {
    r < |s.relays| && s.relays[r].Busy? && s.relays[r].pos < |s.relays[r].batch|
    && s.relays[r].batch[s.relays[r].pos] < |s.rows|
  }

  predicate CanReturn<E>(s: Pipe<E>, back: Return) {
    back.Requeue? ==> back.at < |s.queue|
  }

  predicate Enabled<E>(s: Pipe<E>, l: Label<E>) {
    match l
    case Commit(_, _) => true
    case ReadBatch(r, limit) => r < |s.relays| && s.relays[r].Idle? && 0 < limit
    case Publish(r, _) => BusyRelay(s, r) && !s.relays[r].sent
    case MarkPublished(r) => BusyRelay(s, r) && s.relays[r].sent
    case RelayCrash(r) => r < |s.relays| && s.relays[r].Busy?
    case Deliver => s.phase.Waiting? && s.queue != []
    case CheckProcessed(_) => s.phase.Delivered? && s.queue != []
    case Handle => s.phase.Cleared? && s.queue != []
    case HandlerRaises(back) => s.phase.Cleared? && s.queue != [] && CanReturn(s, back)
    case MarkProcessed(_) => s.phase.Executed? && s.queue != []
    case Ack => s.phase.Marked? && s.queue != []
    case ConsumerCrash(back) => !s.phase.Waiting? && s.queue != [] && CanReturn(s, back)
    case ExpireMark(_) => true
  }

  /** Appends the published row's id to the exchange log and, when bound, to the queue. */
  function Deliverable<E>(s: Pipe<E>, id: nat): Pipe<E>
    requires id < |s.rows|
  {
    s.(log := s.log + [id], queue := if s.rows[id].bound then s.queue + [id] else s.queue)
  }

  function Returned<E>(s: Pipe<E>, back: Return): Pipe<E>
    requires s.queue != [] && CanReturn(s, back)
  {
    var rest := s.queue[1..];
    match back
    case Requeue(at) => s.(queue := rest[..at] + [s.queue[0]] + rest[at..], phase := Waiting)
    case DeadLetter => s.(queue := rest, dead := s.dead + {s.queue[0]}, phase := Waiting)
  }

  function Acknowledged<E>(s: Pipe<E>): Pipe<E>
    requires s.queue != []
  {
    s.(queue := s.queue[1..], acked := s.acked + {s.queue[0]}, phase := Waiting)
  }

  function Next<E>(s: Pipe<E>, l: Label<E>): Pipe<E>
    requires Enabled(s, l)
  {
    match l
    case Commit(e, bound) => s.(rows := s.rows + [Row(e, bound, false)])
    case ReadBatch(r, limit) =>
      var batch := Pending(s.rows, 0, limit);
      s.(relays := s.relays[r := if batch == [] then Idle else Busy(batch, 0, false)])
    case Publish(r, outcome) =>
      var relay := s.relays[r];
      var id := relay.batch[relay.pos];
      (match outcome
       case Confirmed => Deliverable(s, id).(relays := s.relays[r := relay.(sent := true)])
       case DeliveredThenRaised => Deliverable(s, id).(relays := s.relays[r := Idle])
       case LostThenRaised => s.(relays := s.relays[r := Idle]))
    case MarkPublished(r) =>
      var relay := s.relays[r];
      var id := relay.batch[relay.pos];
      s.(rows := s.rows[id := s.rows[id].(published := true)],
         relays := s.relays[r := if relay.pos + 1 == |relay.batch| then Idle
                                 else Busy(relay.batch, relay.pos + 1, false)])
    case RelayCrash(r) => s.(relays := s.relays[r := Idle])
    case Deliver => s.(phase := Delivered)
    case CheckProcessed(redisUp) =>
      if redisUp && s.queue[0] in s.marks then Acknowledged(s) else s.(phase := Cleared)
    case Handle => s.(execs := s.execs + [s.queue[0]], phase := Executed)
    case HandlerRaises(back) => Returned(s, back)
    case MarkProcessed(redisUp) =>
      s.(marks := if redisUp then s.marks + {s.queue[0]} else s.marks, phase := Marked)
    case Ack => Acknowledged(s)
    case ConsumerCrash(back) => Returned(s, back)
    case ExpireMark(id) => s.(marks := s.marks - {id})
  }

  /** The state after a sequence of labels, or None when one of them is not enabled. */
  function Run<E>(s: Pipe<E>, ls: seq<Label<E>>): Option<Pipe<E>>
    decreases |ls|
  {
    if ls == [] then Some(s)
    else if Enabled(s, ls[0]) then Run(Next(s, ls[0]), ls[1..])
    else None
  }

  lemma {:induction false} RunSplits<E>(s: Pipe<E>, ls: seq<Label<E>>, ks: seq<Label<E>>)
    ensures Run(s, ls).None? ==> Run(s, ls + ks).None?
    ensures Run(s, ls).Some? ==> Run(s, ls + ks) == Run(Run(s, ls).value, ks)
    decreases |ls|
  {
    if ls == [] {
      assert ls + ks == ks;
    } else if Enabled(s, ls[0]) {
      assert (ls + ks)[1..] == ls[1..] + ks;
      RunSplits(Next(s, ls[0]), ls[1..], ks);
    }
  }

  lemma RunThen<E>(s: Pipe<E>, ls: seq<Label<E>>, l: Label<E>)
    requires Run(s, ls).Some? && Enabled(Run(s, ls).value, l)
    ensures Run(s, ls + [l]) == Some(Next(Run(s, ls).value, l))
  {
    RunSplits(s, ls, [l]);
  }

  lemma RunStart<E>(s: Pipe<E>)
    ensures Run(s, []) == Some(s)
  {}

  // ---------------------------------------------------------------- relays and the broker log

  ghost predicate PublishedPrefix<E>(rows: seq<Row<E>>) {
    forall i, j :: 0 <= i < j < |rows| && rows[j].published ==> rows[i].published
  }

  /** Every row below `n` is published. */
  ghost predicate PublishedBelow<E>(rows: seq<Row<E>>, n: nat) {
    n <= |rows| && forall j :: 0 <= j < n ==> rows[j].published
  }

  /** Each id is published only after every smaller one: first occurrences are in id order. */
  ghost predicate FirstsInOrder(log: seq<nat>) {
    forall k, j: nat :: 0 <= k < |log| && j < log[k] ==> j in log[..k]
  }

  ghost predicate Contiguous(batch: seq<nat>) {
    forall i :: 0 <= i < |batch| ==> batch[i] == batch[0] + i
  }

  ghost predicate RelayOk<E>(s: Pipe<E>, r: Relay) {
    r.Busy? ==>
      && r.pos < |r.batch|
      && Contiguous(r.batch)
      && r.batch[0] + |r.batch| <= |s.rows|
      && PublishedBelow(s.rows, r.batch[r.pos])
      && (r.sent ==> r.batch[r.pos] in s.log)
  }

  ghost predicate RelaysInv<E>(s: Pipe<E>) {
    && PublishedPrefix(s.rows)
    && (forall i :: 0 <= i < |s.rows| && s.rows[i].published ==> i in s.log)
    && (forall k :: 0 <= k < |s.log| ==> s.log[k] < |s.rows|)
    && FirstsInOrder(s.log)
    && (forall r :: 0 <= r < |s.relays| ==> RelayOk(s, s.relays[r]))
  }

  lemma {:induction false} PendingInOrder<E>(rows: seq<Row<E>>, i: nat, limit: nat)
    requires i <= |rows|
    ensures var b := Pending(rows, i, limit);
            && |b| <= limit
            && (forall k :: 0 <= k < |b| ==> i <= b[k] < |rows| && !rows[b[k]].published)
            && (forall j, k :: 0 <= j < k < |b| ==> b[j] < b[k])
    decreases |rows| - i
  {
    if i == |rows| || limit == 0 {
    } else {
      PendingInOrder(rows, i + 1, if rows[i].published then limit else limit - 1);
    }
  }

  lemma {:induction false} PendingSkipsNone<E>(rows: seq<Row<E>>, i: nat, limit: nat, id: nat)
    requires i <= id < |rows| && !rows[id].published && id !in Pending(rows, i, limit)
    ensures var b := Pending(rows, i, limit); |b| == limit && forall k :: 0 <= k < |b| ==> b[k] < id
    decreases |rows| - i
  {
    if limit == 0 {
    } else if rows[i].published {
      PendingSkipsNone(rows, i + 1, limit, id);
    } else {
      var rest := Pending(rows, i + 1, limit - 1);
      assert id !in rest by {
        assert forall k :: 0 <= k < |rest| ==> ([i] + rest)[k + 1] == rest[k];
      }
      assert ([i] + rest)[0] == i;
      PendingSkipsNone(rows, i + 1, limit - 1, id);
    }
  }

  /** The batch query returns the first unpublished rows in id order, at most `limit`; it leaves one out
      only when the batch is full with smaller ones. */
  lemma PendingIsFirst<E>(rows: seq<Row<E>>, limit: nat)
    ensures var b := Pending(rows, 0, limit);
            && |b| <= limit
            && (forall k :: 0 <= k < |b| ==> b[k] < |rows| && !rows[b[k]].published)
            && (forall j, k :: 0 <= j < k < |b| ==> b[j] < b[k])
            && (forall id: nat :: id < |rows| && !rows[id].published && id !in b ==>
                  |b| == limit && forall k :: 0 <= k < |b| ==> b[k] < id)
  {
    PendingInOrder(rows, 0, limit);
    hide Pending;
    forall id: nat | id < |rows| && !rows[id].published && id !in Pending(rows, 0, limit)
      ensures var b := Pending(rows, 0, limit); |b| == limit && forall k :: 0 <= k < |b| ==> b[k] < id
    {
      PendingSkipsNone(rows, 0, limit, id);
    }
  }

  lemma {:induction false} PendingUnpublished<E>(rows: seq<Row<E>>, i: nat, limit: nat)
    requires i <= |rows|
    requires forall j :: i <= j < |rows| ==> !rows[j].published
    ensures var b := Pending(rows, i, limit);
            |b| <= |rows| - i && (b != [] ==> b[0] == i) && Contiguous(b)
    decreases |rows| - i
  {
    if i == |rows| || limit == 0 {
    } else {
      PendingUnpublished(rows, i + 1, limit - 1);
    }
  }

  /** The query returns the rows right after the published prefix, with no gap. */
  lemma {:induction false} PendingFollowsPrefix<E>(rows: seq<Row<E>>, i: nat, limit: nat)
    requires PublishedPrefix(rows) && i <= |rows| && PublishedBelow(rows, i)
    ensures var b := Pending(rows, i, limit);
            b != [] ==> Contiguous(b) && b[0] + |b| <= |rows| && PublishedBelow(rows, b[0]) && !rows[b[0]].published
    ensures 0 < limit && Pending(rows, i, limit) == [] ==> PublishedBelow(rows, |rows|)
    decreases |rows| - i
  {
    if i == |rows| || limit == 0 {
    } else {
      if rows[i].published {
        PendingFollowsPrefix(rows, i + 1, limit);
      } else {
        PendingUnpublished(rows, i, limit);
      }
    }
  }

  lemma FirstsInOrderSnoc(log: seq<nat>, id: nat)
    requires FirstsInOrder(log)
    requires forall j: nat :: j < id ==> j in log
    ensures FirstsInOrder(log + [id])
  {
    var longer := log + [id];
    forall k, j: nat | 0 <= k < |longer| && j < longer[k] ensures j in longer[..k] {
      if k < |log| {
        assert longer[..k] == log[..k];
      } else {
        assert longer[..k] == log;
      }
    }
  }

  lemma RelaysInvStart<E>(n: nat)
    ensures RelaysInv(Start<E>(n))
  {}

  lemma RelaysKept<E>(s: Pipe<E>, t: Pipe<E>, relays: seq<Relay>)
    requires forall q :: 0 <= q < |relays| ==> RelayOk(s, relays[q])
    requires |s.rows| <= |t.rows| && forall i :: 0 <= i < |s.rows| && s.rows[i].published ==> t.rows[i].published
    requires forall i :: i in s.log ==> i in t.log
    ensures forall q :: 0 <= q < |relays| ==> RelayOk(t, relays[q])
  {
    forall q | 0 <= q < |relays| ensures RelayOk(t, relays[q]) {
      assert RelayOk(s, relays[q]);
    }
  }

  lemma RelaysPublish<E>(s: Pipe<E>, r: nat, outcome: Outcome)
    requires RelaysInv(s) && Enabled(s, Label<E>.Publish(r, outcome))
    ensures RelaysInv(Next(s, Label<E>.Publish(r, outcome)))
  {
    var t := Next(s, Label<E>.Publish(r, outcome));
    assert RelayOk(s, s.relays[r]);
    FirstsInOrderSnoc(s.log, s.relays[r].batch[s.relays[r].pos]);
    RelaysKept(s, t, s.relays);
    assert RelayOk(t, t.relays[r]);
  }

  lemma RelaysMark<E>(s: Pipe<E>, r: nat)
    requires RelaysInv(s) && Enabled(s, Label<E>.MarkPublished(r))
    ensures RelaysInv(Next(s, Label<E>.MarkPublished(r)))
  {
    var t := Next(s, Label<E>.MarkPublished(r));
    assert RelayOk(s, s.relays[r]);
    RelaysKept(s, t, s.relays);
    assert RelayOk(t, t.relays[r]);
  }

  /** Any step of any relay, any commit and any consumer step keeps the relay invariant. */
  lemma RelaysInvStep<E>(s: Pipe<E>, l: Label<E>)
    requires RelaysInv(s) && Enabled(s, l)
    ensures RelaysInv(Next(s, l))
  {
    match l
    case ReadBatch(_, limit) => PendingFollowsPrefix(s.rows, 0, limit);
    case Publish(r, outcome) => RelaysPublish(s, r, outcome);
    case MarkPublished(r) => RelaysMark(s, r);
    case _ => RelaysKept(s, Next(s, l), s.relays);
  }

  lemma {:induction false} RelaysInvRun<E>(s: Pipe<E>, ls: seq<Label<E>>)
    requires RelaysInv(s) && Run(s, ls).Some?
    ensures RelaysInv(Run(s, ls).value)
    decreases |ls|
  {
    if ls == [] {
    } else {
      RelaysInvStep(s, ls[0]);
      RelaysInvRun(Next(s, ls[0]), ls[1..]);
    }
  }

  /** Over every run, with any number of relays on stale batches and any crashes, the published
      rows are a prefix of the outbox, each of them was sent, and the broker sees the rows first in
      id order. */
  lemma PublishedRowsArePrefix<E>(n: nat, ls: seq<Label<E>>)
    requires Run(Start<E>(n), ls).Some?
    ensures var t := Run(Start<E>(n), ls).value;
            && PublishedPrefix(t.rows) && FirstsInOrder(t.log)
            && (forall i :: 0 <= i < |t.rows| && t.rows[i].published ==> i in t.log)
  {
    RelaysInvStart<E>(n);
    RelaysInvRun(Start<E>(n), ls);
  }

  // ---------------------------------------------------------------- no loss

  /** Where every published, bound event is, whatever failed. */
  ghost predicate Accounted<E>(s: Pipe<E>) {
    && (forall i :: i in s.log ==> i < |s.rows|)
    && (forall i :: i in s.log && s.rows[i].bound ==> i in s.queue || i in s.acked || i in s.dead)
    && (forall i :: i in s.queue ==> i in s.log && s.rows[i].bound)
    && (forall i :: i in s.execs ==> i in s.log && s.rows[i].bound)
    && (forall i :: i in s.marks ==> i in s.execs)
    && (forall i :: i in s.acked ==> i in s.execs)
    && (!s.phase.Waiting? ==> s.queue != [])
    && (s.phase.Executed? || s.phase.Marked? ==> s.queue[0] in s.execs)
  }

  lemma ReturnedMembers<E>(s: Pipe<E>, back: Return, i: nat)
    requires s.queue != [] && CanReturn(s, back)
    ensures i in s.queue ==> i in Returned(s, back).queue || i in Returned(s, back).dead
    ensures i in Returned(s, back).queue ==> i in s.queue
  {
    var rest := s.queue[1..];
    assert s.queue == [s.queue[0]] + rest;
    if back.Requeue? {
      assert rest == rest[..back.at] + rest[back.at..];
    }
  }

  lemma AccountedReturn<E>(s: Pipe<E>, back: Return)
    requires Accounted(s) && s.queue != [] && CanReturn(s, back)
    ensures Accounted(Returned(s, back))
  {
    var t := Returned(s, back);
    forall i | i in s.log && s.rows[i].bound ensures i in t.queue || i in t.acked || i in t.dead {
      ReturnedMembers(s, back, i);
    }
    forall i | i in t.queue ensures i in t.log && t.rows[i].bound {
      ReturnedMembers(s, back, i);
    }
  }

  lemma AccountedPublish<E>(s: Pipe<E>, id: nat)
    requires Accounted(s) && id < |s.rows|
    ensures Accounted(Deliverable(s, id))
  {
    assert s.queue != [] ==> (s.queue + [id])[0] == s.queue[0];
  }

  lemma AccountedAck<E>(s: Pipe<E>)
    requires Accounted(s) && s.queue != [] && s.queue[0] in s.execs
    ensures Accounted(Acknowledged(s))
  {
    assert s.queue == [s.queue[0]] + s.queue[1..];
  }

  lemma AccountedRelayStep<E>(s: Pipe<E>, l: Label<E>)
    requires Accounted(s) && Enabled(s, l)
    requires l.Commit? || l.ReadBatch? || l.Publish? || l.MarkPublished? || l.RelayCrash?
    ensures Accounted(Next(s, l))
  {
    if l.Publish? {
      AccountedPublish(s, s.relays[l.r].batch[s.relays[l.r].pos]);
    }
  }

  lemma AccountedStep<E>(s: Pipe<E>, l: Label<E>)
    requires Accounted(s) && Enabled(s, l)
    ensures Accounted(Next(s, l))
  {
    match l
    case HandlerRaises(back) => AccountedReturn(s, back);
    case ConsumerCrash(back) => AccountedReturn(s, back);
    case CheckProcessed(redisUp) =>
      if redisUp && s.queue[0] in s.marks {
        AccountedAck(s);
      }
    case Ack => AccountedAck(s);
    case Deliver =>
    case Handle =>
    case MarkProcessed(_) =>
    case ExpireMark(_) =>
    case _ => AccountedRelayStep(s, l);
  }

  lemma {:induction false} AccountedRun<E>(s: Pipe<E>, ls: seq<Label<E>>)
    requires Accounted(s) && Run(s, ls).Some?
    ensures Accounted(Run(s, ls).value)
    decreases |ls|
  {
    if ls == [] {
    } else {
      AccountedStep(s, ls[0]);
      AccountedRun(Next(s, ls[0]), ls[1..]);
    }
  }

  /** No loss: whatever fails, every committed bound event is an unpublished row, a queued message,
      a successfully handled event or a dead letter; only handled events are acknowledged. */
  lemma NoLoss<E>(n: nat, ls: seq<Label<E>>, i: nat)
    requires Run(Start<E>(n), ls).Some?
    requires var t := Run(Start<E>(n), ls).value; i < |t.rows| && t.rows[i].bound
    ensures var t := Run(Start<E>(n), ls).value;
            !t.rows[i].published || i in t.queue || i in t.execs || i in t.dead
    ensures forall m :: m in Run(Start<E>(n), ls).value.acked ==> m in Run(Start<E>(n), ls).value.execs
  {
    RelaysInvRun(Start<E>(n), ls);
    AccountedRun(Start<E>(n), ls);
  }
}
