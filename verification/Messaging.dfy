/**
 The relay and the consumer as they run. One uninterrupted call of either is a run of the pipeline's
 steps; the pipeline lets other relays and the other side act between those steps.
 */
module Messaging {
  import opened Wrappers
  import opened Pipeline

  /** Database and broker as the pipeline sees them, with one relay and no consumer yet. */
  function Solo<E>(rows: seq<Row<E>>, relay: Relay, log: seq<nat>, queue: seq<nat>): Pipe<E> {
    Pipe(rows, [relay], log, queue, Waiting, {}, [], {}, {})
  }

  lemma SoloRead<E>(rows: seq<Row<E>>, log: seq<nat>, queue: seq<nat>, limit: nat)
    requires 0 < limit
    ensures var s, l := Solo(rows, Idle, log, queue), Label<E>.ReadBatch(0, limit);
            var batch := Pending(rows, 0, limit);
            Enabled(s, l) && Next(s, l) == Solo(rows, if batch == [] then Idle else Busy(batch, 0, false), log, queue)
  {
    var batch := Pending(rows, 0, limit);
    var relay := if batch == [] then Idle else Busy(batch, 0, false);
    assert [Idle][0 := relay] == [relay];
  }

  lemma SoloPublish<E>(rows: seq<Row<E>>, batch: seq<nat>, pos: nat, log: seq<nat>, queue: seq<nat>, outcome: Outcome)
    requires pos < |batch| && batch[pos] < |rows|
    ensures var s, l := Solo(rows, Busy(batch, pos, false), log, queue), Label<E>.Publish(0, outcome);
            var id := batch[pos];
            && Enabled(s, l)
            && Next(s, l) == Solo(rows, if outcome.Confirmed? then Busy(batch, pos, true) else Idle,
                                  if outcome.LostThenRaised? then log else log + [id],
                                  if outcome.LostThenRaised? || !rows[id].bound then queue else queue + [id])
  {
    var relay := Busy(batch, pos, false);
    assert [relay][0 := Idle] == [Idle] && [relay][0 := relay.(sent := true)] == [Busy(batch, pos, true)];
  }

  lemma SoloMark<E>(rows: seq<Row<E>>, batch: seq<nat>, pos: nat, log: seq<nat>, queue: seq<nat>)
    requires pos < |batch| && batch[pos] < |rows|
    ensures var s, l := Solo(rows, Busy(batch, pos, true), log, queue), Label<E>.MarkPublished(0);
            && Enabled(s, l)
            && Next(s, l) == Solo(rows[batch[pos] := rows[batch[pos]].(published := true)],
                                  if pos + 1 == |batch| then Idle else Busy(batch, pos + 1, false), log, queue)
  {
    var relay := Busy(batch, pos, true);
    assert [relay][0 := Idle] == [Idle] && [relay][0 := Busy(batch, pos + 1, false)] == [Busy(batch, pos + 1, false)];
  }

  /** The rows after those with the given ids were marked, one by one. */
  function MarkedRows<E>(rows: seq<Row<E>>, ids: seq<nat>): (r: seq<Row<E>>)
    requires forall k :: 0 <= k < |ids| ==> ids[k] < |rows|
    ensures |r| == |rows|
  {
    if ids == [] then rows
    else
      var r, id := MarkedRows(rows, ids[..|ids| - 1]), ids[|ids| - 1];
      r[id := r[id].(published := true)]
  }

  lemma MarkedNone<E>(rows: seq<Row<E>>)
    ensures MarkedRows(rows, []) == rows
  {}

  lemma MarkedSnoc<E>(rows: seq<Row<E>>, ids: seq<nat>, id: nat)
    requires (forall k :: 0 <= k < |ids| ==> ids[k] < |rows|) && id < |rows|
    ensures var r := MarkedRows(rows, ids);
            (forall k :: 0 <= k < |ids + [id]| ==> (ids + [id])[k] < |rows|)
            && MarkedRows(rows, ids + [id]) == r[id := r[id].(published := true)]
  {
    assert (ids + [id])[..|ids|] == ids;
  }

  /** Marking sets the flag of exactly the listed rows and changes nothing else. */
  lemma {:induction false} MarkedAt<E>(rows: seq<Row<E>>, ids: seq<nat>, i: nat)
    requires (forall k :: 0 <= k < |ids| ==> ids[k] < |rows|) && i < |rows|
    ensures MarkedRows(rows, ids)[i] == rows[i].(published := rows[i].published || i in ids)
    decreases |ids|
  {
    if ids == [] {
    } else {
      MarkedAt(rows, ids[..|ids| - 1], i);
      assert ids == ids[..|ids| - 1] + [ids[|ids| - 1]];
    }
  }

  /** A batch below the limit leaves nothing unpublished. */
  lemma SmallBatchIsLast<E>(rows: seq<Row<E>>, limit: nat)
    requires |Pending(rows, 0, limit)| < limit
    ensures var b := Pending(rows, 0, limit);
            (forall k :: 0 <= k < |b| ==> b[k] < |rows|)
            && forall i :: 0 <= i < |rows| ==> MarkedRows(rows, b)[i].published
  {
    PendingIsFirst(rows, limit);
    hide Pending, MarkedRows;
    forall i: nat | i < |rows| ensures MarkedRows(rows, Pending(rows, 0, limit))[i].published {
      MarkedAt(rows, Pending(rows, 0, limit), i);
    }
  }

  class OutboxRelay<E> {
    const batchSize: nat
    var rows: seq<Row<E>>
    var attempts: seq<nat>
    var log: seq<nat>
    var queue: seq<nat>

    ghost predicate Valid()
      reads this
    {
      |attempts| == |rows| && 0 < batchSize
    }

    ghost function View(relay: Relay): Pipe<E>
      reads this
    {
      Solo(rows, relay, log, queue)
    }

    constructor (batchSize: nat, rows: seq<Row<E>>, attempts: seq<nat>, log: seq<nat>, queue: seq<nat>)
      requires 0 < batchSize && |attempts| == |rows|
      ensures Valid() && this.batchSize == batchSize && this.rows == rows && this.attempts == attempts
      ensures this.log == log && this.queue == queue
    {
      this.batchSize, this.rows, this.attempts, this.log, this.queue := batchSize, rows, attempts, log, queue;
    }

    method Deliver(id: nat)
      requires id < |rows|
      modifies this`log, this`queue
      ensures log == old(log) + [id]
      ensures queue == if rows[id].bound then old(queue) + [id] else old(queue)
    {
      log := log + [id];
      if rows[id].bound {
        queue := queue + [id];
      }
    }

    /** Publishes the pending rows in id order, marking each after its confirm, and stops at the first
        exception: `done` rows are marked, the failing one counts an attempt and stays unpublished. */
    method PublishPending(outcomes: nat -> Outcome)
      returns (r: Result<nat, Outcome>, done: nat, ghost labels: seq<Label<E>>)
      requires Valid()
      modifies this
      ensures Valid() && Run(old(View(Idle)), labels) == Some(View(Idle))
      ensures var batch := Pending(old(rows), 0, batchSize);
              && done <= |batch|
              && (forall k :: 0 <= k < done ==> outcomes(k).Confirmed?)
              && (r.Ok? ==> done == |batch| && r.value == |batch|
                            && attempts == old(attempts) && log == old(log) + batch)
              && (r.Err? ==> done < |batch| && r.error == outcomes(done) && !outcomes(done).Confirmed?
                             && batch[done] < |old(rows)|
                             && attempts == old(attempts)[batch[done] := old(attempts)[batch[done]] + 1]
                             && log == old(log) + batch[..done]
                                       + if outcomes(done).DeliveredThenRaised? then [batch[done]] else [])
      ensures var ids := Pending(old(rows), 0, batchSize)[..done];
              (forall k :: 0 <= k < |ids| ==> ids[k] < |old(rows)|) && rows == MarkedRows(old(rows), ids)
      // a batch is no larger than its limit, and a smaller one leaves nothing unpublished
      ensures r.Ok? ==> r.value <= batchSize
      ensures r.Ok? && r.value < batchSize ==> forall i :: 0 <= i < |rows| ==> rows[i].published
    {
      hide Run, Next, Enabled, Solo, Pending, MarkedRows;
      var batch := Pending(rows, 0, batchSize);
      PendingIsFirst(rows, batchSize);
      done := 0;
      ghost var start := View(Idle);
      RunStart(start);
      MarkedNone(rows);
      assert batch[..0] == [];
      SoloRead(rows, log, queue, batchSize);
      RunThen(start, [], ReadBatch(0, batchSize));
      labels := [] + [ReadBatch(0, batchSize)];
      while done < |batch|
        invariant done <= |batch| && |rows| == |old(rows)| && attempts == old(attempts)
        invariant Run(start, labels) == Some(View(if done < |batch| then Busy(batch, done, false) else Idle))
        invariant log == old(log) + batch[..done]
        invariant forall k :: 0 <= k < done ==> outcomes(k).Confirmed?
        invariant rows == MarkedRows(old(rows), batch[..done])
      {
        var id := batch[done];
        var outcome := outcomes(done);
        SoloPublish(rows, batch, done, log, queue, outcome);
        RunThen(start, labels, Publish(0, outcome));
        labels := labels + [Publish(0, outcome)];
        if !outcome.LostThenRaised? {
          Deliver(id);
        }
        assert batch[..done + 1] == batch[..done] + [id];
        if !outcome.Confirmed? {
          attempts := attempts[id := attempts[id] + 1];
          return Err(outcome), done, labels;
        }
        SoloMark(rows, batch, done, log, queue);
        RunThen(start, labels, MarkPublished(0));
        labels := labels + [MarkPublished(0)];
        MarkedSnoc(old(rows), batch[..done], id);
        rows := rows[id := rows[id].(published := true)];
        done := done + 1;
      }
      assert batch[..done] == batch;
      if |batch| < batchSize {
        SmallBatchIsLast(old(rows), batchSize);
      }
      r := Ok(|batch|);
    }
  }

  predicate Skipped<E>(s: Pipe<E>, readUp: bool)
    requires s.queue != []
  {
    readUp && s.queue[0] in s.marks
  }

  lemma RunOne<E>(s: Pipe<E>, l: Label<E>, rest: seq<Label<E>>)
    requires Enabled(s, l)
    ensures Run(s, [l] + rest) == Run(Next(s, l), rest)
  {
    assert ([l] + rest)[1..] == rest;
  }

  lemma CheckRuns<E>(s: Pipe<E>, readUp: bool, rest: seq<Label<E>>)
    requires s.queue != [] && s.phase.Waiting?
    ensures Run(s, [Label<E>.Deliver, CheckProcessed(readUp)] + rest)
            == Run(if Skipped(s, readUp) then Acknowledged(s) else s.(phase := Cleared), rest)
  {
    hide Run;
    RunOne(s, Label<E>.Deliver, [Label<E>.CheckProcessed(readUp)] + rest);
    RunOne(s.(phase := Delivered), Label<E>.CheckProcessed(readUp), rest);
    assert [Label<E>.Deliver] + ([Label<E>.CheckProcessed(readUp)] + rest)
        == [Label<E>.Deliver, CheckProcessed(readUp)] + rest;
  }

  lemma SkipRuns<E>(s: Pipe<E>)
    requires s.queue != [] && s.phase.Waiting? && Skipped(s, true)
    ensures Run(s, [Label<E>.Deliver, CheckProcessed(true)]) == Some(Acknowledged(s))
  {
    CheckRuns(s, true, []);
    hide Run;
    RunStart(Acknowledged(s));
    assert [Label<E>.Deliver, CheckProcessed(true)] + [] == [Label<E>.Deliver, CheckProcessed(true)];
  }

  lemma RaiseRuns<E>(s: Pipe<E>, readUp: bool, back: Return)
    requires s.queue != [] && s.phase.Waiting? && !Skipped(s, readUp) && CanReturn(s, back)
    ensures Run(s, [Label<E>.Deliver, CheckProcessed(readUp), HandlerRaises(back)]) == Some(Returned(s, back))
  {
    CheckRuns(s, readUp, [Label<E>.HandlerRaises(back)]);
    hide Run;
    RunStart(s.(phase := Cleared));
    RunThen(s.(phase := Cleared), [], Label<E>.HandlerRaises(back));
    assert [] + [Label<E>.HandlerRaises(back)] == [Label<E>.HandlerRaises(back)];
    assert [Label<E>.Deliver, CheckProcessed(readUp)] + [Label<E>.HandlerRaises(back)]
        == [Label<E>.Deliver, CheckProcessed(readUp), HandlerRaises(back)];
  }

  /** The state after the head was handled and acknowledged. */
  function Handled<E>(s: Pipe<E>, writeUp: bool): Pipe<E>
    requires s.queue != []
  {
    Acknowledged(s.(execs := s.execs + [s.queue[0]], marks := if writeUp then s.marks + {s.queue[0]} else s.marks))
  }

  lemma HandleRuns<E>(s: Pipe<E>, readUp: bool, writeUp: bool)
    requires s.queue != [] && s.phase.Waiting? && !Skipped(s, readUp)
    ensures Run(s, [Label<E>.Deliver, CheckProcessed(readUp), Handle, MarkProcessed(writeUp), Label<E>.Ack])
            == Some(Handled(s, writeUp))
  {
    var rest: seq<Label<E>> := [Label<E>.Handle, MarkProcessed(writeUp), Label<E>.Ack];
    CheckRuns(s, readUp, rest);
    FinishRuns(s.(phase := Cleared), writeUp);
    hide Run;
    assert [Label<E>.Deliver, CheckProcessed(readUp)] + rest
        == [Label<E>.Deliver, CheckProcessed(readUp), Handle, MarkProcessed(writeUp), Label<E>.Ack];
  }

  lemma FinishRuns<E>(s: Pipe<E>, writeUp: bool)
    requires s.queue != [] && s.phase.Cleared?
    ensures Run(s, [Label<E>.Handle, MarkProcessed(writeUp), Label<E>.Ack]) == Some(Handled(s, writeUp))
  {
    hide Run;
    var a := Next(s, Label<E>.Handle);
    var b := Next(a, Label<E>.MarkProcessed(writeUp));
    RunStart(s);
    RunThen(s, [], Label<E>.Handle);
    RunThen(s, [] + [Label<E>.Handle], Label<E>.MarkProcessed(writeUp));
    RunThen(s, [] + [Label<E>.Handle] + [Label<E>.MarkProcessed(writeUp)], Label<E>.Ack);
    assert [] + [Label<E>.Handle] + [Label<E>.MarkProcessed(writeUp)] + [Label<E>.Ack]
        == [Label<E>.Handle, MarkProcessed(writeUp), Label<E>.Ack];
  }

  class RabbitMqConsumer<E> {
    var rows: seq<Row<E>>
    var log: seq<nat>
    var queue: seq<nat>
    var marks: set<nat>
    var execs: seq<nat>
    var acked: set<nat>
    var dead: set<nat>

    ghost function View(): Pipe<E>
      reads this
    {
      Pipe(rows, [], log, queue, Waiting, marks, execs, acked, dead)
    }

    constructor (rows: seq<Row<E>>, log: seq<nat>, queue: seq<nat>)
      ensures View() == Pipe(rows, [], log, queue, Waiting, {}, [], {}, {})
    {
      this.rows, this.log, this.queue := rows, log, queue;
      marks, execs, acked, dead := {}, [], {}, {};
    }

    method Ack()
      requires queue != []
      modifies this`queue, this`acked
      ensures View() == Acknowledged(old(View()))
    {
      acked := acked + {queue[0]};
      queue := queue[1..];
    }

    /** `requeue` is None for a rejection; otherwise the broker chooses where the message goes. */
    method Nack(back: Return)
      requires queue != [] && (back.Requeue? ==> back.at < |queue|)
      modifies this`queue, this`dead
      ensures View() == Returned(old(View()), back)
    {
      var id, rest := queue[0], queue[1..];
      if back.Requeue? {
        queue := rest[..back.at] + [id] + rest[back.at..];
      } else {
        queue := rest;
        dead := dead + {id};
      }
    }

    /** Handles the message at the head: skip a duplicate, else handle, mark and acknowledge; a
        raising handler returns the message, a malformed body goes to the dead-letter queue. */
    method OnMessage(wellFormed: bool, readUp: bool, raises: bool, writeUp: bool, back: Return)
      returns (ghost labels: seq<Label<E>>)
      requires queue != [] && (back.Requeue? ==> back.at < |queue|)
      modifies this
      ensures rows == old(rows) && log == old(log)
      ensures wellFormed ==> Run(old(View()), labels) == Some(View())
      ensures !wellFormed ==> View() == Returned(old(View()), DeadLetter)
      ensures var id := old(queue[0]);
              var handled := wellFormed && !(readUp && id in old(marks)) && !raises;
              && execs == old(execs) + (if handled then [id] else [])
              && marks == old(marks) + (if handled && writeUp then {id} else {})
              && (handled ==> id in acked && queue == old(queue)[1..])
              && (wellFormed && readUp && id in old(marks) ==>
                    id in acked && queue == old(queue)[1..] && dead == old(dead))
              && (wellFormed && raises && !(readUp && id in old(marks)) ==> View() == Returned(old(View()), back))
    {
      hide Run, Next, Enabled;
      labels := [];
      ghost var start := View();
      var id := queue[0];
      if !wellFormed {
        Nack(DeadLetter);
        return;
      }
      if readUp && id in marks {
        SkipRuns(start);
        labels := [Label<E>.Deliver, CheckProcessed(readUp)];
        Ack();
        return;
      }
      if raises {
        RaiseRuns(start, readUp, back);
        labels := [Label<E>.Deliver, CheckProcessed(readUp), HandlerRaises(back)];
        Nack(back);
        return;
      }
      HandleRuns(start, readUp, writeUp);
      labels := [Label<E>.Deliver, CheckProcessed(readUp), Handle, MarkProcessed(writeUp), Label<E>.Ack];
      execs := execs + [id];
      if writeUp {
        marks := marks + {id};
      }
      Ack();
    }
  }
}
