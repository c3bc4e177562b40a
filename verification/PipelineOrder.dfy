/**
 Delivery order. When Redis answers and every returned message goes back to the head of the queue,
 the handler executions are a stuttering of the bound events in outbox order, for any number of
 relays on stale batches, duplicate publications, raising handlers and crashes of relays and consumer.
 */
module PipelineOrder {
  import opened Wrappers
  import opened Pipeline

  /** The labels under which order is promised. */
  predicate Orderly<E>(l: Label<E>) {
    match l
    case CheckProcessed(redisUp) => redisUp
    case HandlerRaises(back) => back == Requeue(0)
    case MarkProcessed(redisUp) => redisUp
    case ConsumerCrash(back) => back == Requeue(0)
    case ExpireMark(_) => false
    case _ => true
  }

  predicate OrderlyRun<E>(ls: seq<Label<E>>) {
    forall k :: 0 <= k < |ls| ==> Orderly(ls[k])
  }

  function Last(s: seq<nat>): nat
    requires s != []
  {
    s[|s| - 1]
  }

  /** The prefix of the outbox that a list of executions covers: up to the last row executed. */
  function Covered(execs: seq<nat>): nat {
    if execs == [] then 0 else Last(execs) + 1
  }

  function Frontier<E>(s: Pipe<E>): nat {
    Covered(s.execs)
  }

  predicate IsBound<E>(rows: seq<Row<E>>, j: int) {
    0 <= j < |rows| && rows[j].bound
  }

  /** e1+ e2+ e3+ ...: bound rows, in order, none skipped, each at least once. */
  ghost predicate Stutters<E>(rows: seq<Row<E>>, execs: seq<nat>) {
    && (forall k :: 0 <= k < |execs| ==> IsBound(rows, execs[k]))
    && Sorted(execs)
    && DownClosed(rows, execs)
  }

  ghost predicate Sorted(execs: seq<nat>) {
    forall i, k :: 0 <= i < k < |execs| ==> execs[i] <= execs[k]
  }

  /** Every bound row below an executed one was executed earlier. */
  ghost predicate DownClosed<E>(rows: seq<Row<E>>, execs: seq<nat>) {
    forall k, j :: 0 <= k < |execs| && j < execs[k] && IsBound(rows, j) ==> j in execs[..k]
  }

  /** A bound event is queued behind every earlier bound event that is not processed yet. */
  ghost predicate QueuedInOrder<E>(rows: seq<Row<E>>, queue: seq<nat>, marks: set<nat>) {
    forall k, j :: 0 <= k < |queue| && j < queue[k] && IsBound(rows, j) ==> j in marks || j in queue[..k]
  }

  /** Only the last executed event can still be unmarked. */
  ghost predicate MarksFollow<E>(rows: seq<Row<E>>, execs: seq<nat>, marks: set<nat>) {
    if execs == [] then marks == {}
    else
      && (forall j :: j < Last(execs) && IsBound(rows, j) ==> j in marks)
      && (forall j :: j in marks ==> j <= Last(execs))
  }

  ghost predicate PhaseOk<E>(s: Pipe<E>) {
    s.queue != [] ==>
      && (s.phase.Cleared? && s.queue[0] in s.marks ==> s.execs != [] && s.queue[0] == Last(s.execs))
      && (s.phase.Executed? ==> s.execs != [] && s.queue[0] == Last(s.execs))
      && (s.phase.Marked? ==> s.queue[0] in s.marks)
  }

  ghost predicate OrderInv<E>(s: Pipe<E>) {
    && Accounted(s)
    && Stutters(s.rows, s.execs)
    && (forall i :: i in s.log && IsBound(s.rows, i) ==> i in s.marks || i in s.queue)
    && QueuedInOrder(s.rows, s.queue, s.marks)
    && MarksFollow(s.rows, s.execs, s.marks)
    && PhaseOk(s)
  }

  // ---------------------------------------------------------------- lists

  lemma StuttersSnoc<E>(rows: seq<Row<E>>, execs: seq<nat>, id: nat)
    requires Stutters(rows, execs) && IsBound(rows, id)
    requires execs != [] ==> Last(execs) <= id
    requires forall j :: j < id && IsBound(rows, j) ==> j in execs
    ensures Stutters(rows, execs + [id])
  {
    DownClosedSnoc(rows, execs, id);
    SortedSnoc(execs, id);
    hide DownClosed, Sorted;
  }

  lemma SortedSnoc(execs: seq<nat>, id: nat)
    requires Sorted(execs) && (execs != [] ==> Last(execs) <= id)
    ensures Sorted(execs + [id])
  {
    assert forall i :: 0 <= i < |execs| ==> execs[i] <= Last(execs);
  }

  lemma DownClosedSnoc<E>(rows: seq<Row<E>>, execs: seq<nat>, id: nat)
    requires DownClosed(rows, execs)
    requires forall j :: j < id && IsBound(rows, j) ==> j in execs
    ensures DownClosed(rows, execs + [id])
  {
    var longer := execs + [id];
    forall k, j | 0 <= k < |longer| && j < longer[k] && IsBound(rows, j) ensures j in longer[..k] {
      if k < |execs| {
        assert longer[..k] == execs[..k];
      } else {
        assert longer[..k] == execs;
      }
    }
  }

  lemma StuttersFront<E>(rows: seq<Row<E>>, execs: seq<nat>)
    requires Stutters(rows, execs) && execs != []
    ensures Stutters(rows, execs[..|execs| - 1])
  {
    var shorter := execs[..|execs| - 1];
    forall k, j | 0 <= k < |shorter| && j < shorter[k] && IsBound(rows, j) ensures j in shorter[..k] {
      assert shorter[..k] == execs[..k];
    }
  }

  /** Between the last two executions lies no bound row. */
  lemma StuttersLast<E>(rows: seq<Row<E>>, execs: seq<nat>)
    requires Stutters(rows, execs) && execs != []
    ensures var before := if |execs| == 1 then 0 else execs[|execs| - 2] + 1;
            before <= execs[|execs| - 1] + 1
            && forall j :: before <= j < execs[|execs| - 1] ==> !IsBound(rows, j)
  {
    var before := if |execs| == 1 then 0 else execs[|execs| - 2] + 1;
    forall j | before <= j < execs[|execs| - 1] ensures !IsBound(rows, j) {}
  }

  lemma QueuedSnoc<E>(rows: seq<Row<E>>, queue: seq<nat>, marks: set<nat>, id: nat)
    requires QueuedInOrder(rows, queue, marks)
    requires forall j :: j < id && IsBound(rows, j) ==> j in marks || j in queue
    ensures QueuedInOrder(rows, queue + [id], marks)
  {
    var longer := queue + [id];
    forall k, j | 0 <= k < |longer| && j < longer[k] && IsBound(rows, j) ensures j in marks || j in longer[..k] {
      if k < |queue| {
        assert longer[..k] == queue[..k];
      } else {
        assert longer[..k] == queue;
      }
    }
  }

  lemma QueuedTail<E>(rows: seq<Row<E>>, queue: seq<nat>, marks: set<nat>)
    requires QueuedInOrder(rows, queue, marks) && queue != [] && queue[0] in marks
    ensures QueuedInOrder(rows, queue[1..], marks)
  {
    var rest := queue[1..];
    forall k, j | 0 <= k < |rest| && j < rest[k] && IsBound(rows, j) ensures j in marks || j in rest[..k] {
      assert queue[..k + 1] == [queue[0]] + rest[..k];
      assert queue[k + 1] == rest[k];
    }
  }

  // ---------------------------------------------------------------- steps

  /** What one handler execution does to the frontier: repeat the last event or take the next one. */
  lemma HandledIsNext<E>(s: Pipe<E>)
    requires OrderInv(s) && s.phase.Cleared?
    ensures IsBound(s.rows, s.queue[0])
    ensures s.queue[0] + 1 == Frontier(s) || Frontier(s) <= s.queue[0]
    ensures forall j :: Frontier(s) <= j < s.queue[0] ==> !IsBound(s.rows, j)
    ensures forall j :: j < s.queue[0] && IsBound(s.rows, j) ==> j in s.marks
  {
    var id := s.queue[0];
    assert id in s.queue;
    forall j | j < id && IsBound(s.rows, j) ensures j in s.marks {
      assert s.queue[..0] == [];
    }
  }

  lemma OrderHandle<E>(s: Pipe<E>)
    requires OrderInv(s) && Enabled(s, Handle)
    ensures OrderInv(Next(s, Handle))
  {
    HandledIsNext(s);
    AccountedStep(s, Handle);
    StuttersSnoc(s.rows, s.execs, s.queue[0]);
  }

  lemma OrderDeliverable<E>(s: Pipe<E>, id: nat)
    requires OrderInv(s) && id < |s.rows|
    requires forall j: nat :: j < id ==> j in s.log
    ensures OrderInv(Deliverable(s, id))
  {
    AccountedPublish(s, id);
    if s.rows[id].bound {
      QueuedSnoc(s.rows, s.queue, s.marks, id);
    }
  }

  lemma OrderMark<E>(s: Pipe<E>)
    requires OrderInv(s) && Enabled(s, MarkProcessed(true))
    ensures OrderInv(Next(s, MarkProcessed(true)))
  {
    AccountedStep(s, MarkProcessed(true));
  }

  lemma OrderAck<E>(s: Pipe<E>)
    requires OrderInv(s) && s.queue != [] && s.queue[0] in s.marks
    ensures OrderInv(Acknowledged(s))
  {
    AccountedAck(s);
    QueuedTail(s.rows, s.queue, s.marks);
    assert s.queue == [s.queue[0]] + s.queue[1..];
    hide Accounted, QueuedInOrder, Stutters, MarksFollow;
  }

  lemma OrderReturnHead<E>(s: Pipe<E>)
    requires OrderInv(s) && s.queue != []
    ensures OrderInv(Returned(s, Requeue(0)))
  {
    assert Returned(s, Requeue(0)).queue == s.queue;
  }

  /** Steps that touch neither queue, executions nor marks, and may extend or publish rows. */
  lemma OrderFrame<E>(s: Pipe<E>, t: Pipe<E>)
    requires OrderInv(s) && Accounted(t) && PhaseOk(t)
    requires |s.rows| <= |t.rows| && forall i :: 0 <= i < |s.rows| ==> t.rows[i].bound == s.rows[i].bound
    requires t.log == s.log && t.queue == s.queue && t.marks == s.marks && t.execs == s.execs
    ensures OrderInv(t)
  {
    assert forall j :: j < |s.rows| ==> IsBound(s.rows, j) == IsBound(t.rows, j);
    forall k | 0 <= k < |s.queue| ensures s.queue[k] < |s.rows| {
      assert s.queue[k] in s.queue;
    }
    forall k, j | 0 <= k < |t.queue| && j < t.queue[k] && IsBound(t.rows, j) ensures j in t.marks || j in t.queue[..k] {
      assert IsBound(s.rows, j);
    }
    forall k, j | 0 <= k < |t.execs| && j < t.execs[k] && IsBound(t.rows, j) ensures j in t.execs[..k] {
      assert IsBound(s.rows, s.execs[k]);
      assert IsBound(s.rows, j);
    }
    if s.execs != [] {
      assert IsBound(s.rows, s.execs[|s.execs| - 1]);
    }
  }

  lemma OrderPublish<E>(s: Pipe<E>, r: nat, outcome: Outcome)
    requires RelaysInv(s) && OrderInv(s) && Enabled(s, Label<E>.Publish(r, outcome))
    ensures OrderInv(Next(s, Label<E>.Publish(r, outcome)))
  {
    var l := Label<E>.Publish(r, outcome);
    AccountedStep(s, l);
    assert RelayOk(s, s.relays[r]);
    if outcome.LostThenRaised? {
      OrderFrame(s, Next(s, l));
    } else {
      var id := s.relays[r].batch[s.relays[r].pos];
      OrderDeliverable(s, id);
      OrderFrame(Deliverable(s, id), Next(s, l));
    }
  }

  lemma OrderConsumerStep<E>(s: Pipe<E>, l: Label<E>)
    requires OrderInv(s) && Enabled(s, l) && Orderly(l)
    requires l.Deliver? || l.CheckProcessed? || l.Handle? || l.MarkProcessed? || l.Ack? || l.ConsumerCrash?
             || l.HandlerRaises?
    ensures OrderInv(Next(s, l))
  {
    match l
    case Deliver =>
      AccountedStep(s, l);
      OrderFrame(s, Next(s, l));
    case CheckProcessed(_) =>
      if s.queue[0] in s.marks {
        OrderAck(s);
      } else {
        AccountedStep(s, l);
        OrderFrame(s, Next(s, l));
      }
    case Handle => OrderHandle(s);
    case MarkProcessed(_) => OrderMark(s);
    case Ack => OrderAck(s);
    case ConsumerCrash(_) => OrderReturnHead(s);
    case HandlerRaises(_) => OrderReturnHead(s);
  }

  lemma OrderStep<E>(s: Pipe<E>, l: Label<E>)
    requires RelaysInv(s) && OrderInv(s) && Enabled(s, l) && Orderly(l)
    ensures OrderInv(Next(s, l))
  {
    match l
    case Publish(r, outcome) => OrderPublish(s, r, outcome);
    case Commit(_, _) =>
      AccountedStep(s, l);
      OrderFrame(s, Next(s, l));
    case ReadBatch(_, _) =>
      AccountedStep(s, l);
      OrderFrame(s, Next(s, l));
    case MarkPublished(_) =>
      AccountedStep(s, l);
      OrderFrame(s, Next(s, l));
    case RelayCrash(_) =>
      AccountedStep(s, l);
      OrderFrame(s, Next(s, l));
    case _ => OrderConsumerStep(s, l);
  }

  lemma {:induction false} ExecutionsStutter<E>(s: Pipe<E>, ls: seq<Label<E>>)
    requires RelaysInv(s) && OrderInv(s) && Run(s, ls).Some? && OrderlyRun(ls)
    ensures RelaysInv(Run(s, ls).value) && OrderInv(Run(s, ls).value)
    decreases |ls|
  {
    if ls == [] {
    } else {
      RelaysInvStep(s, ls[0]);
      OrderStep(s, ls[0]);
      ExecutionsStutter(Next(s, ls[0]), ls[1..]);
    }
  }

  /** All orderly continuations execute in order. */
  ghost predicate KeepsOrder<E(!new)>(s: Pipe<E>) {
    forall ls :: OrderlyRun(ls) && Run(s, ls).Some? ==> Stutters(Run(s, ls).value.rows, Run(s, ls).value.execs)
  }

  lemma InvKeepsOrder<E(!new)>(s: Pipe<E>)
    requires RelaysInv(s) && OrderInv(s)
    ensures KeepsOrder(s)
  {
    forall ls | OrderlyRun(ls) && Run(s, ls).Some?
      ensures Stutters(Run(s, ls).value.rows, Run(s, ls).value.execs)
    {
      ExecutionsStutter(s, ls);
    }
  }

  // ---------------------------------------------------------------- reading the stutter

  /** Adjacent repetitions removed. */
  function Collapse(s: seq<nat>): seq<nat> {
    if |s| < 2 then s
    else if s[|s| - 2] == s[|s| - 1] then Collapse(s[..|s| - 1])
    else Collapse(s[..|s| - 1]) + [s[|s| - 1]]
  }

  /** The bound rows among the first `n`, in id order. */
  function BoundIds<E>(rows: seq<Row<E>>, n: nat): seq<nat>
    requires n <= |rows|
  {
    if n == 0 then []
    else BoundIds(rows, n - 1) + (if rows[n - 1].bound then [n - 1] else [])
  }

  lemma {:induction false} BoundIdsSkip<E>(rows: seq<Row<E>>, m: nat, n: nat)
    requires m <= n <= |rows| && forall j :: m <= j < n ==> !IsBound(rows, j)
    ensures BoundIds(rows, n) == BoundIds(rows, m)
    decreases n
  {
    if m == n {
    } else {
      assert !IsBound(rows, n - 1);
      BoundIdsSkip(rows, m, n - 1);
    }
  }

  /** Without repetitions the executions are exactly the bound rows up to the last one executed. */
  lemma {:induction false} CollapsedExecutions<E>(rows: seq<Row<E>>, execs: seq<nat>)
    requires Stutters(rows, execs) && execs != []
    ensures IsBound(rows, Last(execs))
    ensures Collapse(execs) == BoundIds(rows, Last(execs) + 1)
    decreases |execs|
  {
    var n := |execs|;
    var last := execs[n - 1];
    assert IsBound(rows, last);
    StuttersLast(rows, execs);
    if n == 1 {
      BoundIdsSkip(rows, 0, last);
    } else {
      StuttersFront(rows, execs);
      hide Stutters;
      CollapsedExecutions(rows, execs[..n - 1]);
      if execs[n - 2] != last {
        BoundIdsSkip(rows, execs[n - 2] + 1, last);
      }
    }
  }

  // ---------------------------------------------------------------- drained

  /** Every row is published and the queue is empty. */
  ghost predicate Drained<E>(s: Pipe<E>) {
    s.queue == [] && forall i :: 0 <= i < |s.rows| ==> s.rows[i].published
  }

  lemma FrontierInRows<E>(s: Pipe<E>)
    requires Stutters(s.rows, s.execs)
    ensures Frontier(s) <= |s.rows|
  {
    assert s.execs != [] ==> IsBound(s.rows, s.execs[|s.execs| - 1]);
  }

  /** Once drained, the executed prefix leaves out no bound event. */
  lemma DrainedFrontier<E>(s: Pipe<E>)
    requires RelaysInv(s) && OrderInv(s) && Drained(s)
    ensures Frontier(s) <= |s.rows|
    ensures forall i :: Frontier(s) <= i < |s.rows| ==> !IsBound(s.rows, i)
  {
    FrontierInRows(s);
    forall i | Frontier(s) <= i < |s.rows| ensures !IsBound(s.rows, i) {
      assert i in s.log;
    }
  }

  // ---------------------------------------------------------------- folding a handler

  function Events<E>(rows: seq<Row<E>>): seq<E> {
    seq(|rows|, i requires 0 <= i < |rows| => rows[i].event)
  }

  /** The projection a handler builds from a list of events. */
  function Fold<E, S>(step: (S, E) -> S, init: S, events: seq<E>): S {
    if events == [] then init
    else step(Fold(step, init, events[..|events| - 1]), events[|events| - 1])
  }

  /** The events of all executions, as they happened. */
  function Executed<E>(rows: seq<Row<E>>, execs: seq<nat>): seq<E>
    requires forall k :: 0 <= k < |execs| ==> IsBound(rows, execs[k])
  {
    seq(|execs|, k requires 0 <= k < |execs| && IsBound(rows, execs[k]) => rows[execs[k]].event)
  }

  ghost predicate Idempotent<E, S>(step: (S, E) -> S, s: S, e: E) {
    step(step(s, e), e) == step(s, e)
  }

  ghost predicate Ignores<E, S>(step: (S, E) -> S, s: S, e: E) {
    step(s, e) == s
  }

  /** A handler that sets absolute values and ignores events of other queues. */
  ghost predicate AbsoluteHandler<E(!new), S(!new)>(step: (S, E) -> S, rows: seq<Row<E>>) {
    && (forall s: S, e: E :: Idempotent(step, s, e))
    && (forall s: S, i :: 0 <= i < |rows| && !rows[i].bound ==> Ignores(step, s, rows[i].event))
  }

  lemma FoldLast<E, S>(step: (S, E) -> S, init: S, events: seq<E>, n: nat)
    requires n < |events|
    ensures Fold(step, init, events[..n + 1]) == step(Fold(step, init, events[..n]), events[n])
  {
    assert events[..n + 1][..n] == events[..n];
  }

  lemma {:induction false} FoldSkip<E(!new), S(!new)>(step: (S, E) -> S, init: S, rows: seq<Row<E>>, m: nat, n: nat)
    requires AbsoluteHandler(step, rows)
    requires m <= n <= |rows| && forall j :: m <= j < n ==> !IsBound(rows, j)
    ensures Fold(step, init, Events(rows)[..n]) == Fold(step, init, Events(rows)[..m])
    decreases n
  {
    if m == n {
    } else {
      FoldSkip(step, init, rows, m, n - 1);
      assert !IsBound(rows, n - 1);
      FoldLast(step, init, Events(rows), n - 1);
      assert Ignores(step, Fold(step, init, Events(rows)[..n - 1]), rows[n - 1].event);
    }
  }

  /** One execution moves an absolute projection to the prefix that ends with the executed row. */
  lemma ExecutionFolds<E(!new), S(!new)>(step: (S, E) -> S, init: S, rows: seq<Row<E>>, frontier: nat, id: nat)
    requires AbsoluteHandler(step, rows) && frontier <= |rows| && id < |rows|
    requires id + 1 == frontier || frontier <= id
    requires forall j :: frontier <= j < id ==> !IsBound(rows, j)
    ensures Fold(step, init, Events(rows)[..id + 1]) == step(Fold(step, init, Events(rows)[..frontier]), rows[id].event)
  {
    FoldLast(step, init, Events(rows), id);
    if id + 1 == frontier {
      assert Idempotent(step, Fold(step, init, Events(rows)[..id]), rows[id].event);
    } else {
      FoldSkip(step, init, rows, frontier, id);
    }
  }

  lemma CoveredStep<E>(rows: seq<Row<E>>, execs: seq<nat>)
    requires Stutters(rows, execs) && execs != []
    ensures var f := Covered(execs[..|execs| - 1]);
            && IsBound(rows, Last(execs)) && f <= Last(execs) + 1 <= |rows|
            && (forall j :: f <= j < Last(execs) ==> !IsBound(rows, j))
            && Stutters(rows, execs[..|execs| - 1])
  {
    StuttersFront(rows, execs);
    StuttersLast(rows, execs);
    assert IsBound(rows, execs[|execs| - 1]);
    hide Stutters;
  }

  lemma ExecutedSnoc<E>(rows: seq<Row<E>>, execs: seq<nat>)
    requires execs != [] && forall k :: 0 <= k < |execs| ==> IsBound(rows, execs[k])
    ensures IsBound(rows, Last(execs))
    ensures Executed(rows, execs) == Executed(rows, execs[..|execs| - 1]) + [rows[Last(execs)].event]
  {}

  /** Exactly-once effect: folding over every execution, duplicates included, is folding over a
      prefix of the committed events. */
  lemma {:induction false} ExecutionsFoldToPrefix<E(!new), S(!new)>(
    step: (S, E) -> S, init: S, rows: seq<Row<E>>, execs: seq<nat>)
    requires AbsoluteHandler(step, rows) && Stutters(rows, execs)
    ensures Covered(execs) <= |rows|
    ensures Fold(step, init, Executed(rows, execs)) == Fold(step, init, Events(rows)[..Covered(execs)])
    decreases |execs|
  {
    if execs == [] {
    } else {
      CoveredStep(rows, execs);
      ExecutedSnoc(rows, execs);
      var front := execs[..|execs| - 1];
      ExecutionsFoldToPrefix(step, init, rows, front);
      ExecutionFolds(step, init, rows, Covered(front), Last(execs));
      hide AbsoluteHandler, Stutters, Executed, Events;
      FoldSnoc(step, init, Executed(rows, front), rows[Last(execs)].event);
    }
  }

  lemma FoldSnoc<E, S>(step: (S, E) -> S, init: S, events: seq<E>, e: E)
    ensures Fold(step, init, events + [e]) == step(Fold(step, init, events), e)
  {
    assert (events + [e])[..|events|] == events;
  }

  // ---------------------------------------------------------------- over every run

  lemma CollapsedCovered<E>(rows: seq<Row<E>>, execs: seq<nat>)
    requires Stutters(rows, execs)
    ensures Covered(execs) <= |rows| && Collapse(execs) == BoundIds(rows, Covered(execs))
  {
    if execs != [] {
      CollapsedExecutions(rows, execs);
      hide Stutters, Collapse, BoundIds;
    }
  }

  /** Over every orderly run the handler executions, repetitions removed, are exactly the bound rows
      of a prefix of the outbox in id order. */
  lemma HandlersRunInOrder<E>(n: nat, ls: seq<Label<E>>)
    requires Run(Start<E>(n), ls).Some? && OrderlyRun(ls)
    ensures var t := Run(Start<E>(n), ls).value;
            && Stutters(t.rows, t.execs) && Covered(t.execs) <= |t.rows|
            && Collapse(t.execs) == BoundIds(t.rows, Covered(t.execs))
  {
    ExecutionsStutter(Start<E>(n), ls);
    hide RelaysInv, Run, Stutters, Collapse, BoundIds, OrderlyRun;
    CollapsedCovered(Run(Start<E>(n), ls).value.rows, Run(Start<E>(n), ls).value.execs);
  }

  /** Whatever was delivered twice or handled twice on the way, an absolute handler has built the
      projection of a prefix of the committed events. */
  lemma ExactlyOnceEffect<E(!new), S(!new)>(step: (S, E) -> S, init: S, n: nat, ls: seq<Label<E>>)
    requires Run(Start<E>(n), ls).Some? && OrderlyRun(ls)
    requires AbsoluteHandler(step, Run(Start<E>(n), ls).value.rows)
    ensures var t := Run(Start<E>(n), ls).value;
            && Stutters(t.rows, t.execs) && Covered(t.execs) <= |t.rows|
            && Fold(step, init, Executed(t.rows, t.execs)) == Fold(step, init, Events(t.rows)[..Covered(t.execs)])
  {
    ExecutionsStutter(Start<E>(n), ls);
    var t := Run(Start<E>(n), ls).value;
    hide RelaysInv, Run, Stutters, AbsoluteHandler;
    ExecutionsFoldToPrefix(step, init, t.rows, t.execs);
  }
}
