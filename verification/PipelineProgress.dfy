/**
 Draining. Without new commits and without failures every pipeline step uses up a measure over
 unpublished rows, relay batches and queued messages, and the only states with no step left are
 those in which the outbox is published and the queue is empty.
 */
module PipelineProgress {
  import opened Wrappers
  import opened Pipeline
  import opened PipelineOrder

  const STEPS_PER_MESSAGE := 5

  /** A failure-free step that does something; polling an outbox with nothing to publish is none. */
  predicate Progress<E>(s: Pipe<E>, l: Label<E>) {
    Enabled(s, l) &&
    match l
    case ReadBatch(_, limit) => Pending(s.rows, 0, limit) != []
    case Publish(_, outcome) => outcome.Confirmed?
    case MarkPublished(_) => true
    case Deliver => true
    case CheckProcessed(redisUp) => redisUp
    case Handle => true
    case MarkProcessed(redisUp) => redisUp
    case Ack => true
    case _ => false
  }

  predicate Settled<E>(s: Pipe<E>) {
    && s.queue == []
    && s.phase.Waiting?
    && (forall r :: 0 <= r < |s.relays| ==> s.relays[r].Idle?)
    && (forall i :: 0 <= i < |s.rows| ==> s.rows[i].published)
  }

  function Unpublished<E>(rows: seq<Row<E>>, i: nat): nat
    requires i <= |rows|
    decreases |rows| - i
  {
    if i == |rows| then 0
    else (if rows[i].published then 0 else 1) + Unpublished(rows, i + 1)
  }

  /** Steps a relay may still cause: its batch, then what it could read afterwards. */
  function RelayWeight<E>(rows: seq<Row<E>>, r: Relay): int {
    match r
    case Idle => 8 * Unpublished(rows, 0)
    case Busy(batch, pos, sent) =>
      if batch == [] || |rows| < batch[0] + |batch| then 0
      else 7 * (|batch| - pos) - (if sent then 6 else 0) + 8 * Unpublished(rows, batch[0] + |batch|)
  }

  function RelaysWeight<E>(rows: seq<Row<E>>, relays: seq<Relay>): int {
    if relays == [] then 0
    else RelayWeight(rows, relays[0]) + RelaysWeight(rows, relays[1..])
  }

  function PhaseRank(p: Phase): nat {
    match p
    case Waiting => 0
    case Delivered => 1
    case Cleared => 2
    case Executed => 3
    case Marked => 4
  }

  function Measure<E>(s: Pipe<E>): int {
    RelaysWeight(s.rows, s.relays) + STEPS_PER_MESSAGE * |s.queue| - PhaseRank(s.phase)
  }

  ghost predicate RelaysOk<E>(s: Pipe<E>, relays: seq<Relay>) {
    forall q :: 0 <= q < |relays| ==> RelayOk(s, relays[q])
  }

  lemma {:induction false} WeightNonnegative<E>(s: Pipe<E>, relays: seq<Relay>)
    requires RelaysOk(s, relays)
    ensures 0 <= RelaysWeight(s.rows, relays)
    decreases |relays|
  {
    if relays == [] {
    } else {
      assert RelayOk(s, relays[0]);
      WeightNonnegative(s, relays[1..]);
    }
  }

  lemma MeasureNonnegative<E>(s: Pipe<E>)
    requires RelaysInv(s) && Accounted(s)
    ensures 0 <= Measure(s)
  {
    WeightNonnegative(s, s.relays);
  }

  lemma {:induction false} UnpublishedSkip<E>(rows: seq<Row<E>>, i: nat, e: nat)
    requires i <= e && PublishedBelow(rows, e)
    ensures Unpublished(rows, i) == Unpublished(rows, e)
    decreases e - i
  {
    if i == e {
    } else {
      UnpublishedSkip(rows, i + 1, e);
    }
  }

  lemma {:induction false} UnpublishedCount<E>(rows: seq<Row<E>>, i: nat, e: nat)
    requires i <= e <= |rows| && forall j :: i <= j < e ==> !rows[j].published
    ensures Unpublished(rows, i) == e - i + Unpublished(rows, e)
    decreases e - i
  {
    if i == e {
    } else {
      UnpublishedCount(rows, i + 1, e);
    }
  }

  lemma {:induction false} UnpublishedShrinks<E>(rows: seq<Row<E>>, id: nat, i: nat)
    requires id < |rows| && i <= |rows|
    ensures Unpublished(rows[id := rows[id].(published := true)], i) <= Unpublished(rows, i)
    decreases |rows| - i
  {
    if i == |rows| {
    } else {
      UnpublishedShrinks(rows, id, i + 1);
    }
  }

  lemma {:induction false} UpdateWeight<E>(rows: seq<Row<E>>, relays: seq<Relay>, r: nat, relay: Relay)
    requires r < |relays|
    ensures RelaysWeight(rows, relays[r := relay])
            == RelaysWeight(rows, relays) - RelayWeight(rows, relays[r]) + RelayWeight(rows, relay)
    decreases |relays|
  {
    if r == 0 {
      assert relays[r := relay][1..] == relays[1..];
    } else {
      assert relays[r := relay][1..] == relays[1..][r - 1 := relay];
      UpdateWeight(rows, relays[1..], r - 1, relay);
    }
  }

  lemma {:induction false} PublishedRowLowersWeights<E>(rows: seq<Row<E>>, relays: seq<Relay>, id: nat)
    requires id < |rows|
    ensures RelaysWeight(rows[id := rows[id].(published := true)], relays) <= RelaysWeight(rows, relays)
    decreases |relays|
  {
    if relays == [] {
    } else {
      PublishedRowLowersWeights(rows, relays[1..], id);
      UnpublishedShrinks(rows, id, 0);
      var r := relays[0];
      if r.Busy? && r.batch != [] && r.batch[0] + |r.batch| <= |rows| {
        UnpublishedShrinks(rows, id, r.batch[0] + |r.batch|);
      }
    }
  }

  lemma ReadLowers<E>(s: Pipe<E>, r: nat, limit: nat)
    requires RelaysInv(s) && Progress(s, Label<E>.ReadBatch(r, limit))
    ensures Measure(Next(s, Label<E>.ReadBatch(r, limit))) < Measure(s)
  {
    PendingFollowsPrefix(s.rows, 0, limit);
    var b := Pending(s.rows, 0, limit);
    UnpublishedSkip(s.rows, 0, b[0]);
    UnpublishedCount(s.rows, b[0], b[0] + |b|);
    UpdateWeight(s.rows, s.relays, r, Busy(b, 0, false));
  }

  lemma PublishLowers<E>(s: Pipe<E>, r: nat)
    requires RelaysInv(s) && Progress(s, Label<E>.Publish(r, Confirmed))
    ensures Measure(Next(s, Label<E>.Publish(r, Confirmed))) < Measure(s)
  {
    assert RelayOk(s, s.relays[r]);
    UpdateWeight(s.rows, s.relays, r, s.relays[r].(sent := true));
  }

  lemma MarkLowers<E>(s: Pipe<E>, r: nat)
    requires RelaysInv(s) && Progress(s, Label<E>.MarkPublished(r))
    ensures Measure(Next(s, Label<E>.MarkPublished(r))) < Measure(s)
  {
    var t := Next(s, Label<E>.MarkPublished(r));
    var relay := s.relays[r];
    var id := relay.batch[relay.pos];
    assert RelayOk(s, relay);
    PublishedRowLowersWeights(s.rows, s.relays, id);
    UpdateWeight(t.rows, s.relays, r, t.relays[r]);
    if relay.pos + 1 == |relay.batch| {
      UnpublishedSkip(t.rows, 0, relay.batch[0] + |relay.batch|);
    }
  }

  /** Every failure-free step that is not a commit lowers the measure. */
  lemma ProgressLowersMeasure<E>(s: Pipe<E>, l: Label<E>)
    requires RelaysInv(s) && Accounted(s) && Progress(s, l)
    ensures Measure(Next(s, l)) < Measure(s)
  {
    match l
    case ReadBatch(r, limit) => ReadLowers(s, r, limit);
    case Publish(r, outcome) => PublishLowers(s, r);
    case MarkPublished(r) => MarkLowers(s, r);
    case _ =>
  }

  predicate ProgressRun<E>(s: Pipe<E>, ls: seq<Label<E>>)
    decreases |ls|
  {
    ls == [] || (Progress(s, ls[0]) && ProgressRun(Next(s, ls[0]), ls[1..]))
  }

  /** No failure-free run without commits is longer than the measure. */
  lemma {:induction false} ProgressRunsEnd<E>(s: Pipe<E>, ls: seq<Label<E>>)
    requires RelaysInv(s) && Accounted(s) && ProgressRun(s, ls)
    ensures |ls| <= Measure(s)
    decreases |ls|
  {
    MeasureNonnegative(s);
    if ls == [] {
    } else {
      ProgressLowersMeasure(s, ls[0]);
      RelaysInvStep(s, ls[0]);
      AccountedStep(s, ls[0]);
      ProgressRunsEnd(Next(s, ls[0]), ls[1..]);
    }
  }

  /** A step that is possible whenever the pipeline is not settled. */
  lemma StepExists<E>(s: Pipe<E>) returns (l: Label<E>)
    requires RelaysInv(s) && Accounted(s) && 0 < |s.relays| && !Settled(s)
    ensures Progress(s, l)
  {
    if s.queue != [] {
      l := match s.phase
        case Waiting => Deliver
        case Delivered => CheckProcessed(true)
        case Cleared => Handle
        case Executed => MarkProcessed(true)
        case Marked => Ack;
    } else if r :| 0 <= r < |s.relays| && s.relays[r].Busy? {
      assert RelayOk(s, s.relays[r]);
      l := if s.relays[r].sent then MarkPublished(r) else Publish(r, Confirmed);
    } else {
      PendingFollowsPrefix(s.rows, 0, 1);
      l := ReadBatch(0, 1);
    }
  }

  /** No step left is the same as settled. */
  lemma QuiescentIffSettled<E(!new)>(s: Pipe<E>)
    requires RelaysInv(s) && Accounted(s) && 0 < |s.relays|
    ensures (forall l: Label<E> :: !Progress(s, l)) <==> Settled(s)
  {
    if Settled(s) {
      forall l: Label<E> ensures !Progress(s, l) {
        PendingAllPublished(s.rows, 0, if l.ReadBatch? then l.limit else 0);
      }
    } else {
      var l := StepExists(s);
    }
  }

  lemma {:induction false} PendingAllPublished<E>(rows: seq<Row<E>>, i: nat, limit: nat)
    requires i <= |rows| && PublishedBelow(rows, |rows|)
    ensures Pending(rows, i, limit) == []
    decreases |rows| - i
  {
    if i == |rows| || limit == 0 {
    } else {
      PendingAllPublished(rows, i + 1, limit);
    }
  }

  /** From every reachable state the pipeline can be driven to a drained one. */
  lemma {:induction false} Drain<E>(s: Pipe<E>) returns (ls: seq<Label<E>>)
    requires RelaysInv(s) && Accounted(s) && 0 < |s.relays|
    ensures ProgressRun(s, ls) && OrderlyRun(ls) && Run(s, ls).Some?
    ensures Settled(Run(s, ls).value)
    decreases Measure(s)
  {
    if Settled(s) {
      ls := [];
    } else {
      MeasureNonnegative(s);
      var l := StepExists(s);
      ProgressLowersMeasure(s, l);
      RelaysInvStep(s, l);
      AccountedStep(s, l);
      var rest := Drain(Next(s, l));
      ls := [l] + rest;
      assert ls[1..] == rest;
    }
  }
}
