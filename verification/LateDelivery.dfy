/**
 A message that is handled late, seen from a pipeline in which it was handled in time: every orderly
 step of the one is a step of the other, or concerns the late message only.
 */
module LateDelivery {
  import opened Wrappers
  import opened Pipeline
  import opened PipelineOrder

  /** The pipeline as if the returned message had been handled at once; `ve` are its executions. */
  function Virtual<E>(r: Pipe<E>, id: nat, ve: seq<nat>): Pipe<E> {
    r.(marks := r.marks + {id}, execs := ve,
       phase := if id !in r.marks && r.queue != [] && r.queue[0] == id && !r.phase.Waiting? then Delivered else r.phase)
  }

  /** The message is handled and marked, or still queued; apart from it everything is in order. */
  ghost predicate LatePipe<E>(r: Pipe<E>, id: nat, ve: seq<nat>) {
    && RelaysInv(r) && Accounted(r) && IsBound(r.rows, id)
    && OrderInv(Virtual(r, id, ve))
    && (id in r.marks || (id in r.queue && (r.phase.Marked? ==> r.queue[0] != id)))
  }

  /** A consumer step on the late message itself. */
  predicate OnLate<E>(r: Pipe<E>, id: nat, l: Label<E>) {
    && id !in r.marks && r.queue != [] && r.queue[0] == id
    && !l.Commit? && !l.ReadBatch? && !l.Publish? && !l.MarkPublished? && !l.RelayCrash?
  }

  function VirtualExecs<E>(r: Pipe<E>, id: nat, ve: seq<nat>, l: Label<E>): seq<nat> {
    if l.Handle? && r.queue != [] && !OnLate(r, id, l) then ve + [r.queue[0]] else ve
  }

  lemma VirtualRelays<E>(r: Pipe<E>, id: nat, ve: seq<nat>)
    requires RelaysInv(r)
    ensures RelaysInv(Virtual(r, id, ve))
  {
    RelaysKept(r, Virtual(r, id, ve), r.relays);
  }

  /** A step that is not on the late message is the same step of the virtual pipeline. */
  lemma VirtualCommutes<E>(r: Pipe<E>, id: nat, ve: seq<nat>, l: Label<E>)
    requires Enabled(r, l) && Orderly(l) && !l.Commit? && !OnLate(r, id, l)
    requires !r.phase.Waiting? ==> r.queue != []
    requires id in r.marks || id in r.queue
    ensures Enabled(Virtual(r, id, ve), l)
    ensures Next(Virtual(r, id, ve), l) == Virtual(Next(r, l), id, VirtualExecs(r, id, ve, l))
  {
    var v, t := Virtual(r, id, ve), Next(r, l);
    if l.MarkProcessed? {
      assert r.marks + {id} + {r.queue[0]} == r.marks + {r.queue[0]} + {id};
    }
    if l.Publish? && r.queue != [] {
      assert t.queue[0] == r.queue[0];
    }
  }

  lemma LateQueue<E>(r: Pipe<E>, id: nat, l: Label<E>)
    requires Enabled(r, l) && Orderly(l) && !OnLate(r, id, l)
    requires id in r.marks || id in r.queue
    ensures id in Next(r, l).marks || id in Next(r, l).queue
  {
    assert r.queue != [] ==> r.queue == [r.queue[0]] + r.queue[1..];
  }

  lemma LateElsewhere<E>(r: Pipe<E>, id: nat, ve: seq<nat>, l: Label<E>)
    requires LatePipe(r, id, ve) && Enabled(r, l) && Orderly(l) && !l.Commit? && !OnLate(r, id, l)
    ensures LatePipe(Next(r, l), id, VirtualExecs(r, id, ve, l))
  {
    hide OrderInv;
    VirtualRelays(r, id, ve);
    VirtualCommutes(r, id, ve, l);
    OrderStep(Virtual(r, id, ve), l);
    RelaysInvStep(r, l);
    AccountedStep(r, l);
    LateQueue(r, id, l);
    hide RelaysInv, Accounted;
  }

  /** The late message is handled while the virtual pipeline waits, and skipped there in the end. */
  lemma LateItself<E>(r: Pipe<E>, id: nat, ve: seq<nat>, l: Label<E>)
    requires LatePipe(r, id, ve) && Enabled(r, l) && Orderly(l) && OnLate(r, id, l)
    ensures LatePipe(Next(r, l), id, ve)
  {
    var v, t := Virtual(r, id, ve), Next(r, l);
    RelaysInvStep(r, l);
    AccountedStep(r, l);
    hide RelaysInv;
    match l
    case Deliver => LateWaits(r, id, ve, Delivered);
    case MarkProcessed(_) => LateMarked(r, id, ve);
    case CheckProcessed(_) => assert Virtual(t, id, ve) == v;
    case Handle => assert Virtual(t, id, ve) == v;
    case HandlerRaises(_) => LateReturned(r, id, ve);
    case ConsumerCrash(_) => LateReturned(r, id, ve);
  }

  lemma LateWaits<E>(r: Pipe<E>, id: nat, ve: seq<nat>, phase: Phase)
    requires LatePipe(r, id, ve) && id !in r.marks && r.queue != [] && r.queue[0] == id
    requires phase.Waiting? || phase.Delivered?
    ensures OrderInv(Virtual(r.(phase := phase), id, ve))
  {
    var v := Virtual(r, id, ve);
    assert Virtual(r.(phase := phase), id, ve) == v.(phase := phase);
    assert Accounted(v.(phase := phase)) && PhaseOk(v.(phase := phase));
    hide Accounted, Stutters, QueuedInOrder, MarksFollow, PhaseOk;
  }

  lemma LateReturned<E>(r: Pipe<E>, id: nat, ve: seq<nat>)
    requires LatePipe(r, id, ve) && id !in r.marks && r.queue != [] && r.queue[0] == id
    ensures OrderInv(Virtual(Returned(r, Requeue(0)), id, ve)) && id in Returned(r, Requeue(0)).queue
  {
    assert Returned(r, Requeue(0)).queue == r.queue;
    LateWaits(r, id, ve, Waiting);
  }

  lemma LateMarked<E>(r: Pipe<E>, id: nat, ve: seq<nat>)
    requires LatePipe(r, id, ve) && Enabled(r, Label<E>.MarkProcessed(true)) && id !in r.marks && r.queue[0] == id
    ensures OrderInv(Virtual(Next(r, Label<E>.MarkProcessed(true)), id, ve))
  {
    var v := Virtual(r, id, ve);
    var t := v.(phase := Marked);
    assert Virtual(Next(r, Label<E>.MarkProcessed(true)), id, ve) == t by {
      assert r.marks + {id} + {id} == r.marks + {id};
    }
    assert Accounted(t) && PhaseOk(t);
    hide Accounted, Stutters, QueuedInOrder, MarksFollow, PhaseOk;
  }
}
