/**
 What delivery order depends on. A message returned behind a later one breaks the order exactly when
 it is unprocessed and overtaken; a lost mark breaks it when a duplicate is queued behind a later event.
 */
module PipelineLimits {
  import opened Wrappers
  import opened Pipeline
  import opened PipelineOrder
  import opened Messaging

  // ---------------------------------------------------------------- consuming without failures

  /** Processing the head message with nothing failing. */
  function Consumption<E>(s: Pipe<E>): seq<Label<E>>
    requires s.queue != []
  {
    if s.queue[0] in s.marks then [Deliver, CheckProcessed(true)]
    else [Deliver, CheckProcessed(true), Handle, MarkProcessed(true), Ack]
  }

  function Consumed<E>(s: Pipe<E>): Pipe<E>
    requires s.queue != []
  {
    var id := s.queue[0];
    s.(queue := s.queue[1..], acked := s.acked + {id}, marks := s.marks + {id},
       execs := if id in s.marks then s.execs else s.execs + [id])
  }

  lemma ConsumptionRuns<E>(s: Pipe<E>)
    requires s.queue != [] && s.phase.Waiting?
    ensures Run(s, Consumption(s)) == Some(Consumed(s)) && OrderlyRun(Consumption(s))
  {
    hide Run;
    if s.queue[0] in s.marks {
      SkipRuns(s);
      assert s.marks + {s.queue[0]} == s.marks;
    } else {
      HandleRuns(s, true, true);
    }
  }

  /** Processing the first `n` messages executes each of them that was not marked and marks them all. */
  lemma {:induction false} ConsumeMany<E>(s: Pipe<E>, n: nat) returns (ls: seq<Label<E>>)
    requires n <= |s.queue| && s.phase.Waiting?
    ensures Run(s, ls).Some? && OrderlyRun(ls)
    ensures var t := Run(s, ls).value;
            && t.queue == s.queue[n..] && t.rows == s.rows && t.phase.Waiting?
            && (forall i :: i in t.marks <==> i in s.marks || i in s.queue[..n])
            && s.execs <= t.execs
            && (forall i :: i in s.queue[..n] && i !in s.marks ==> i in t.execs[|s.execs|..])
            && (forall i :: i in t.execs ==> i in s.execs || i in s.queue[..n])
    decreases n
  {
    if n == 0 {
      ls := [];
    } else {
      var u := Consumed(s);
      ConsumptionRuns(s);
      var rest := ConsumeMany(u, n - 1);
      ls := Consumption(s) + rest;
      RunSplits(s, Consumption(s), rest);
      hide Run, Consumption;
      var t := Run(s, ls).value;
      assert s.queue[..n] == [s.queue[0]] + u.queue[..n - 1];
      forall i | i in s.queue[..n] && i !in s.marks ensures i in t.execs[|s.execs|..] {
        if i == s.queue[0] {
          assert t.execs[|s.execs|] == i;
        } else {
          var k :| |u.execs| <= k < |t.execs| && t.execs[k] == i;
          assert t.execs[|s.execs|..][k - |s.execs|] == i;
        }
      }
    }
  }

  // ---------------------------------------------------------------- returned messages

  /** Put back at position `at`, the unprocessed head comes to stand behind a later event, with no
      other copy of itself in front of that event. */
  ghost predicate Overtaken<E>(s: Pipe<E>, at: nat)
    requires at < |s.queue|
  {
    s.queue[0] !in s.marks
    && exists k :: 0 < k <= at && s.queue[0] < s.queue[k] && s.queue[0] !in s.queue[1..k]
  }

  lemma RequeuedQueue<E>(s: Pipe<E>, at: nat)
    requires at < |s.queue|
    ensures var q := Returned(s, Requeue(at)).queue;
            && |q| == |s.queue| && q[at] == s.queue[0]
            && (forall k :: 0 <= k < at ==> q[k] == s.queue[k + 1])
            && (forall k :: at < k < |q| ==> q[k] == s.queue[k])
            && q[..at] == s.queue[1..at + 1]
            && (forall i :: i in q <==> i in s.queue)
  {
    var rest := s.queue[1..];
    assert rest == rest[..at] + rest[at..];
    assert s.queue == [s.queue[0]] + rest;
  }

  lemma {:induction false} ReturnKeepsOrder<E>(s: Pipe<E>, at: nat)
    requires OrderInv(s) && at < |s.queue| && !Overtaken(s, at)
    ensures OrderInv(Returned(s, Requeue(at)))
  {
    var t := Returned(s, Requeue(at));
    var id, q := s.queue[0], t.queue;
    AccountedReturn(s, Requeue(at));
    RequeuedQueue(s, at);
    forall k, j | 0 <= k < |q| && j < q[k] && IsBound(s.rows, j) ensures j in s.marks || j in q[..k] {
      RequeuedEntry(s, at, k, j);
    }
  }

  lemma RequeuedEntry<E>(s: Pipe<E>, at: nat, k: nat, j: int)
    requires QueuedInOrder(s.rows, s.queue, s.marks) && at < |s.queue| && !Overtaken(s, at)
    requires k < |Returned(s, Requeue(at)).queue| && j < Returned(s, Requeue(at)).queue[k] && IsBound(s.rows, j)
    ensures j in s.marks || j in Returned(s, Requeue(at)).queue[..k]
  {
    hide Returned;
    var q := Returned(s, Requeue(at)).queue;
    RequeuedQueue(s, at);
    if j !in s.marks {
      if k < at {
        assert j in s.queue[..k + 1];
        assert s.queue[..k + 1] == [s.queue[0]] + s.queue[1..k + 1];
        assert q[..k] == s.queue[1..k + 1];
      } else if at < k {
        assert j in s.queue[..k];
        var i :| 0 <= i < k && s.queue[i] == j;
        if i == 0 {
          assert q[..k][at] == j;
        } else if i <= at {
          assert q[..k][i - 1] == j;
        } else {
          assert q[..k][i] == j;
        }
      }
    }
  }

  /** Two unmarked messages are queued in the wrong order: processing the queue executes them so. */
  lemma WrongOrderExecutes<E>(t: Pipe<E>, k: nat, at: nat) returns (ls: seq<Label<E>>)
    requires t.phase.Waiting? && k < at < |t.queue| && t.queue[at] < t.queue[k]
    requires t.queue[k] !in t.marks && t.queue[at] !in t.marks && t.queue[at] !in t.queue[..k + 1]
    ensures OrderlyRun(ls) && Run(t, ls).Some? && !Sorted(Run(t, ls).value.execs)
  {
    hide Run, OrderlyRun;
    var later, id := t.queue[k], t.queue[at];
    var first := ConsumeMany(t, k + 1);
    var u := Run(t, first).value;
    assert u.queue[at - k - 1] == id;
    var second := ConsumeMany(u, at - k);
    var v := Run(u, second).value;
    ls := first + second;
    RunSplits(t, first, second);
    OrderlyAppend(first, second);
    assert later in u.execs[|t.execs|..] by {
      assert t.queue[..k + 1][k] == later;
    }
    var a :| 0 <= a < |u.execs| && u.execs[a] == later;
    assert id in v.execs[|u.execs|..] by {
      assert u.queue[..at - k][at - k - 1] == id;
    }
    var b :| |u.execs| <= b < |v.execs| && v.execs[b] == id;
    assert v.execs[a] == later && a < b;
  }

  lemma OrderlyAppend<E>(ls: seq<Label<E>>, ks: seq<Label<E>>)
    requires OrderlyRun(ls) && OrderlyRun(ks)
    ensures OrderlyRun(ls + ks)
  {}

  /** If the head is overtaken, processing the queue with no further failure runs the handlers out of order. */
  lemma OvertakenBreaksOrder<E>(s: Pipe<E>, at: nat) returns (ls: seq<Label<E>>)
    requires OrderInv(s) && at < |s.queue| && Overtaken(s, at)
    ensures var t := Returned(s, Requeue(at));
            OrderlyRun(ls) && Run(t, ls).Some? && !Stutters(Run(t, ls).value.rows, Run(t, ls).value.execs)
  {
    hide OrderInv, Run, OrderlyRun, Stutters, Sorted, DownClosed;
    var k := OvertakenAt(s, at);
    LaterUnmarked(s, s.queue[k]);
    ls := WrongOrderExecutes(Returned(s, Requeue(at)), k - 1, at);
    NotSorted(Run(Returned(s, Requeue(at)), ls).value);
  }

  lemma NotSorted<E>(s: Pipe<E>)
    requires !Sorted(s.execs)
    ensures !Stutters(s.rows, s.execs)
  {}

  lemma OvertakenAt<E>(s: Pipe<E>, at: nat) returns (k: nat)
    requires at < |s.queue| && Overtaken(s, at)
    ensures var q := Returned(s, Requeue(at)).queue;
            && 0 < k <= at && |q| == |s.queue| && q[at] == s.queue[0] && q[k - 1] == s.queue[k]
            && s.queue[0] < s.queue[k] && s.queue[0] !in q[..k]
  {
    k :| 0 < k <= at && s.queue[0] < s.queue[k] && s.queue[0] !in s.queue[1..k];
    var q := Returned(s, Requeue(at)).queue;
    RequeuedQueue(s, at);
    hide Returned;
    assert q[..k] == s.queue[1..at + 1][..k] == s.queue[1..k] + [s.queue[k]];
  }

  /** While the head is unmarked, no later event is marked. */
  lemma LaterUnmarked<E>(s: Pipe<E>, later: nat)
    requires OrderInv(s) && s.queue != [] && s.queue[0] !in s.marks && s.queue[0] < later
    ensures later !in s.marks
  {
    assert IsBound(s.rows, s.queue[0]) by {
      assert s.queue[0] in s.queue;
    }
  }

  /** Returning the head to position `at` keeps the order of all orderly continuations if and only
      if it is not overtaken. */
  lemma ReturnKeepsOrderIff<E(!new)>(s: Pipe<E>, at: nat)
    requires RelaysInv(s) && OrderInv(s) && at < |s.queue|
    ensures KeepsOrder(Returned(s, Requeue(at))) <==> !Overtaken(s, at)
  {
    var t := Returned(s, Requeue(at));
    if Overtaken(s, at) {
      var ls := OvertakenBreaksOrder(s, at);
    } else {
      ReturnKeepsOrder(s, at);
      RelaysKept(s, t, t.relays);
      InvKeepsOrder(t);
    }
  }

  // ---------------------------------------------------------------- lost marks

  /** A lost mark on the handled head breaks the order when a duplicate of it, published by a stale
      relay, is queued behind a later event. */
  lemma LostMarkBreaksOrder<E>(s: Pipe<E>, k: nat, at: nat) returns (ls: seq<Label<E>>)
    requires OrderInv(s) && s.phase.Executed? && 0 < k < at < |s.queue| && s.queue[0] !in s.marks
    requires s.queue[at] == s.queue[0] < s.queue[k] && s.queue[0] !in s.queue[1..k + 1]
    ensures var t := Next(Next(s, Label<E>.MarkProcessed(false)), Label<E>.Ack);
            OrderlyRun(ls) && Run(t, ls).Some? && !Stutters(Run(t, ls).value.rows, Run(t, ls).value.execs)
  {
    hide OrderInv, Run, OrderlyRun, Stutters, Sorted, DownClosed;
    var t := Next(Next(s, Label<E>.MarkProcessed(false)), Label<E>.Ack);
    LaterUnmarked(s, s.queue[k]);
    assert t.queue[..k] == s.queue[1..k + 1];
    ls := WrongOrderExecutes(t, k - 1, at - 1);
    NotSorted(Run(t, ls).value);
  }
}
