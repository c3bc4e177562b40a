/**
 The remaining failures that an orderly run excludes, each with the exact condition under which order is
 kept: a duplicate check without Redis, a mark that expires, a message that is dead-lettered.
 */
module PipelineFailures {
  import opened Wrappers
  import opened Pipeline
  import opened PipelineOrder
  import opened PipelineLimits
  import opened PipelineLostMarks
  import opened Messaging

  lemma BadRun<E(!new)>(s: Pipe<E>, ls: seq<Label<E>>)
    requires OrderlyRun(ls) && Run(s, ls).Some? && !Stutters(Run(s, ls).value.rows, Run(s, ls).value.execs)
    ensures !KeepsOrder(s)
  {}

  // ---------------------------------------------------------------- the duplicate check without Redis

  /** Without Redis a marked message is handled again; order is kept if and only if it is unmarked or the
      last one executed. */
  lemma CheckWithoutRedisKeepsOrderIff<E(!new)>(s: Pipe<E>)
    requires RelaysInv(s) && OrderInv(s) && s.queue != [] && s.phase.Delivered?
    ensures KeepsOrder(Next(s, Label<E>.CheckProcessed(false)))
            <==> (s.queue[0] in s.marks ==> s.execs != [] && s.queue[0] == Last(s.execs))
  {
    var t := Next(s, Label<E>.CheckProcessed(false));
    if s.queue[0] in s.marks ==> s.execs != [] && s.queue[0] == Last(s.execs) {
      AccountedStep(s, Label<E>.CheckProcessed(false));
      OrderFrame(s, t);
      RelaysKept(s, t, t.relays);
      InvKeepsOrder(t);
    } else {
      var l := Label<E>.Handle;
      RunStart(Next(t, l));
      RunOne(t, l, []);
      assert [l] + [] == [l];
      OrderlyOne(l);
      SmallerExecuted(s.execs, s.queue[0]);
      NotSorted(Next(t, l));
      BadRun(t, [l]);
    }
  }

  lemma SmallerExecuted(execs: seq<nat>, id: nat)
    requires execs != [] && id < Last(execs)
    ensures !Sorted(execs + [id])
  {
    var longer := execs + [id];
    assert longer[|execs| - 1] == Last(execs) && longer[|execs|] == id;
  }

  // ---------------------------------------------------------------- expired marks

  ghost predicate LaterExecuted<E>(s: Pipe<E>, id: nat) {
    exists x :: x in s.execs && id < x
  }

  /** A copy of the event is queued behind a later one, or after a later one was executed; or no copy is
      queued and one can arrive so. */
  ghost predicate ExpiryHarms<E>(s: Pipe<E>, id: nat)
    requires id in s.marks ==> id < |s.rows|
  {
    && id in s.marks
    && if id in s.queue
       then LaterExecuted(s, id) || exists k :: 0 <= k < |s.queue| && id < s.queue[k] && id !in s.queue[..k]
       else Replayable(s, id)
  }

  /** An unmarked copy is executed again after a later event. */
  lemma CopyExecutesLate<E>(s: Pipe<E>, id: nat) returns (ls: seq<Label<E>>)
    requires s.phase.Waiting? && id in s.queue && id !in s.marks && LaterExecuted(s, id)
    ensures OrderlyRun(ls) && Run(s, ls).Some? && !Sorted(Run(s, ls).value.execs)
  {
    hide Run, OrderlyRun;
    ls := ConsumeMany(s, |s.queue|);
    var t := Run(s, ls).value;
    assert s.queue[..|s.queue|] == s.queue;
    var x :| x in s.execs && id < x;
    var a :| 0 <= a < |s.execs| && s.execs[a] == x;
    assert id in t.execs[|s.execs|..];
    var b :| |s.execs| <= b < |t.execs| && t.execs[b] == id;
    assert t.execs[a] == x && a < b;
  }

  lemma CopyArrivesLate<E>(s: Pipe<E>, id: nat) returns (ls: seq<Label<E>>)
    requires RelaysInv(s) && s.phase.Waiting? && IsBound(s.rows, id) && id !in s.marks
    requires LaterExecuted(s, id) && SomeUnsent(s, id)
    ensures OrderlyRun(ls) && Run(s, ls).Some? && !Sorted(Run(s, ls).value.execs)
  {
    hide Run, OrderlyRun, Unsent, RelaysInv;
    var r :| 0 <= r < |s.relays| && Unsent(s.relays[r], id);
    var first := RelayReaches(s, r, id);
    var t := Run(s, first).value;
    assert t.queue[|t.queue| - 1] in t.queue;
    var second := CopyExecutesLate(t, id);
    ls := first + second;
    RunSplits(s, first, second);
    OrderlyAppend(first, second);
  }

  lemma MarkedIsBound<E>(s: Pipe<E>, id: nat)
    requires Accounted(s) && id in s.marks
    ensures IsBound(s.rows, id) && id in s.execs && id in s.log
  {}

  /** Losing the mark of the last event with every copy in front of later events. */
  lemma ExpiryKeepsInv<E>(s: Pipe<E>, id: nat)
    requires OrderInv(s) && s.phase.Waiting? && id in s.marks && id in s.queue && !LaterExecuted(s, id)
    requires forall k :: 0 <= k < |s.queue| && id < s.queue[k] ==> id in s.queue[..k]
    ensures OrderInv(s.(marks := s.marks - {id}))
  {
    MarkedIsBound(s, id);
    assert Last(s.execs) in s.execs;
    assert Last(s.execs) == id;
  }

  lemma ExpiryReplays<E>(s: Pipe<E>, id: nat) returns (ls: seq<Label<E>>)
    requires RelaysInv(s) && SentInOrder(s) && OrderInv(s) && s.phase.Waiting? && id in s.marks && id < |s.rows|
    requires id !in s.queue && Replayable(s, id)
    ensures var t := s.(marks := s.marks - {id});
            OrderlyRun(ls) && Run(t, ls).Some? && !Sorted(Run(t, ls).value.execs)
  {
    hide Run, OrderlyRun;
    var t := s.(marks := s.marks - {id});
    MarkedIsBound(s, id);
    RelaysKept(s, t, t.relays);
    if LaterExecuted(s, id) {
      ExecutedIsMarkedRow(s, id);
      assert SomeUnsent(t, id);
      hide OrderInv, RelaysInv;
      ls := CopyArrivesLate(t, id);
    } else {
      assert forall j :: j in t.marks ==> j < id by {
        forall j | j in t.marks ensures j < id {
          MarkedIsBound(s, j);
        }
      }
      assert Lost(t, id) && Replayable(t, id);
      hide OrderInv, RelaysInv, Lost, Replayable;
      ls := LostReplays(t, id);
    }
  }

  lemma ExecutedIsMarkedRow<E>(s: Pipe<E>, id: nat)
    requires SentInOrder(s) && Accounted(s) && LaterExecuted(s, id)
    ensures id < |s.rows| && s.rows[id].published
  {
    var x :| x in s.execs && id < x;
    assert PublishedBelow(s.rows, x);
  }

  lemma ExpiryBreaksOrder<E>(s: Pipe<E>, id: nat) returns (ls: seq<Label<E>>)
    requires RelaysInv(s) && SentInOrder(s) && OrderInv(s) && s.phase.Waiting?
    requires (id in s.marks ==> id < |s.rows|) && ExpiryHarms(s, id)
    ensures var t := s.(marks := s.marks - {id});
            OrderlyRun(ls) && Run(t, ls).Some? && !Sorted(Run(t, ls).value.execs)
  {
    hide Run, OrderlyRun, RelaysInv, SentInOrder, Replayable;
    var t := s.(marks := s.marks - {id});
    if id !in s.queue {
      hide OrderInv;
      ls := ExpiryReplays(s, id);
    } else if LaterExecuted(s, id) {
      hide OrderInv;
      assert LaterExecuted(t, id);
      ls := CopyExecutesLate(t, id);
    } else {
      ls := ExpiredCopyOvertaken(s, id);
    }
  }

  lemma ExpiredCopyOvertaken<E>(s: Pipe<E>, id: nat) returns (ls: seq<Label<E>>)
    requires OrderInv(s) && s.phase.Waiting? && id in s.queue && !LaterExecuted(s, id)
    requires exists k :: 0 <= k < |s.queue| && id < s.queue[k] && id !in s.queue[..k]
    ensures var t := s.(marks := s.marks - {id});
            OrderlyRun(ls) && Run(t, ls).Some? && !Sorted(Run(t, ls).value.execs)
  {
    hide Run, OrderlyRun;
    var t := s.(marks := s.marks - {id});
    var k :| 0 <= k < |s.queue| && id < s.queue[k] && id !in s.queue[..k];
    var at :| 0 <= at < |s.queue| && s.queue[at] == id;
    MarksExecuted(s);
    hide OrderInv, Sorted;
    forall j | 0 <= j < k ensures s.queue[j] != id {
      assert s.queue[..k][j] == s.queue[j];
    }
    assert s.queue[..k + 1] == s.queue[..k] + [s.queue[k]];
    ls := WrongOrderExecutes(t, k, at);
  }

  /** The mark of an event expires while the consumer waits for a message: order is kept if and only if no
      copy of the event is or can come behind a later one. */
  lemma ExpiredMarkKeepsOrderIff<E(!new)>(s: Pipe<E>, id: nat)
    requires RelaysInv(s) && SentInOrder(s) && OrderInv(s) && s.phase.Waiting?
    ensures id in s.marks ==> id < |s.rows|
    ensures KeepsOrder(Next(s, Label<E>.ExpireMark(id))) <==> !ExpiryHarms(s, id)
  {
    var t := Next(s, Label<E>.ExpireMark(id));
    if id in s.marks {
      MarkedIsBound(s, id);
    }
    RelaysKept(s, t, t.relays);
    if ExpiryHarms(s, id) {
      var ls := ExpiryBreaksOrder(s, id);
      NotSorted(Run(t, ls).value);
      BadRun(t, ls);
    } else if id !in s.marks {
      assert t == s;
      InvKeepsOrder(s);
    } else if id in s.queue {
      ExpiryKeepsInv(s, id);
      InvKeepsOrder(t);
    } else {
      assert s.marks - {id} + {id} == s.marks;
      assert WithMark(t, id) == s;
      assert !Replayable(t, id);
      SentInOrderStep(s, Label<E>.ExpireMark(id));
      LostInvKeepsOrder(t, id);
    }
  }

  // ---------------------------------------------------------------- dead letters

  /** The dead-lettered head is unprocessed, and a later event can be executed before any copy of it. */
  ghost predicate DeadLetterHarms<E>(s: Pipe<E>)
    requires s.queue != [] && s.queue[0] < |s.rows|
  {
    var id := s.queue[0];
    && id !in s.marks
    && if id in s.queue[1..] then exists k :: 0 < k < |s.queue| && id < s.queue[k] && id !in s.queue[1..k]
       else if id in s.execs then Replayable(s, id)
       else (exists x :: x in s.queue && id < x) || s.rows[id].published || SomeSentUnmarked(s, id)
  }

  /** A later event is queued and the event itself is gone. */
  lemma LaterSkips<E>(s: Pipe<E>, id: nat, k: nat) returns (ls: seq<Label<E>>)
    requires s.phase.Waiting? && k < |s.queue| && id < s.queue[k] && id !in s.queue && id !in s.execs
    requires IsBound(s.rows, id) && forall i :: i in s.marks ==> i in s.execs
    ensures OrderlyRun(ls) && Run(s, ls).Some? && !Stutters(Run(s, ls).value.rows, Run(s, ls).value.execs)
  {
    hide Run, OrderlyRun;
    ls := ConsumeMany(s, k + 1);
    var t := Run(s, ls).value;
    assert s.queue[..k + 1][k] == s.queue[k];
    if s.queue[k] in s.marks {
      var i :| 0 <= i < |s.execs| && s.execs[i] == s.queue[k];
      assert t.execs[i] == s.queue[k];
    } else {
      assert s.queue[k] in t.execs[|s.execs|..];
    }
    assert id !in t.execs;
    var a :| 0 <= a < |t.execs| && t.execs[a] == s.queue[k];
    assert id !in t.execs[..a];
  }

  /** The event is gone, and its row is marked: a relay can send a new event. */
  lemma NewEventSkips<E>(s: Pipe<E>, q: nat, id: nat) returns (ls: seq<Label<E>>)
    requires RelaysInv(s) && s.phase.Waiting? && q < |s.relays| && IsBound(s.rows, id) && s.rows[id].published
    requires id !in s.queue && id !in s.execs && forall i :: i in s.marks ==> i in s.execs
    ensures OrderlyRun(ls) && Run(s, ls).Some? && !Stutters(Run(s, ls).value.rows, Run(s, ls).value.execs)
  {
    hide Run, OrderlyRun, RelaysInv, Stutters;
    var first := NewEventArrives(s, q, id);
    var t := Run(s, first).value;
    var second := LaterSkips(t, id, |t.queue| - 1);
    ls := first + second;
    RunSplits(s, first, second);
    OrderlyAppend(first, second);
  }

  lemma MarkedThenSkips<E>(s: Pipe<E>, q: nat, id: nat) returns (ls: seq<Label<E>>)
    requires RelaysInv(s) && s.phase.Waiting? && q < |s.relays| && IsBound(s.rows, id)
    requires SentUnmarked(s.relays[q], id)
    requires id !in s.queue && id !in s.execs && forall i :: i in s.marks ==> i in s.execs
    ensures OrderlyRun(ls) && Run(s, ls).Some? && !Stutters(Run(s, ls).value.rows, Run(s, ls).value.execs)
  {
    hide Run, OrderlyRun, Stutters;
    var l := Label<E>.MarkPublished(q);
    RelaysInvStep(s, l);
    hide RelaysInv;
    var rest := NewEventSkips(Next(s, l), q, id);
    ls := [l] + rest;
    RunOne(s, l, rest);
    OrderlyOne(l);
    OrderlyAppend([l], rest);
  }

  function Dead<E>(s: Pipe<E>): Pipe<E>
    requires s.queue != []
  {
    Returned(s, DeadLetter)
  }

  lemma DeadFacts<E>(s: Pipe<E>)
    requires RelaysInv(s) && Accounted(s) && s.queue != []
    ensures RelaysInv(Dead(s)) && Accounted(Dead(s)) && IsBound(s.rows, s.queue[0])
    ensures forall x :: x in s.queue <==> x == s.queue[0] || x in Dead(s).queue
  {
    RelaysKept(s, Dead(s), s.relays);
    AccountedReturn(s, DeadLetter);
    HeadIsBound(s);
    assert s.queue == [s.queue[0]] + Dead(s).queue;
  }

  lemma DeadLetterBreaksOrder<E>(s: Pipe<E>) returns (ls: seq<Label<E>>)
    requires RelaysInv(s) && SentInOrder(s) && OrderInv(s) && s.queue != [] && s.relays != []
    requires s.queue[0] < |s.rows| && DeadLetterHarms(s)
    ensures var t := Dead(s);
            OrderlyRun(ls) && Run(t, ls).Some? && !Stutters(Run(t, ls).value.rows, Run(t, ls).value.execs)
  {
    hide Run, OrderlyRun, SentInOrder, Replayable, SentUnmarked;
    var id := s.queue[0];
    var t := Dead(s);
    DeadFacts(s);
    if id in s.queue[1..] {
      ls := DeadCopyOvertaken(s);
    } else if id in s.execs {
      ls := DeadReplays(s);
    } else {
      hide RelaysInv, OrderInv, Stutters, Accounted;
      assert forall i :: i in t.marks ==> i in t.execs by {
        MarksExecuted(s);
      }
      if x :| x in s.queue && id < x {
        var k :| 0 <= k < |t.queue| && t.queue[k] == x;
        ls := LaterSkips(t, id, k);
      } else if s.rows[id].published {
        ls := NewEventSkips(t, 0, id);
      } else {
        var q :| 0 <= q < |s.relays| && SentUnmarked(s.relays[q], id);
        ls := MarkedThenSkips(t, q, id);
      }
    }
  }

  lemma MarksExecuted<E>(s: Pipe<E>)
    requires OrderInv(s)
    ensures forall i :: i in s.marks ==> i in s.execs
  {}

  lemma DeadCopyOvertaken<E>(s: Pipe<E>) returns (ls: seq<Label<E>>)
    requires OrderInv(s) && s.queue != [] && s.queue[0] < |s.rows| && s.queue[0] in s.queue[1..] && DeadLetterHarms(s)
    ensures var t := Dead(s);
            OrderlyRun(ls) && Run(t, ls).Some? && !Stutters(Run(t, ls).value.rows, Run(t, ls).value.execs)
  {
    hide Run, OrderlyRun, Replayable, OrderInv, Stutters, Sorted;
    var k, at := CopyBehindHead(s);
    LaterUnmarked(s, s.queue[k]);
    hide DeadLetterHarms;
    assert Dead(s).queue[..k] == s.queue[1..k + 1];
    ls := WrongOrderExecutes(Dead(s), k - 1, at - 1);
    NotSorted(Run(Dead(s), ls).value);
  }

  /** An executed event without a mark is the last one. */
  lemma UnmarkedIsLast<E>(s: Pipe<E>, id: nat)
    requires OrderInv(s) && id in s.execs && id !in s.marks && IsBound(s.rows, id)
    ensures id == Last(s.execs) && forall x :: x in s.execs ==> x <= id
    ensures forall j :: j in s.marks ==> j < id
  {
    hide Accounted, QueuedInOrder, DownClosed, PhaseOk;
    var k :| 0 <= k < |s.execs| && s.execs[k] == id;
  }

  lemma DeadReplays<E>(s: Pipe<E>) returns (ls: seq<Label<E>>)
    requires RelaysInv(s) && OrderInv(s) && s.queue != [] && s.queue[0] < |s.rows|
    requires s.queue[0] in s.execs && s.queue[0] !in s.marks && s.queue[0] !in s.queue[1..] && Replayable(s, s.queue[0])
    ensures var t := Dead(s);
            OrderlyRun(ls) && Run(t, ls).Some? && !Stutters(Run(t, ls).value.rows, Run(t, ls).value.execs)
  {
    hide Run, OrderlyRun;
    var t := Dead(s);
    DeadFacts(s);
    UnmarkedIsLast(s, s.queue[0]);
    hide OrderInv, RelaysInv, Accounted;
    assert Lost(t, s.queue[0]) && Replayable(t, s.queue[0]);
    ls := LostReplays(t, s.queue[0]);
    NotSorted(Run(t, ls).value);
  }

  // ---------------------------------------------------------------- harmless dead letters

  function Without(log: seq<nat>, id: nat): seq<nat> {
    if log == [] then []
    else Without(log[..|log| - 1], id) + if log[|log| - 1] == id then [] else [log[|log| - 1]]
  }

  lemma WithoutSnoc(log: seq<nat>, id: nat, x: nat)
    ensures Without(log + [x], id) == if x == id then Without(log, id) else Without(log, id) + [x]
  {
    assert (log + [x])[..|log|] == log;
  }

  lemma {:induction false} WithoutMembers(log: seq<nat>, id: nat, x: nat)
    ensures x in Without(log, id) <==> x in log && x != id
    decreases |log|
  {
    if log == [] {
    } else {
      WithoutMembers(log[..|log| - 1], id, x);
      assert log == log[..|log| - 1] + [log[|log| - 1]];
    }
  }

  /** Leaving out the largest id keeps the order of first occurrences. */
  lemma {:induction false} WithoutInOrder(log: seq<nat>, id: nat)
    requires FirstsInOrder(log) && forall x :: x in log ==> x <= id
    ensures FirstsInOrder(Without(log, id))
    decreases |log|
  {
    if log == [] {
    } else {
      var front, last := log[..|log| - 1], log[|log| - 1];
      assert last in log && log == front + [last];
      WithoutSnoc(front, id, last);
      forall x | x in front ensures x <= id {
        assert x in log;
      }
      FrontInOrder(log);
      WithoutInOrder(front, id);
      if last != id {
        forall j: nat | j < last ensures j in Without(front, id) {
          WithoutMembers(front, id, j);
          assert j in log[..|log| - 1] by {
            assert log[|log| - 1] == last;
          }
        }
        FirstsInOrderSnoc(Without(front, id), last);
      }
    }
  }

  lemma FrontInOrder(log: seq<nat>)
    requires FirstsInOrder(log) && log != []
    ensures FirstsInOrder(log[..|log| - 1])
  {
    var front := log[..|log| - 1];
    forall k, j: nat | 0 <= k < |front| && j < front[k] ensures j in front[..k] {
      assert log[k] == front[k] && log[..k] == front[..k];
    }
  }

  /** The state as if row `id` had not been sent yet. */
  function Unlogged<E>(s: Pipe<E>, id: nat): Pipe<E> {
    s.(log := Without(s.log, id))
  }

  /** The event was dead-lettered unprocessed, its row is unmarked and must be sent again before any later one. */
  ghost predicate Gone<E>(s: Pipe<E>, id: nat) {
    && id !in s.queue && IsBound(s.rows, id) && !s.rows[id].published && !SomeSentUnmarked(s, id)
    && RelaysInv(Unlogged(s, id)) && OrderInv(Unlogged(s, id))
  }

  ghost predicate GoneInv<E>(s: Pipe<E>, id: nat) {
    RelaysInv(s) && (OrderInv(s) || Gone(s, id))
  }

  /** Order depends on which rows were sent, not on the log's order. */
  lemma SameSent<E>(s: Pipe<E>, t: Pipe<E>, id: nat)
    requires OrderInv(s) && t == s.(log := t.log) && id in s.queue && id < |s.rows|
    requires forall x :: x in t.log ==> x in s.log || x == id
    requires forall x :: x in s.log ==> x in t.log
    ensures OrderInv(t)
  {
    assert Accounted(t);
  }

  lemma UnloggedCommutes<E>(s: Pipe<E>, id: nat, l: Label<E>)
    requires id !in s.queue && Enabled(s, l)
    ensures Enabled(Unlogged(s, id), l)
    ensures (l.Publish? && !l.outcome.LostThenRaised? && s.relays[l.r].batch[s.relays[l.r].pos] == id)
            || Next(Unlogged(s, id), l) == Unlogged(Next(s, l), id)
  {
    if l.Publish? {
      WithoutSnoc(s.log, id, s.relays[l.r].batch[s.relays[l.r].pos]);
    }
  }

  lemma GoneIsSent<E>(s: Pipe<E>, id: nat, l: Label<E>)
    requires Gone(s, id) && Enabled(s, l) && l.Publish? && !l.outcome.LostThenRaised?
    requires s.relays[l.r].batch[s.relays[l.r].pos] == id
    ensures OrderInv(Next(s, l))
  {
    hide RelaysInv, OrderInv;
    var u := Unlogged(s, id);
    UnloggedCommutes(s, id, l);
    OrderStep(u, l);
    var v, t := Next(u, l), Next(s, l);
    forall x ensures x in u.log <==> x in s.log && x != id {
      WithoutMembers(s.log, id, x);
    }
    assert v.queue == s.queue + [id] && v.log == u.log + [id] && t.log == s.log + [id];
    assert id in v.queue;
    SameSent(v, t, id);
  }

  lemma GoneKept<E>(s: Pipe<E>, id: nat, l: Label<E>)
    requires RelaysInv(s) && Gone(s, id) && Enabled(s, l) && Orderly(l)
    requires l.Publish? && s.relays[l.r].batch[s.relays[l.r].pos] == id ==> l.outcome.LostThenRaised?
    ensures Gone(Next(s, l), id)
  {
    hide OrderInv;
    var t := Next(s, l);
    UnloggedCommutes(s, id, l);
    RelaysInvStep(Unlogged(s, id), l);
    OrderStep(Unlogged(s, id), l);
    hide RelaysInv;
    assert s.queue != [] ==> s.queue == [s.queue[0]] + s.queue[1..];
    assert id !in t.queue;
    GoneRowKept(s, id, l);
  }

  lemma GoneRowKept<E>(s: Pipe<E>, id: nat, l: Label<E>)
    requires IsBound(s.rows, id) && !s.rows[id].published && !SomeSentUnmarked(s, id) && Enabled(s, l) && Orderly(l)
    requires l.Publish? && s.relays[l.r].batch[s.relays[l.r].pos] == id ==> l.outcome.LostThenRaised?
    ensures var t := Next(s, l); IsBound(t.rows, id) && !t.rows[id].published && !SomeSentUnmarked(t, id)
  {
    var t := Next(s, l);
    if l.MarkPublished? {
      assert SentUnmarked(s.relays[l.r], s.relays[l.r].batch[s.relays[l.r].pos]);
    }
    forall r | 0 <= r < |t.relays| ensures !SentUnmarked(t.relays[r], id) {
      assert !SentUnmarked(s.relays[r], id);
    }
  }

  lemma {:induction false} GoneRun<E>(s: Pipe<E>, id: nat, ls: seq<Label<E>>)
    requires GoneInv(s, id) && Run(s, ls).Some? && OrderlyRun(ls)
    ensures GoneInv(Run(s, ls).value, id)
    decreases |ls|
  {
    hide Gone, OrderInv, RelaysInv;
    if ls == [] {
    } else {
      var l := ls[0];
      RelaysInvStep(s, l);
      if OrderInv(s) {
        OrderStep(s, l);
      } else if l.Publish? && !l.outcome.LostThenRaised? && s.relays[l.r].batch[s.relays[l.r].pos] == id {
        GoneIsSent(s, id, l);
      } else {
        GoneKept(s, id, l);
      }
      GoneRun(Next(s, l), id, ls[1..]);
    }
  }

  lemma GoneKeepsOrder<E(!new)>(s: Pipe<E>, id: nat)
    requires GoneInv(s, id)
    ensures KeepsOrder(s)
  {
    forall ls | OrderlyRun(ls) && Run(s, ls).Some?
      ensures Stutters(Run(s, ls).value.rows, Run(s, ls).value.execs)
    {
      GoneRun(s, id, ls);
    }
  }

  /** Nothing later is queued or executed, so nothing later was sent. */
  lemma DeadIsGone<E>(s: Pipe<E>)
    requires RelaysInv(s) && SentInOrder(s) && OrderInv(s) && s.queue != []
    requires s.queue[0] < |s.rows| && s.queue[0] !in s.queue[1..] && s.queue[0] !in s.execs
    requires !s.rows[s.queue[0]].published && !SomeSentUnmarked(s, s.queue[0])
    ensures Gone(Dead(s), s.queue[0])
  {
    var id, t := s.queue[0], Dead(s);
    DeadFacts(s);
    assert forall x :: x in s.log ==> x <= id by {
      forall x | x in s.log ensures x <= id {
        assert PublishedBelow(s.rows, x);
      }
    }
    forall x ensures x in Without(s.log, id) <==> x in s.log && x != id {
      WithoutMembers(s.log, id, x);
    }
    GoneRelays(s, id);
    GoneOrder(s);
    assert SomeSentUnmarked(t, id) ==> SomeSentUnmarked(s, id);
  }

  lemma GoneRelays<E>(s: Pipe<E>, id: nat)
    requires RelaysInv(s) && s.queue != [] && id < |s.rows| && !s.rows[id].published && !SomeSentUnmarked(s, id)
    requires forall x :: x in s.log ==> x <= id
    requires forall x :: x in Without(s.log, id) <==> x in s.log && x != id
    ensures RelaysInv(Unlogged(Dead(s), id))
  {
    var u := Unlogged(Dead(s), id);
    WithoutInOrder(s.log, id);
    forall r | 0 <= r < |u.relays| ensures RelayOk(u, u.relays[r]) {
      assert RelayOk(s, s.relays[r]) && !SentUnmarked(s.relays[r], id);
    }
    forall k | 0 <= k < |u.log| ensures u.log[k] < |u.rows| {
      assert u.log[k] in s.log;
    }
  }

  lemma GoneOrder<E>(s: Pipe<E>)
    requires OrderInv(s) && s.queue != [] && s.queue[0] < |s.rows| && Accounted(Dead(s))
    requires s.queue[0] !in s.queue[1..] && s.queue[0] !in s.execs
    requires forall x :: x in s.log ==> x <= s.queue[0]
    requires forall x :: x in Without(s.log, s.queue[0]) <==> x in s.log && x != s.queue[0]
    ensures OrderInv(Unlogged(Dead(s), s.queue[0]))
  {
    var id := s.queue[0];
    var u := Unlogged(Dead(s), id);
    assert s.queue == [id] + u.queue;
    QueueUpTo(s, id);
    QueuedTailCopy(s.rows, s.queue, s.marks);
    hide QueuedInOrder, Stutters, MarksFollow;
    GoneAccounted(Dead(s), id);
    hide Accounted;
  }

  lemma GoneAccounted<E>(s: Pipe<E>, id: nat)
    requires Accounted(s) && id !in s.queue && id !in s.execs
    requires forall x :: x in Without(s.log, id) <==> x in s.log && x != id
    ensures Accounted(Unlogged(s, id))
  {}

  lemma QueueUpTo<E>(s: Pipe<E>, id: nat)
    requires Accounted(s) && forall x :: x in s.log ==> x <= id
    ensures forall k :: 0 <= k < |s.queue| ==> s.queue[k] <= id
  {
    assert forall k :: 0 <= k < |s.queue| ==> s.queue[k] in s.queue;
  }

  /** The head's mark or another copy in front of every later event keeps the invariant. */
  lemma DeadCopyKeeps<E>(s: Pipe<E>)
    requires RelaysInv(s) && OrderInv(s) && s.queue != []
    requires s.queue[0] in s.marks || s.queue[0] in s.queue[1..]
    requires s.queue[0] !in s.marks ==>
               forall k :: 0 < k < |s.queue| && s.queue[0] < s.queue[k] ==> s.queue[0] in s.queue[1..k]
    ensures OrderInv(Dead(s))
  {
    DeadFacts(s);
    if s.queue[0] in s.marks {
      QueuedTail(s.rows, s.queue, s.marks);
    } else {
      QueuedTailCopy(s.rows, s.queue, s.marks);
    }
    hide Accounted, QueuedInOrder, Stutters, MarksFollow;
  }

  /** The head was executed already, and no copy can arrive behind a later event. */
  lemma DeadIsHarmless<E>(s: Pipe<E>)
    requires RelaysInv(s) && OrderInv(s) && s.queue != [] && s.queue[0] < |s.rows|
    requires s.queue[0] in s.execs && s.queue[0] !in s.marks && s.queue[0] !in s.queue[1..]
    requires !Replayable(s, s.queue[0])
    ensures Harmless(Dead(s), s.queue[0])
  {
    var id, t := s.queue[0], Dead(s);
    DeadFacts(s);
    UnmarkedIsLast(s, id);
    QueuedWithMark(s.rows, s.queue, s.marks, id);
    assert Accounted(WithMark(t, id));
    hide QueuedInOrder, Stutters;
    assert OrderInv(WithMark(t, id));
    hide OrderInv;
    assert LaterSeen(t, id) ==> LaterSeen(s, id);
  }

  lemma QueuedWithMark<E>(rows: seq<Row<E>>, queue: seq<nat>, marks: set<nat>, id: nat)
    requires QueuedInOrder(rows, queue, marks) && queue != [] && queue[0] == id
    ensures QueuedInOrder(rows, queue[1..], marks + {id})
  {
    QueuedTail(rows, queue, marks + {id});
  }

  /** A message is dead-lettered: order is kept if and only if it was processed before, or a copy of it
      comes before every later event. */
  lemma DeadLetterKeepsOrderIff<E(!new)>(s: Pipe<E>)
    requires RelaysInv(s) && SentInOrder(s) && OrderInv(s) && s.queue != [] && s.relays != []
    ensures s.queue[0] < |s.rows|
    ensures KeepsOrder(Returned(s, DeadLetter)) <==> !DeadLetterHarms(s)
  {
    HeadIsBound(s);
    DeadFacts(s);
    var id, t := s.queue[0], Dead(s);
    hide Accounted;
    if DeadLetterHarms(s) {
      var ls := DeadLetterBreaksOrder(s);
      BadRun(t, ls);
    } else if id in s.marks || id in s.queue[1..] {
      DeadCopyKeeps(s);
      InvKeepsOrder(t);
    } else if id in s.execs {
      DeadIsHarmless(s);
      LostInvKeepsOrder(t, id);
    } else {
      DeadIsGone(s);
      GoneKeepsOrder(t, id);
    }
  }
}
