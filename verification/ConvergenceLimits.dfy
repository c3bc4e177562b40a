/**
 A run of both services that does not converge: one raising handler, whose message is returned behind
 the next one, leaves a deleted post among the known posts for good.
 */
module ConvergenceLimits {
  import opened Wrappers
  import opened Slug
  import opened Pipeline
  import opened PipelineOrder
  import opened Messaging
  import opened BlogSystem
  import opened Convergence
  import P = PostService
  import C = CommentService

  type Labels = seq<Label<P.PostEvent>>

  // ---------------------------------------------------------------- runs

  lemma BlogRunNothing(fold: AsciiFold, s: Blog)
    ensures BlogSystem.Run(fold, s, []) == Some(s)
  {}

  lemma BlogRunOne(fold: AsciiFold, s: Blog, m: Move, ms: seq<Move>)
    requires BlogSystem.Enabled(s, m)
    ensures BlogSystem.Run(fold, s, [m] + ms) == BlogSystem.Run(fold, BlogSystem.Next(fold, s, m), ms)
  {
    assert ([m] + ms)[1..] == ms;
  }

  lemma {:induction false} BlogRunSplits(fold: AsciiFold, s: Blog, ms: seq<Move>, ks: seq<Move>)
    requires BlogSystem.Run(fold, s, ms).Some?
    ensures BlogSystem.Run(fold, s, ms + ks) == BlogSystem.Run(fold, BlogSystem.Run(fold, s, ms).value, ks)
    decreases |ms|
  {
    hide BlogSystem.Next, BlogSystem.Enabled;
    if ms == [] {
      assert ms + ks == ks;
    } else {
      assert (ms + ks)[1..] == ms[1..] + ks;
      BlogRunSplits(fold, BlogSystem.Next(fold, s, ms[0]), ms[1..], ks);
    }
  }

  function Moves(ls: Labels): seq<Move> {
    seq(|ls|, i requires 0 <= i < |ls| => ToComments(ls[i]))
  }

  predicate Quietly(ls: Labels) {
    forall k :: 0 <= k < |ls| ==> !ls[k].Commit? && !ls[k].Handle?
  }

  /** Pipeline steps without a handler execution touch nothing but the pipeline. */
  lemma {:induction false} QuietRun(fold: AsciiFold, s: Blog, ls: Labels)
    requires Quietly(ls) && Pipeline.Run(s.toComments, ls).Some?
    ensures BlogSystem.Run(fold, s, Moves(ls)) == Some(s.(toComments := Pipeline.Run(s.toComments, ls).value))
    decreases |ls|
  {
    if ls == [] {
      BlogRunNothing(fold, s);
    } else {
      hide Pipeline.Next, Pipeline.Enabled;
      assert Moves(ls)[1..] == Moves(ls[1..]);
      QuietRun(fold, BlogSystem.Next(fold, s, ToComments(ls[0])), ls[1..]);
    }
  }

  // ---------------------------------------------------------------- the commands

  /** The outbox of a post that was created, published and deleted; `sent` when it was relayed. */
  function ThreeRows(id: Id, draft: P.PostRow, now: P.Time, sent: bool): seq<Row<P.PostEvent>> {
    [Row(P.PostCreated(P.PayloadOf(id, draft)), false, sent),
     Row(P.PostPublished(P.PayloadOf(id, P.Published(draft, now))), true, sent),
     Row(P.PostDeleted(id, draft.slug), true, sent)]
  }

  function WithPipe(pipe: Pipe<P.PostEvent>, known: map<Id, C.KnownPost>): Blog {
    Blog(P.PostDb(map[], map[]), C.CommentDb(known, map[]), pipe, Pipeline.Start(1))
  }

  lemma OneNewRow(s: Pipe<P.PostEvent>, e: P.PostEvent)
    ensures Committed(s, [e], C.BoundToComments).rows == s.rows + [Row(e, C.BoundToComments(e), false)]
  {}

  lemma CreateMove(fold: AsciiFold, id: Id, d: P.Draft, now: P.Time) returns (s: Blog)
    requires P.Create(fold, P.PostDb(map[], map[]), id, d, false, now).Ok?
    ensures var m := PostCommand(P.CreatePost(id, d, false, now));
            BlogSystem.Enabled(BlogSystem.Start(1), m) && s == BlogSystem.Next(fold, BlogSystem.Start(1), m)
    ensures var draft := P.Created(fold, d);
            && !draft.published
            && s == Blog(P.PostDb(map[id := draft], map[]), C.CommentDb(map[], map[]),
                         Solo([ThreeRows(id, draft, now, false)[0]], Idle, [], []), Pipeline.Start(1))
  {
    hide Slugify, NormalizedTags, P.ValidText;
    var start := BlogSystem.Start(1);
    var m := PostCommand(P.CreatePost(id, d, false, now));
    var draft := P.Created(fold, d);
    assert Events(start.toComments.rows) == [] && P.Slugs(map[]) == {};
    var out := P.Create(fold, P.PostDb(map[], map[]), id, d, false, now).value;
    assert out.events == [P.PostCreated(P.PayloadOf(id, draft))];
    assert out.db.posts == map[id := draft];
    OneNewRow(start.toComments, out.events[0]);
    s := BlogSystem.Next(fold, start, m);
    assert start.toComments.relays == [Idle];
  }

  lemma CommandMoves(fold: AsciiFold, id: Id, d: P.Draft, now: P.Time) returns (ms: seq<Move>)
    requires P.Create(fold, P.PostDb(map[], map[]), id, d, false, now).Ok?
    ensures ms == [PostCommand(P.CreatePost(id, d, false, now)), PostCommand(P.PublishPost(id, now)),
                   PostCommand(P.DeletePost(id))]
    ensures var rows := ThreeRows(id, P.Created(fold, d), now, false);
            BlogSystem.Run(fold, BlogSystem.Start(1), ms) == Some(WithPipe(Solo(rows, Idle, [], []), map[]))
  {
    hide P.Create, P.Created, BlogSystem.Run;
    var draft := P.Created(fold, d);
    var rows := ThreeRows(id, draft, now, false);
    var create, publish := PostCommand(P.CreatePost(id, d, false, now)), PostCommand(P.PublishPost(id, now));
    var delete := PostCommand(P.DeletePost(id));
    var a := CreateMove(fold, id, d, now);
    var b := BlogSystem.Next(fold, a, publish);
    OneNewRow(a.toComments, rows[1].event);
    assert [rows[0]] + [rows[1]] == [rows[0], rows[1]];
    var c := BlogSystem.Next(fold, b, delete);
    OneNewRow(b.toComments, rows[2].event);
    assert [rows[0], rows[1]] + [rows[2]] == rows;
    assert c.posts.posts == map[];
    BlogRunNothing(fold, c);
    BlogRunOne(fold, b, delete, []);
    BlogRunOne(fold, a, publish, [delete]);
    BlogRunOne(fold, BlogSystem.Start(1), create, [publish, delete]);
    ms := [create, publish, delete];
    assert [delete] + [] == [delete] && [publish] + [delete] == [publish, delete] && [create] + [publish, delete] == ms;
  }

  // ---------------------------------------------------------------- the relay

  /** The relay sends one row of its batch and marks it. */
  lemma SoloSends(s: Pipe<P.PostEvent>, ls: Labels, rows: seq<Row<P.PostEvent>>, batch: seq<nat>, pos: nat,
                  log: seq<nat>, queue: seq<nat>)
    returns (ks: Labels)
    requires pos < |batch| && batch[pos] < |rows|
    requires Pipeline.Run(s, ls) == Some(Solo(rows, Busy(batch, pos, false), log, queue))
    requires Quietly(ls) && OrderlyRun(ls)
    ensures Quietly(ks) && OrderlyRun(ks)
    ensures var id := batch[pos];
            Pipeline.Run(s, ks)
            == Some(Solo(rows[id := rows[id].(published := true)],
                         if pos + 1 == |batch| then Idle else Busy(batch, pos + 1, false),
                         log + [id], if rows[id].bound then queue + [id] else queue))
  {
    hide Pipeline.Run, Pipeline.Next, Pipeline.Enabled, Solo;
    SoloPublish(rows, batch, pos, log, queue, Confirmed);
    RunThen(s, ls, Publish(0, Confirmed));
    ks := ls + [Publish(0, Confirmed)];
    SoloMark(rows, batch, pos, log + [batch[pos]], if rows[batch[pos]].bound then queue + [batch[pos]] else queue);
    RunThen(s, ks, MarkPublished(0));
    ks := ks + [MarkPublished(0)];
  }

  lemma RelayMoves(id: Id, draft: P.PostRow, now: P.Time) returns (ls: Labels)
    ensures Quietly(ls) && OrderlyRun(ls)
    ensures Pipeline.Run(Solo(ThreeRows(id, draft, now, false), Idle, [], []), ls)
            == Some(Solo(ThreeRows(id, draft, now, true), Idle, [0, 1, 2], [1, 2]))
  {
    hide Pipeline.Run, Pipeline.Next, Pipeline.Enabled, Solo, P.PayloadOf, P.Published;
    var rows, sent := ThreeRows(id, draft, now, false), ThreeRows(id, draft, now, true);
    var s := Solo(rows, Idle, [], []);
    RunStart(s);
    assert Pending(rows, 2, 1) == [2] && Pending(rows, 1, 2) == [1, 2] && Pending(rows, 0, 3) == [0, 1, 2];
    SoloRead(rows, [], [], 3);
    RunThen(s, [], ReadBatch(0, 3));
    ls := [] + [ReadBatch(0, 3)];
    ls := SoloSends(s, ls, rows, [0, 1, 2], 0, [], []);
    assert rows[0 := rows[0].(published := true)] == [sent[0], rows[1], rows[2]] && [] + [0] == [0];
    ls := SoloSends(s, ls, [sent[0], rows[1], rows[2]], [0, 1, 2], 1, [0], []);
    assert [sent[0], rows[1], rows[2]][1 := sent[1]] == [sent[0], sent[1], rows[2]];
    assert [] + [1] == [1] && [0] + [1] == [0, 1];
    ls := SoloSends(s, ls, [sent[0], sent[1], rows[2]], [0, 1, 2], 2, [0, 1], [1]);
    assert [sent[0], sent[1], rows[2]][2 := sent[2]] == sent && [1] + [2] == [1, 2] && [0, 1] + [2] == [0, 1, 2];
  }

  // ---------------------------------------------------------------- the consumer

  /** The message at the head is handled, marked and acknowledged; its event reaches the database. */
  lemma HeadIsHandled(fold: AsciiFold, s: Blog) returns (ms: seq<Move>)
    requires s.toComments.queue != [] && s.toComments.phase.Waiting?
    requires s.toComments.queue[0] !in s.toComments.marks && s.toComments.queue[0] < |s.toComments.rows|
    ensures OrderlyMoves(ms)
    ensures var event := s.toComments.rows[s.toComments.queue[0]].event;
            BlogSystem.Run(fold, s, ms)
            == Some(s.(toComments := Handled(s.toComments, true), comments := C.OnPostEvent(s.comments, event)))
  {
    hide Pipeline.Run, BlogSystem.Run;
    var check: Labels := [Label.Deliver, CheckProcessed(true)];
    var finish: Labels := [MarkProcessed(true), Label.Ack];
    var pipe := s.toComments;
    var cleared := s.(toComments := pipe.(phase := Cleared));
    CheckRuns(pipe, true, []);
    RunStart(cleared.toComments);
    assert check + [] == check;
    QuietRun(fold, s, check);
    var executed := BlogSystem.Next(fold, cleared, ToComments(Handle));
    BlogRunOne(fold, cleared, ToComments(Handle), Moves(finish));
    FinishRuns(cleared.toComments, true);
    RunOne(cleared.toComments, Label.Handle, finish);
    assert [Label.Handle] + finish == [Label.Handle, MarkProcessed(true), Label.Ack];
    QuietRun(fold, executed, finish);
    ms := Moves(check) + ([ToComments(Handle)] + Moves(finish));
    BlogRunSplits(fold, s, Moves(check), [ToComments(Handle)] + Moves(finish));
  }

  lemma RetryMoves(fold: AsciiFold, s: Blog) returns (ms: seq<Move>)
    requires s.toComments.queue == [1, 2] && s.toComments.phase.Waiting? && s.toComments.marks == {}
    ensures ms == [ToComments(Label.Deliver), ToComments(CheckProcessed(true)), ToComments(HandlerRaises(Requeue(1)))]
    ensures BlogSystem.Run(fold, s, ms) == Some(s.(toComments := s.toComments.(queue := [2, 1])))
  {
    hide Pipeline.Run, BlogSystem.Run;
    var ls: Labels := [Label.Deliver, CheckProcessed(true), HandlerRaises(Requeue(1))];
    RaiseRuns(s.toComments, true, Requeue(1));
    assert Returned(s.toComments, Requeue(1)) == s.toComments.(queue := [2, 1]);
    QuietRun(fold, s, ls);
    ms := Moves(ls);
  }

  // ---------------------------------------------------------------- the run

  /** Create, publish and delete any post; let the handler of the publication raise once, with its message
      returned behind the deletion. Both pipelines end drained, the post is gone and still known. */
  lemma RetryRevivesDeletedPost(fold: AsciiFold, id: Id, d: P.Draft, now: P.Time) returns (ms: seq<Move>)
    requires P.Create(fold, P.PostDb(map[], map[]), id, d, false, now).Ok?
    ensures BlogSystem.Run(fold, BlogSystem.Start(1), ms).Some?
    ensures forall k :: 0 <= k < |ms| && !OrderlyMove(ms[k]) ==> ms[k] == ToComments(HandlerRaises(Requeue(1)))
    ensures var t := BlogSystem.Run(fold, BlogSystem.Start(1), ms).value;
            && Drained(t.toComments) && Drained(t.toPosts) && !Converged(t)
            && id !in t.posts.posts && C.AcceptsComments(t.comments, id)
  {
    hide Pipeline.Run, BlogSystem.Run, P.Create, P.Created;
    var draft := P.Created(fold, d);
    var start := BlogSystem.Start(1);
    var commands := CommandMoves(fold, id, d, now);
    var a := WithPipe(Solo(ThreeRows(id, draft, now, false), Idle, [], []), map[]);
    var ls := RelayMoves(id, draft, now);
    QuietRun(fold, a, ls);
    var b := WithPipe(Solo(ThreeRows(id, draft, now, true), Idle, [0, 1, 2], [1, 2]), map[]);
    var retry := RetryMoves(fold, b);
    var c := b.(toComments := b.toComments.(queue := [2, 1]));
    var deletion := HeadIsHandled(fold, c);
    var e := BlogSystem.Run(fold, c, deletion).value;
    var publication := HeadIsHandled(fold, e);
    BlogRunSplits(fold, start, commands, Moves(ls) + (retry + (deletion + publication)));
    BlogRunSplits(fold, a, Moves(ls), retry + (deletion + publication));
    BlogRunSplits(fold, b, retry, deletion + publication);
    BlogRunSplits(fold, c, deletion, publication);
    ms := commands + (Moves(ls) + (retry + (deletion + publication)));
    var t := BlogSystem.Run(fold, start, ms).value;
    assert id in t.comments.known;
  }
}
