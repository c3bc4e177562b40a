/**
 Convergence of the composed system: the invariant holds over every orderly run, and once a pipeline
 is drained the derived state on its far side agrees with the source.
 */
module Convergence {
  import opened Wrappers
  import opened Slug
  import opened Pipeline
  import opened PipelineOrder
  import opened PipelineProgress
  import opened BlogSystem
  import P = PostService
  import C = CommentService

  // ---------------------------------------------------------------- commands

  lemma IssuedGrows(events: seq<P.PostEvent>, more: seq<P.PostEvent>)
    ensures Issued(events) <= Issued(events + more)
    ensures forall k :: 0 <= k < |more| && more[k].PostCreated? ==> more[k].payload.postId in Issued(events + more)
  {
    forall p | p in Issued(events) ensures p in Issued(events + more) {
      var i :| 0 <= i < |events| && events[i].PostCreated? && events[i].payload.postId == p;
      assert (events + more)[i] == events[i];
    }
    forall k | 0 <= k < |more| && more[k].PostCreated? ensures more[k].payload.postId in Issued(events + more) {
      assert (events + more)[|events| + k] == more[k];
    }
  }

  lemma DeletedAppend(events: seq<P.PostEvent>, more: seq<P.PostEvent>, p: Id)
    ensures Deleted(events + more, p) <==> Deleted(events, p) || Deleted(more, p)
  {
    if Deleted(events, p) {
      var i :| 0 <= i < |events| && events[i].PostDeleted? && events[i].postId == p;
      assert (events + more)[i] == events[i];
    }
    if Deleted(more, p) {
      var i :| 0 <= i < |more| && more[i].PostDeleted? && more[i].postId == p;
      assert (events + more)[|events| + i] == more[i];
    }
  }

  lemma UnissuedNotDeleted(events: seq<P.PostEvent>, p: Id)
    requires forall i :: 0 <= i < |events| ==> PostOf(events[i]) in Issued(events)
    requires p !in Issued(events)
    ensures !Deleted(events, p)
  {}

  lemma StoredPostsIssued(db: P.PostDb, out: P.Effect, created: Option<Id>, events: seq<P.PostEvent>, p: Id)
    requires forall q :: q in db.posts ==> q in Issued(events) && !Deleted(events, q)
    requires forall i :: 0 <= i < |events| ==> PostOf(events[i]) in Issued(events)
    requires IdsFollow(db, out, created) && p in out.db.posts
    requires created.Some? ==> created.value !in Issued(events)
    ensures p in Issued(events + out.events) && !Deleted(events + out.events, p)
  {
    IssuedGrows(events, out.events);
    if p !in db.posts {
      UnissuedNotDeleted(events, p);
    }
    DeletedAppend(events, out.events, p);
  }

  lemma CommandKeepsIds(db: P.PostDb, out: P.Effect, created: Option<Id>, events: seq<P.PostEvent>,
                        commentEvents: seq<C.CommentEvent>)
    requires IdsInv(db.posts, events, commentEvents) && IdsFollow(db, out, created)
    requires created.Some? ==> created.value !in Issued(events)
    ensures IdsInv(out.db.posts, events + out.events, commentEvents)
  {
    var all := events + out.events;
    IssuedGrows(events, out.events);
    forall p | p in out.db.posts ensures p in Issued(all) && !Deleted(all, p) {
      StoredPostsIssued(db, out, created, events, p);
    }
    forall i | 0 <= i < |all| ensures PostOf(all[i]) in Issued(all) {
      if |events| <= i {
        assert all[i] == out.events[i - |events|];
      }
    }
  }

  lemma CommandKeepsSynced(db: P.PostDb, out: P.Effect, created: Option<Id>, seen: seq<C.CommentEvent>, issued: set<Id>)
    requires SyncedInv(db.posts, seen) && IdsFollow(db, out, created)
    requires forall i :: 0 <= i < |seen| ==> seen[i].postId in issued
    requires created.Some? ==> created.value !in issued
    ensures SyncedInv(out.db.posts, seen)
  {
    forall p | p in out.db.posts ensures out.db.posts[p].commentCount == LastCount(seen, p) {
      if p !in db.posts {
        LastCountAbsent(seen, p);
      }
    }
  }

  lemma SeenIssued(s: Pipe<C.CommentEvent>, posts: map<Id, P.PostRow>, events: seq<P.PostEvent>)
    requires IdsInv(posts, events, Events(s.rows))
    ensures forall i :: 0 <= i < |Seen(s)| ==> Seen(s)[i].postId in Issued(events)
  {
    forall i | 0 <= i < |Seen(s)| ensures Seen(s)[i].postId in Issued(events) {
      assert Seen(s)[i] == Events(s.rows)[i];
    }
  }

  lemma PostCommandStep(fold: AsciiFold, s: Blog, c: P.Command)
    requires Inv(s) && BlogSystem.Enabled(s, PostCommand(c)) && P.Execute(fold, s.posts, c).Ok?
    ensures Inv(BlogSystem.Next(fold, s, PostCommand(c)))
  {
    hide PipeInv, IdsInv, SyncedInv, ProjectionInv, CountsInv, P.Execute, IdsFollow, KnownAfter, Agree;
    hide Committed, Events, Seen, Issued;
    var out := P.Execute(fold, s.posts, c).value;
    var created := if c.CreatePost? then Some(c.id) else None;
    CommandIds(fold, s.posts, c);
    CommandKeepsIds(s.posts, out, created, Events(s.toComments.rows), Events(s.toPosts.rows));
    SeenIssued(s.toPosts, s.posts.posts, Events(s.toComments.rows));
    CommandKeepsSynced(s.posts, out, created, Seen(s.toPosts), Issued(Events(s.toComments.rows)));
    CommittedPipe(s.toComments, out.events, C.BoundToComments);
    EventsFollowCommand(fold, s.posts, c, Events(s.toComments.rows));
  }

  lemma SubmitKeepsCounts(s: Blog, id: Id, sub: C.Submission, now: C.Time)
    requires CountsInv(s.comments.comments, Seen(s.toComments), Events(s.toPosts.rows))
    requires id !in s.comments.comments && C.SubmitComment(s.comments, id, sub, now).Ok?
    ensures var out := C.SubmitComment(s.comments, id, sub, now).value;
            CountsInv(out.db.comments, Seen(s.toComments), Events(s.toPosts.rows) + out.events)
  {
    var out := C.SubmitComment(s.comments, id, sub, now).value;
    forall p ensures Deleted(Seen(s.toComments), p)
                     || C.CountApproved(out.db.comments, p) == LastCount(Events(s.toPosts.rows) + out.events, p)
    {
      C.SubmitKeepsViews(s.comments, id, sub, now, p);
      LastCountSnoc(Events(s.toPosts.rows), out.events[0], p);
    }
  }

  lemma ModerateKeepsCounts(s: Blog, id: Id, action: C.Action)
    requires CountsInv(s.comments.comments, Seen(s.toComments), Events(s.toPosts.rows))
    requires C.ModerateComment(s.comments, id, action).Ok?
    ensures var out := C.ModerateComment(s.comments, id, action).value;
            CountsInv(out.db.comments, Seen(s.toComments), Events(s.toPosts.rows) + out.events)
  {
    var out := C.ModerateComment(s.comments, id, action).value;
    C.EmittedCountIsExact(s.comments, id, action);
    assert out.events == [out.events[0]];
    forall p ensures Deleted(Seen(s.toComments), p)
                     || C.CountApproved(out.db.comments, p) == LastCount(Events(s.toPosts.rows) + out.events, p)
    {
      LastCountSnoc(Events(s.toPosts.rows), out.events[0], p);
    }
  }

  /** A comment command touches comments only, and its events name known posts. */
  lemma CommentEventsKnown(db: C.CommentDb, c: C.Command)
    requires C.CommentsKnown(db) && C.Execute(db, c).Ok?
    ensures C.Execute(db, c).value.db.known == db.known
    ensures |C.Execute(db, c).value.events| == 1 && C.Execute(db, c).value.events[0].postId in db.known
  {}

  lemma KnownPostIssued(s: Pipe<P.PostEvent>, posts: map<Id, P.PostRow>, commentEvents: seq<C.CommentEvent>, p: Id)
    requires IdsInv(posts, Events(s.rows), commentEvents) && p in KnownAfter(Seen(s))
    ensures p in Issued(Events(s.rows))
  {
    var n := |Seen(s)|;
    assert Seen(s) == Events(s.rows)[..n];
    KnownAreIssued(Events(s.rows), n, p);
  }

  lemma IdsAppend(posts: map<Id, P.PostRow>, events: seq<P.PostEvent>, commentEvents: seq<C.CommentEvent>,
                  more: seq<C.CommentEvent>)
    requires IdsInv(posts, events, commentEvents)
    requires forall i :: 0 <= i < |more| ==> more[i].postId in Issued(events)
    ensures IdsInv(posts, events, commentEvents + more)
  {
    hide Issued, Deleted;
  }

  /** A comment command keeps the projection, and its one event names a known post. */
  lemma CommentEventKnown(db: C.CommentDb, c: C.Command, seen: seq<P.PostEvent>)
    requires ProjectionInv(db, seen) && C.Execute(db, c).Ok?
    ensures ProjectionInv(C.Execute(db, c).value.db, seen)
    ensures |C.Execute(db, c).value.events| == 1
    ensures C.Execute(db, c).value.events[0].postId in KnownAfter(seen)
  {
    CommentEventsKnown(db, c);
    C.CommandKeepsCommentsKnown(db, c);
    hide C.Execute, KnownAfter, C.CommentsKnown;
  }

  lemma CommentEventsIssued(events: seq<C.CommentEvent>, s: Pipe<P.PostEvent>, posts: map<Id, P.PostRow>,
                            commentEvents: seq<C.CommentEvent>)
    requires |events| == 1 && events[0].postId in KnownAfter(Seen(s))
    requires IdsInv(posts, Events(s.rows), commentEvents)
    ensures IdsInv(posts, Events(s.rows), commentEvents + events)
  {
    hide IdsInv, KnownAfter, Issued, Events, Seen;
    KnownPostIssued(s, posts, commentEvents, events[0].postId);
    IdsAppend(posts, Events(s.rows), commentEvents, events);
  }

  lemma CommentCommandStep(fold: AsciiFold, s: Blog, c: C.Command)
    requires Inv(s) && BlogSystem.Enabled(s, CommentCommand(c)) && C.Execute(s.comments, c).Ok?
    ensures Inv(BlogSystem.Next(fold, s, CommentCommand(c)))
  {
    hide PipeInv, IdsInv, SyncedInv, ProjectionInv, CountsInv, StreamInv, Committed, Events, Seen;
    hide C.SubmitComment, C.ModerateComment;
    var out := C.Execute(s.comments, c).value;
    CommentEventKnown(s.comments, c, Seen(s.toComments));
    CommentEventsIssued(out.events, s.toComments, s.posts.posts, Events(s.toPosts.rows));
    CommittedPipe(s.toPosts, out.events, C.BoundToPosts);
    match c
    case Submit(id, sub, now) => SubmitKeepsCounts(s, id, sub, now);
    case Moderate(id, action) => ModerateKeepsCounts(s, id, action);
  }

  // ---------------------------------------------------------------- pipeline steps

  /** A pipeline step appends nothing to its outbox and alters no committed event. */
  lemma StepKeepsEvents<E>(s: Pipe<E>, l: Label<E>)
    requires Pipeline.Enabled(s, l) && !l.Commit?
    ensures Events(Pipeline.Next(s, l).rows) == Events(s.rows)
    ensures !l.Handle? ==> Pipeline.Next(s, l).execs == s.execs
    ensures |Pipeline.Next(s, l).rows| == |s.rows|
    ensures forall i :: 0 <= i < |s.rows| ==> Pipeline.Next(s, l).rows[i].bound == s.rows[i].bound
  {}

  lemma StepKeepsPipeInv<E>(s: Pipe<E>, l: Label<E>, bound: E -> bool)
    requires PipeInv(s, bound) && Pipeline.Enabled(s, l) && Orderly(l) && !l.Commit?
    ensures PipeInv(Pipeline.Next(s, l), bound)
    ensures Events(Pipeline.Next(s, l).rows) == Events(s.rows)
    ensures !l.Handle? ==> Seen(Pipeline.Next(s, l)) == Seen(s)
  {
    RelaysInvStep(s, l);
    OrderStep(s, l);
    StepKeepsEvents(s, l);
    hide RelaysInv, OrderInv;
    var t := Pipeline.Next(s, l);
    forall i | 0 <= i < |t.rows| ensures t.rows[i].bound == bound(t.rows[i].event) {
      assert Events(t.rows)[i] == Events(s.rows)[i];
    }
  }

  lemma ToCommentsQuiet(fold: AsciiFold, s: Blog, l: Label<P.PostEvent>)
    requires Inv(s) && BlogSystem.Enabled(s, ToComments(l)) && Orderly(l) && !l.Handle?
    ensures Inv(BlogSystem.Next(fold, s, ToComments(l)))
  {
    hide PipeInv, IdsInv, SyncedInv, ProjectionInv, CountsInv, StreamInv, Pipeline.Next, Events, Seen;
    StepKeepsPipeInv(s.toComments, l, C.BoundToComments);
  }

  lemma ToPostsQuiet(fold: AsciiFold, s: Blog, l: Label<C.CommentEvent>)
    requires Inv(s) && BlogSystem.Enabled(s, ToPosts(l)) && Orderly(l) && !l.Handle?
    ensures Inv(BlogSystem.Next(fold, s, ToPosts(l)))
  {
    hide PipeInv, IdsInv, SyncedInv, ProjectionInv, CountsInv, StreamInv, Pipeline.Next, Events, Seen;
    StepKeepsPipeInv(s.toPosts, l, C.BoundToPosts);
  }

  /** The handled row lies at the frontier, or just before it when it is handled again. */
  ghost predicate AtFrontier<E>(s: Pipe<E>, f: nat, id: nat) {
    && f <= |s.rows| && id < |s.rows|
    && (id + 1 == f || f <= id)
    && (forall j :: f <= j < id ==> !IsBound(s.rows, j))
  }

  lemma HandleMovesFrontier<E>(s: Pipe<E>, bound: E -> bool) returns (f: nat, id: nat)
    requires PipeInv(s, bound) && Pipeline.Enabled(s, Label<E>.Handle)
    ensures id == s.queue[0] && AtFrontier(s, f, id)
    ensures Seen(s) == Events(s.rows)[..f]
    ensures Seen(Pipeline.Next(s, Label<E>.Handle)) == Events(s.rows)[..id + 1]
  {
    f, id := Frontier(s), s.queue[0];
    HandledIsNext(s);
    FrontierInRows(s);
    hide RelaysInv, OrderInv;
  }

  /** Counts after the post handler: only a deleted post loses comments. */
  lemma PostHandlerCounts(db: C.CommentDb, e: P.PostEvent, p: Id)
    ensures || (e.PostDeleted? && e.postId == p)
            || C.CountApproved(C.OnPostEvent(db, e).comments, p) == C.CountApproved(db.comments, p)
  {
    if !(e.PostDeleted? && e.postId == p) {
      assert C.ApprovedIds(C.OnPostEvent(db, e).comments, p) == C.ApprovedIds(db.comments, p);
    }
  }

  lemma DeletedPrefix(events: seq<P.PostEvent>, m: nat, n: nat, p: Id)
    requires m <= n <= |events|
    ensures Deleted(events[..m], p) ==> Deleted(events[..n], p)
  {
    assert events[..n] == events[..m] + events[m..n];
    DeletedAppend(events[..m], events[m..n], p);
  }

  lemma HandledCounts(db: C.CommentDb, events: seq<P.PostEvent>, f: nat, id: nat, commentEvents: seq<C.CommentEvent>)
    requires f <= id + 1 <= |events|
    requires CountsInv(db.comments, events[..f], commentEvents)
    ensures CountsInv(C.OnPostEvent(db, events[id]).comments, events[..id + 1], commentEvents)
  {
    var e := events[id];
    forall p ensures Deleted(events[..id + 1], p)
                     || C.CountApproved(C.OnPostEvent(db, e).comments, p) == LastCount(commentEvents, p)
    {
      PostHandlerCounts(db, e, p);
      DeletedPrefix(events, f, id + 1, p);
      assert events[..id + 1][id] == e;
    }
  }

  lemma HandledProjection(db: C.CommentDb, s: Pipe<P.PostEvent>, f: nat, id: nat)
    requires AtFrontier(s, f, id) && Routed(s.rows, C.BoundToComments)
    requires ProjectionInv(db, Events(s.rows)[..f])
    ensures ProjectionInv(C.OnPostEvent(db, s.rows[id].event), Events(s.rows)[..id + 1])
  {
    ProjectIsAbsolute(s.rows);
    ExecutionFolds(C.Project, map[], s.rows, f, id);
  }

  lemma ToCommentsHandle(fold: AsciiFold, s: Blog)
    requires Inv(s) && BlogSystem.Enabled(s, ToComments(Handle))
    ensures Inv(BlogSystem.Next(fold, s, ToComments(Handle)))
  {
    hide RelaysInv, OrderInv, Routed, IdsInv, SyncedInv, ProjectionInv, CountsInv, StreamInv, Seen, C.OnPostEvent;
    var pipe := s.toComments;
    var f, id := HandleMovesFrontier(pipe, C.BoundToComments);
    StepKeepsPipeInv(pipe, Handle, C.BoundToComments);
    HandledProjection(s.comments, pipe, f, id);
    assert Events(pipe.rows)[id] == pipe.rows[id].event;
    HandledCounts(s.comments, Events(pipe.rows), f, id, Events(s.toPosts.rows));
  }

  lemma SyncedExecution(db: P.PostDb, s: Pipe<C.CommentEvent>, f: nat, id: nat)
    requires AtFrontier(s, f, id) && Routed(s.rows, C.BoundToPosts)
    requires SyncedInv(db.posts, Events(s.rows)[..f])
    ensures SyncedInv(C.OnCommentEvent(db, s.rows[id].event).posts, Events(s.rows)[..id + 1])
  {
    var e := s.rows[id].event;
    var events := Events(s.rows);
    var after := C.OnCommentEvent(db, e);
    forall p | p in after.posts ensures after.posts[p].commentCount == LastCount(events[..id + 1], p) {
      assert events[..id + 1] == events[..id] + [e];
      LastCountSnoc(events[..id], e, p);
      if f <= id {
        LastCountSkip(s.rows, f, id, p);
      }
    }
  }

  /** The count handler changes neither ids nor anything the projection shows. */
  lemma SyncKeepsRows(db: P.PostDb, e: C.CommentEvent)
    ensures C.OnCommentEvent(db, e).posts.Keys == db.posts.Keys
    ensures forall p :: p in db.posts ==> KnownRow(C.OnCommentEvent(db, e).posts[p]) == KnownRow(db.posts[p])
  {}

  lemma SyncKeepsStream(db: P.PostDb, e: C.CommentEvent, events: seq<P.PostEvent>, commentEvents: seq<C.CommentEvent>)
    requires IdsInv(db.posts, events, commentEvents) && StreamInv(db.posts, events)
    ensures IdsInv(C.OnCommentEvent(db, e).posts, events, commentEvents)
    ensures StreamInv(C.OnCommentEvent(db, e).posts, events)
  {
    SyncKeepsRows(db, e);
    hide C.OnCommentEvent, KnownAfter, Issued, Deleted;
  }

  lemma ToPostsHandle(fold: AsciiFold, s: Blog)
    requires Inv(s) && BlogSystem.Enabled(s, ToPosts(Handle))
    ensures Inv(BlogSystem.Next(fold, s, ToPosts(Handle)))
  {
    hide RelaysInv, OrderInv, Routed, IdsInv, SyncedInv, ProjectionInv, CountsInv, StreamInv, Seen, C.OnCommentEvent;
    var pipe := s.toPosts;
    var f, id := HandleMovesFrontier(pipe, C.BoundToPosts);
    StepKeepsPipeInv(pipe, Handle, C.BoundToPosts);
    SyncedExecution(s.posts, pipe, f, id);
    SyncKeepsStream(s.posts, pipe.rows[id].event, Events(s.toComments.rows), Events(pipe.rows));
  }

  // ---------------------------------------------------------------- runs

  lemma StartInv(relays: nat)
    ensures Inv(BlogSystem.Start(relays))
  {
    var s := BlogSystem.Start(relays);
    assert KnownAfter(Events(s.toComments.rows)) == map[];
    assert KnownAfter(Seen(s.toComments)) == map[];
    assert forall p :: C.ApprovedIds(s.comments.comments, p) == {};
  }

  lemma InvStep(fold: AsciiFold, s: Blog, m: Move)
    requires Inv(s) && BlogSystem.Enabled(s, m) && OrderlyMove(m)
    ensures Inv(BlogSystem.Next(fold, s, m))
  {
    match m
    case PostCommand(c) =>
      if P.Execute(fold, s.posts, c).Ok? {
        PostCommandStep(fold, s, c);
      }
    case CommentCommand(c) =>
      if C.Execute(s.comments, c).Ok? {
        CommentCommandStep(fold, s, c);
      }
    case ToComments(l) =>
      if l.Handle? {
        ToCommentsHandle(fold, s);
      } else {
        ToCommentsQuiet(fold, s, l);
      }
    case ToPosts(l) =>
      if l.Handle? {
        ToPostsHandle(fold, s);
      } else {
        ToPostsQuiet(fold, s, l);
      }
  }

  lemma {:induction false} InvRun(fold: AsciiFold, s: Blog, ms: seq<Move>)
    requires Inv(s) && BlogSystem.Run(fold, s, ms).Some? && OrderlyMoves(ms)
    ensures Inv(BlogSystem.Run(fold, s, ms).value)
    decreases |ms|
  {
    hide Inv, BlogSystem.Next, BlogSystem.Enabled;
    if ms == [] {
    } else {
      InvStep(fold, s, ms[0]);
      InvRun(fold, BlogSystem.Next(fold, s, ms[0]), ms[1..]);
    }
  }

  // ---------------------------------------------------------------- drained pipelines

  /** Drained, the projection is that of all committed events. */
  lemma DrainedProjection(s: Blog)
    requires Inv(s) && Drained(s.toComments)
    ensures s.comments.known == KnownAfter(Events(s.toComments.rows))
  {
    var rows := s.toComments.rows;
    DrainedFrontier(s.toComments);
    ProjectIsAbsolute(rows);
    FoldSkip(C.Project, map[], rows, Frontier(s.toComments), |rows|);
    assert Events(rows)[..|rows|] == Events(rows);
  }

  /** Drained, a post accepts comments exactly when it exists and is published; every known post has
      the stored slug, title and status; deleted posts are unknown. */
  lemma DrainedPostsAgree(s: Blog)
    requires Inv(s) && Drained(s.toComments)
    ensures forall p :: C.AcceptsComments(s.comments, p) <==> p in s.posts.posts && s.posts.posts[p].published
    ensures forall p :: p in s.comments.known ==>
              p in s.posts.posts && s.comments.known[p] == KnownRow(s.posts.posts[p])
    ensures forall c :: c in s.comments.comments ==> s.comments.comments[c].postId in s.posts.posts
  {
    DrainedProjection(s);
  }

  /** Drained, every stored post's comment count is its number of approved comments, although
      deleting a post removes comments without emitting counts. */
  lemma DrainedCountsAgree(s: Blog, p: Id)
    requires Inv(s) && Drained(s.toPosts) && p in s.posts.posts
    ensures s.posts.posts[p].commentCount == C.CountApproved(s.comments.comments, p)
  {
    DrainedLastCount(s.toPosts, p);
    StoredNotDeleted(s.toComments, s.posts.posts, Events(s.toPosts.rows), p);
    hide PipeInv, Drained, IdsInv, StreamInv, ProjectionInv, Deleted, Seen, Events, LastCount, C.CountApproved;
  }

  lemma DrainedLastCount(s: Pipe<C.CommentEvent>, p: Id)
    requires PipeInv(s, C.BoundToPosts) && Drained(s)
    ensures LastCount(Seen(s), p) == LastCount(Events(s.rows), p)
  {
    DrainedFrontier(s);
    hide RelaysInv, OrderInv;
    LastCountSkip(s.rows, Frontier(s), |s.rows|, p);
    assert Events(s.rows)[..|s.rows|] == Events(s.rows);
  }

  lemma StoredNotDeleted(s: Pipe<P.PostEvent>, posts: map<Id, P.PostRow>, commentEvents: seq<C.CommentEvent>, p: Id)
    requires IdsInv(posts, Events(s.rows), commentEvents) && p in posts
    ensures !Deleted(Seen(s), p)
  {
    var events := Events(s.rows);
    var n := |Seen(s)|;
    assert events[..|events|] == events && Seen(s) == events[..n];
    hide Issued, Events, Seen, Deleted;
    DeletedPrefix(events, n, |events|, p);
  }

  // ---------------------------------------------------------------- quiescence

  predicate Advances(s: Blog, m: Move) {
    match m
    case ToComments(l) => Progress(s.toComments, l)
    case ToPosts(l) => Progress(s.toPosts, l)
    case _ => false
  }

  predicate Quiet(s: Blog) {
    Settled(s.toComments) && Settled(s.toPosts)
  }

  function BlogMeasure(s: Blog): int {
    Measure(s.toComments) + Measure(s.toPosts)
  }

  /** Consuming never appends to an outbox, and each step of either pipeline lowers the measure. */
  lemma AdvanceLowersMeasure(fold: AsciiFold, s: Blog, m: Move)
    requires Inv(s) && Advances(s, m)
    ensures BlogSystem.Enabled(s, m) && OrderlyMove(m) && 0 <= BlogMeasure(s)
    ensures BlogMeasure(BlogSystem.Next(fold, s, m)) < BlogMeasure(s)
    ensures Events(BlogSystem.Next(fold, s, m).toComments.rows) == Events(s.toComments.rows)
    ensures Events(BlogSystem.Next(fold, s, m).toPosts.rows) == Events(s.toPosts.rows)
  {
    hide Measure, Pipeline.Next;
    MeasureNonnegative(s.toComments);
    MeasureNonnegative(s.toPosts);
    match m
    case ToComments(l) =>
      ProgressLowersMeasure(s.toComments, l);
      StepKeepsEvents(s.toComments, l);
    case ToPosts(l) =>
      ProgressLowersMeasure(s.toPosts, l);
      StepKeepsEvents(s.toPosts, l);
  }

  lemma PipesAccounted(s: Blog)
    requires Inv(s)
    ensures RelaysInv(s.toComments) && Accounted(s.toComments) && RelaysInv(s.toPosts) && Accounted(s.toPosts)
  {
    hide IdsInv, StreamInv, ProjectionInv, SyncedInv, CountsInv, RelaysInv, Accounted, Stutters, QueuedInOrder;
  }

  lemma QuietIffNothingAdvances(s: Blog)
    requires Inv(s) && s.toComments.relays != [] && s.toPosts.relays != []
    ensures (forall m :: !Advances(s, m)) <==> Quiet(s)
  {
    PipesAccounted(s);
    hide Inv, RelaysInv, Accounted, Settled, Progress;
    if Quiet(s) {
      QuiescentIffSettled(s.toComments);
      QuiescentIffSettled(s.toPosts);
    } else {
      var m := SomethingAdvances(s);
    }
  }

  ghost predicate AdvancingRun(fold: AsciiFold, s: Blog, ms: seq<Move>)
    requires Inv(s)
    decreases |ms|
  {
    ms == [] || (Advances(s, ms[0]) &&
      (AdvanceLowersMeasure(fold, s, ms[0]); InvStep(fold, s, ms[0]);
       AdvancingRun(fold, BlogSystem.Next(fold, s, ms[0]), ms[1..])))
  }

  /** No run of pipeline steps is longer than the measure. */
  lemma {:induction false} AdvancingRunsEnd(fold: AsciiFold, s: Blog, ms: seq<Move>)
    requires Inv(s) && AdvancingRun(fold, s, ms)
    ensures |ms| <= BlogMeasure(s)
    decreases |ms|
  {
    MeasureNonnegative(s.toComments);
    MeasureNonnegative(s.toPosts);
    hide Inv, BlogSystem.Next, BlogSystem.Enabled, Advances, Measure;
    if ms == [] {
    } else {
      AdvanceLowersMeasure(fold, s, ms[0]);
      InvStep(fold, s, ms[0]);
      AdvancingRunsEnd(fold, BlogSystem.Next(fold, s, ms[0]), ms[1..]);
    }
  }

  lemma SomethingAdvances(s: Blog) returns (m: Move)
    requires Inv(s) && s.toComments.relays != [] && s.toPosts.relays != [] && !Quiet(s)
    ensures Advances(s, m)
  {
    if !Settled(s.toComments) {
      var l := StepExists(s.toComments);
      m := ToComments(l);
    } else {
      var l := StepExists(s.toPosts);
      m := ToPosts(l);
    }
  }

  /** Both derived states agree with their sources. */
  ghost predicate Converged(s: Blog) {
    && (forall p :: C.AcceptsComments(s.comments, p) <==> p in s.posts.posts && s.posts.posts[p].published)
    && (forall p :: p in s.comments.known ==> p in s.posts.posts && s.comments.known[p] == KnownRow(s.posts.posts[p]))
    && (forall p :: p in s.posts.posts ==> s.posts.posts[p].commentCount == C.CountApproved(s.comments.comments, p))
  }

  lemma DrainedConverges(s: Blog)
    requires Inv(s) && Drained(s.toComments) && Drained(s.toPosts)
    ensures Converged(s)
  {
    DrainedPostsAgree(s);
    forall p | p in s.posts.posts ensures s.posts.posts[p].commentCount == C.CountApproved(s.comments.comments, p) {
      DrainedCountsAgree(s, p);
    }
  }

  lemma QuietConverges(s: Blog)
    requires Inv(s) && Quiet(s)
    ensures Converged(s)
  {
    DrainedConverges(s);
  }

  lemma {:induction false} DrainsFrom(fold: AsciiFold, s: Blog) returns (ms: seq<Move>)
    requires Inv(s) && s.toComments.relays != [] && s.toPosts.relays != []
    ensures OrderlyMoves(ms) && BlogSystem.Run(fold, s, ms).Some?
    ensures forall k :: 0 <= k < |ms| ==> ms[k].ToComments? || ms[k].ToPosts?
    ensures var t := BlogSystem.Run(fold, s, ms).value;
            && Quiet(t) && Converged(t)
            && Events(t.toComments.rows) == Events(s.toComments.rows)
            && Events(t.toPosts.rows) == Events(s.toPosts.rows)
    decreases BlogMeasure(s)
  {
    hide Inv, Events, Measure, Advances, Converged, Settled, BlogSystem.Next, BlogSystem.Enabled;
    if Quiet(s) {
      ms := [];
      QuietConverges(s);
    } else {
      var m := SomethingAdvances(s);
      AdvanceLowersMeasure(fold, s, m);
      InvStep(fold, s, m);
      MoveKeepsRelays(fold, s, m);
      AdvanceIsPipeline(s, m);
      var next := BlogSystem.Next(fold, s, m);
      var rest := DrainsFrom(fold, next);
      ms := [m] + rest;
      assert ms[1..] == rest;
      assert BlogSystem.Run(fold, s, ms) == BlogSystem.Run(fold, next, rest);
    }
  }

  lemma AdvanceIsPipeline(s: Blog, m: Move)
    requires Advances(s, m)
    ensures m.ToComments? || m.ToPosts?
  {}

  // ---------------------------------------------------------------- main theorems

  /** The states that orderly runs lead to, with any number of relays per service. */
  ghost predicate Reachable(fold: AsciiFold, relays: nat, s: Blog) {
    exists ms :: OrderlyMoves(ms) && BlogSystem.Run(fold, BlogSystem.Start(relays), ms) == Some(s)
  }

  lemma ReachableInv(fold: AsciiFold, relays: nat, s: Blog)
    requires Reachable(fold, relays, s)
    ensures Inv(s) && |s.toComments.relays| == |s.toPosts.relays| == relays
  {
    hide Inv, BlogSystem.Run, BlogSystem.Next;
    var ms :| OrderlyMoves(ms) && BlogSystem.Run(fold, BlogSystem.Start(relays), ms) == Some(s);
    StartInv(relays);
    InvRun(fold, BlogSystem.Start(relays), ms);
    RunKeepsRelays(fold, BlogSystem.Start(relays), ms);
  }

  lemma MoveKeepsRelays(fold: AsciiFold, s: Blog, m: Move)
    requires BlogSystem.Enabled(s, m)
    ensures |BlogSystem.Next(fold, s, m).toComments.relays| == |s.toComments.relays|
    ensures |BlogSystem.Next(fold, s, m).toPosts.relays| == |s.toPosts.relays|
  {}

  lemma {:induction false} RunKeepsRelays(fold: AsciiFold, s: Blog, ms: seq<Move>)
    requires BlogSystem.Run(fold, s, ms).Some?
    ensures |BlogSystem.Run(fold, s, ms).value.toComments.relays| == |s.toComments.relays|
    ensures |BlogSystem.Run(fold, s, ms).value.toPosts.relays| == |s.toPosts.relays|
    decreases |ms|
  {
    hide BlogSystem.Next, BlogSystem.Enabled;
    if ms == [] {
    } else {
      MoveKeepsRelays(fold, s, ms[0]);
      RunKeepsRelays(fold, BlogSystem.Next(fold, s, ms[0]), ms[1..]);
    }
  }

  /** In every reachable state comment-service's known posts are the projection of a prefix of
      post-service's committed events. */
  lemma KnownPostsArePrefixProjection(fold: AsciiFold, relays: nat, s: Blog) returns (n: nat)
    requires Reachable(fold, relays, s)
    ensures n <= |s.toComments.rows| && s.comments.known == KnownAfter(Events(s.toComments.rows)[..n])
  {
    ReachableInv(fold, relays, s);
    n := Frontier(s.toComments);
    FrontierInRows(s.toComments);
  }

  /** In every reachable state in which both pipelines are drained, whatever relays, broker and
      crashes did before, known posts and comment counts agree with their sources. */
  lemma DrainedStatesConverge(fold: AsciiFold, relays: nat, s: Blog)
    requires Reachable(fold, relays, s) && Drained(s.toComments) && Drained(s.toPosts)
    ensures Converged(s)
  {
    hide Inv, Drained, Converged, Reachable;
    ReachableInv(fold, relays, s);
    DrainedConverges(s);
  }

  /** From every reachable state pipeline steps alone, with no new event, lead to a quiet and
      converged state. */
  lemma BlogDrains(fold: AsciiFold, relays: nat, s: Blog) returns (ms: seq<Move>)
    requires 0 < relays && Reachable(fold, relays, s)
    ensures OrderlyMoves(ms) && BlogSystem.Run(fold, s, ms).Some?
    ensures forall k :: 0 <= k < |ms| ==> ms[k].ToComments? || ms[k].ToPosts?
    ensures var t := BlogSystem.Run(fold, s, ms).value;
            && Quiet(t) && Converged(t)
            && Events(t.toComments.rows) == Events(s.toComments.rows)
            && Events(t.toPosts.rows) == Events(s.toPosts.rows)
  {
    hide Inv, Quiet, Converged, Reachable, Events, BlogSystem.Run;
    ReachableInv(fold, relays, s);
    ms := DrainsFrom(fold, s);
  }
}
