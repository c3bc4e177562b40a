/**
 When a returned message breaks convergence. Handling a post's event late is harmless as long as it is
 not the post's last event that overtook it, or both leave the same state of the post.
 */
module ConvergenceReturns {
  import opened Wrappers
  import opened Slug
  import opened Pipeline
  import opened PipelineOrder
  import opened PipelineLimits
  import opened PipelineProgress
  import opened LateDelivery
  import opened BlogSystem
  import opened Convergence
  import P = PostService
  import C = CommentService

  type Known = map<Id, C.KnownPost>
  type Rows = seq<Row<P.PostEvent>>

  // ---------------------------------------------------------------- one post at a time

  function At(known: Known, p: Id): Option<C.KnownPost> {
    if p in known then Some(known[p]) else None
  }

  /** What an event leaves of its post. */
  function Left(e: P.PostEvent): Option<C.KnownPost> {
    if e.PostDeleted? then None else Some(C.KnownPost(e.payload.slug, e.payload.title, e.payload.published))
  }

  ghost predicate OfPost(rows: Rows, j: int, p: Id) {
    IsBound(rows, j) && PostOf(rows[j].event) == p
  }

  lemma ProjectAt(known: Known, e: P.PostEvent, q: Id)
    ensures C.BoundToComments(e) ==> At(C.Project(known, e), q) == if q == PostOf(e) then Left(e) else At(known, q)
    ensures !C.BoundToComments(e) ==> C.Project(known, e) == known
  {}

  /** The projection of a prefix knows of a post what its last event there left. */
  lemma {:induction false} KnownAt(rows: Rows, n: nat, w: nat, p: Id)
    requires n <= |rows| && Routed(rows, C.BoundToComments) && w < n && OfPost(rows, w, p)
    requires forall j :: w < j < n ==> !OfPost(rows, j, p)
    ensures At(KnownAfter(Events(rows)[..n]), p) == Left(rows[w].event)
    decreases n
  {
    FoldLast(C.Project, map[], Events(rows), n - 1);
    ProjectAt(KnownAfter(Events(rows)[..n - 1]), rows[n - 1].event, p);
    if w == n - 1 {
    } else {
      KnownAt(rows, n - 1, w, p);
      assert !OfPost(rows, n - 1, p);
    }
  }

  /** The last of a post's rows below `n`. */
  lemma {:induction false} LastRow(rows: Rows, n: nat, p: Id, some: nat) returns (w: nat)
    requires n <= |rows| && some < n && OfPost(rows, some, p)
    ensures some <= w < n && OfPost(rows, w, p) && forall j :: w < j < n ==> !OfPost(rows, j, p)
    decreases n
  {
    if OfPost(rows, n - 1, p) {
      w := n - 1;
    } else {
      w := LastRow(rows, n - 1, p, some);
    }
  }

  // ---------------------------------------------------------------- the condition

  /** Row `x` is queued in front of every copy of row `id`. */
  ghost predicate Ahead(queue: seq<nat>, x: nat, id: nat) {
    exists k :: 0 <= k < |queue| && queue[k] == x && id !in queue[..k]
  }

  /** The post's last event is seen or queued in front of row `id` only if it leaves the same as row `id`. */
  ghost predicate NotOverruled(rows: Rows, queue: seq<nat>, f: nat, id: nat)
    requires id < |rows|
  {
    var p := PostOf(rows[id].event);
    forall w: nat :: OfPost(rows, w, p) && (forall j :: w < j ==> !OfPost(rows, j, p)) && (w < f || Ahead(queue, w, id))
      ==> Left(rows[w].event) == Left(rows[id].event)
  }

  /** Put back at position `at`, the unprocessed head comes to stand behind the last event of its post,
      which leaves something else. */
  ghost predicate Overruled(s: Pipe<P.PostEvent>, at: nat)
    requires at < |s.queue| && s.queue[0] < |s.rows|
  {
    var id := s.queue[0];
    var p := PostOf(s.rows[id].event);
    && id !in s.marks
    && exists k :: 0 < k <= at && id !in s.queue[1..k] && OfPost(s.rows, s.queue[k], p)
                   && (forall j :: s.queue[k] < j ==> !OfPost(s.rows, j, p))
                   && Left(s.rows[s.queue[k]].event) != Left(s.rows[id].event)
  }

  // ---------------------------------------------------------------- the invariant

  /** The events that the virtual pipeline has handled. */
  function SeenUpTo(rows: Rows, ve: seq<nat>): seq<P.PostEvent> {
    if Covered(ve) <= |rows| then Events(rows)[..Covered(ve)] else Events(rows)
  }

  ghost predicate Others(known: Known, seen: seq<P.PostEvent>, p: Id) {
    forall q :: q != p ==> At(known, q) == At(KnownAfter(seen), q)
  }

  /** The late message's post is as if nothing was late, or a later event of it is still to come. */
  ghost predicate Caught(known: Known, rows: Rows, f: nat, p: Id) {
    || (f <= |rows| && At(known, p) == At(KnownAfter(Events(rows)[..f]), p))
    || exists z: nat :: f <= z && OfPost(rows, z, p)
  }

  ghost predicate Mine(known: Known, r: Pipe<P.PostEvent>, f: nat, id: nat)
    requires id < |r.rows|
  {
    var p := PostOf(r.rows[id].event);
    if id in r.marks then Caught(known, r.rows, f, p)
    else
      && NotOverruled(r.rows, r.queue, f, id)
      && (r.phase.Executed? && r.queue != [] && r.queue[0] == id ==> At(known, p) == Left(r.rows[id].event))
  }

  /** What the late message does not touch: post-service and the pipeline to it. */
  ghost predicate PostsPart(posts: map<Id, P.PostRow>, events: seq<P.PostEvent>, toPosts: Pipe<C.CommentEvent>) {
    && PipeInv(toPosts, C.BoundToPosts)
    && IdsInv(posts, events, Events(toPosts.rows))
    && StreamInv(posts, events)
    && SyncedInv(posts, Seen(toPosts))
  }

  /** comment-service's database, against the events that the virtual pipeline has handled. */
  ghost predicate CommentsPart(db: C.CommentDb, r: Pipe<P.PostEvent>, id: nat, ve: seq<nat>,
                               commentEvents: seq<C.CommentEvent>)
    requires id < |r.rows|
  {
    && C.CommentsKnown(db)
    && CountsInv(db.comments, SeenUpTo(r.rows, ve), commentEvents)
    && Others(db.known, SeenUpTo(r.rows, ve), PostOf(r.rows[id].event))
    && Mine(db.known, r, Covered(ve), id)
  }

  ghost predicate LatePart(r: Pipe<P.PostEvent>, id: nat, ve: seq<nat>) {
    LatePipe(r, id, ve) && Routed(r.rows, C.BoundToComments) && id < |r.rows|
  }

  ghost predicate LateInv(s: Blog, id: nat, ve: seq<nat>) {
    && LatePart(s.toComments, id, ve)
    && PostsPart(s.posts.posts, Events(s.toComments.rows), s.toPosts)
    && CommentsPart(s.comments, s.toComments, id, ve, Events(s.toPosts.rows))
  }

  lemma LateFrontier(r: Pipe<P.PostEvent>, id: nat, ve: seq<nat>)
    requires LatePipe(r, id, ve)
    ensures id < Covered(ve) <= |r.rows|
  {
    FrontierInRows(Virtual(r, id, ve));
    hide Accounted, Stutters, QueuedInOrder;
    assert id in Virtual(r, id, ve).marks;
  }

  // ---------------------------------------------------------------- what steps keep of the late post

  lemma AheadTail(queue: seq<nat>, x: nat, id: nat)
    requires queue != [] && queue[0] != id && Ahead(queue[1..], x, id)
    ensures Ahead(queue, x, id)
  {
    var rest := queue[1..];
    var k :| 0 <= k < |rest| && rest[k] == x && id !in rest[..k];
    assert queue[..k + 1] == [queue[0]] + rest[..k];
    assert queue[k + 1] == x;
  }

  lemma AheadSnoc(queue: seq<nat>, x: nat, id: nat, last: nat)
    requires id in queue && Ahead(queue + [last], x, id)
    ensures Ahead(queue, x, id)
  {
    var longer := queue + [last];
    var k :| 0 <= k < |longer| && longer[k] == x && id !in longer[..k];
    assert longer[..|queue|] == queue;
    assert k < |queue|;
    assert longer[..k] == queue[..k];
  }

  /** Steps that handle nothing keep what is known about the late post. */
  lemma MineQuiet(known: Known, r: Pipe<P.PostEvent>, f: nat, id: nat, l: Label<P.PostEvent>)
    requires id < |r.rows| && Mine(known, r, f, id) && (id in r.marks || id in r.queue)
    requires Pipeline.Enabled(r, l) && Orderly(l) && !l.Commit? && !l.Handle? && !OnLate(r, id, l)
    ensures id < |Pipeline.Next(r, l).rows| && Mine(known, Pipeline.Next(r, l), f, id)
  {
    var t := Pipeline.Next(r, l);
    SameRows(r.rows, t.rows, l, r);
    assert forall j, p :: OfPost(t.rows, j, p) == OfPost(r.rows, j, p);
    if id !in t.marks {
      forall w: nat | Ahead(t.queue, w, id) ensures Ahead(r.queue, w, id) {
        if l.Publish? && t.queue != r.queue {
          AheadSnoc(r.queue, w, id, r.relays[l.r].batch[r.relays[l.r].pos]);
        } else if t.queue != r.queue {
          AheadTail(r.queue, w, id);
        }
      }
    }
  }

  lemma SameRows(rows: Rows, after: Rows, l: Label<P.PostEvent>, r: Pipe<P.PostEvent>)
    requires rows == r.rows && Pipeline.Enabled(r, l) && !l.Commit? && after == Pipeline.Next(r, l).rows
    ensures |after| == |rows| && Events(after) == Events(rows)
    ensures forall j :: 0 <= j < |rows| ==> after[j].event == rows[j].event && after[j].bound == rows[j].bound
  {
    StepKeepsEvents(r, l);
    forall j | 0 <= j < |rows| ensures after[j].event == rows[j].event && after[j].bound == rows[j].bound {
      assert Events(after)[j] == Events(rows)[j];
    }
  }

  /** Marked, the late message has left its post right, or a later event of the post is still to come. */
  lemma LateCaught(known: Known, r: Pipe<P.PostEvent>, f: nat, id: nat)
    requires Routed(r.rows, C.BoundToComments) && id < f <= |r.rows| && IsBound(r.rows, id)
    requires NotOverruled(r.rows, r.queue, f, id)
    requires At(known, PostOf(r.rows[id].event)) == Left(r.rows[id].event)
    ensures Caught(known, r.rows, f, PostOf(r.rows[id].event))
  {
    var rows, p := r.rows, PostOf(r.rows[id].event);
    if !exists z: nat :: f <= z && OfPost(rows, z, p) {
      var w := LastRow(rows, f, p, id);
      KnownAt(rows, f, w, p);
      assert forall j :: w < j ==> !OfPost(rows, j, p);
    }
  }

  lemma MineOnLate(known: Known, r: Pipe<P.PostEvent>, f: nat, id: nat, l: Label<P.PostEvent>)
    requires Routed(r.rows, C.BoundToComments) && id < f <= |r.rows| && IsBound(r.rows, id) && Mine(known, r, f, id)
    requires Pipeline.Enabled(r, l) && Orderly(l) && !l.Handle? && OnLate(r, id, l) && !r.phase.Marked?
    ensures id < |Pipeline.Next(r, l).rows| && Mine(known, Pipeline.Next(r, l), f, id)
  {
    var t := Pipeline.Next(r, l);
    assert t.rows == r.rows;
    if l.MarkProcessed? {
      LateCaught(known, r, f, id);
    } else {
      assert t.queue == r.queue;
    }
  }

  /** Handling another message: the frontier moves on, and an event of the late post settles the post. */
  lemma MineHandled(known: Known, r: Pipe<P.PostEvent>, f: nat, id: nat)
    requires Routed(r.rows, C.BoundToComments) && id < f <= |r.rows| && Mine(known, r, f, id)
    requires Pipeline.Enabled(r, Label.Handle) && !OnLate(r, id, Label.Handle)
    requires r.queue[0] < |r.rows| && IsBound(r.rows, r.queue[0]) && AtFrontier(r, f, r.queue[0])
    ensures var e := r.rows[r.queue[0]].event;
            Mine(C.Project(known, e), Pipeline.Next(r, Label.Handle), r.queue[0] + 1, id)
  {
    var y := r.queue[0];
    var rows, p := r.rows, PostOf(r.rows[id].event);
    var e := rows[y].event;
    ProjectAt(known, e, p);
    if id in r.marks {
      CaughtHandled(known, rows, f, y, p);
    } else {
      assert forall j: nat :: f <= j < y ==> !OfPost(rows, j, p);
      forall w: nat | OfPost(rows, w, p) && (forall j :: w < j ==> !OfPost(rows, j, p))
                      && (w < y + 1 || Ahead(r.queue, w, id))
        ensures Left(rows[w].event) == Left(rows[id].event)
      {
        if w == y {
          assert r.queue[0] == w && id !in r.queue[..0];
        }
      }
    }
  }

  lemma CaughtHandled(known: Known, rows: Rows, f: nat, y: nat, p: Id)
    requires Routed(rows, C.BoundToComments) && f <= |rows| && Caught(known, rows, f, p)
    requires y < |rows| && IsBound(rows, y) && (y + 1 == f || f <= y) && forall j :: f <= j < y ==> !IsBound(rows, j)
    ensures Caught(C.Project(known, rows[y].event), rows, y + 1, p)
  {
    var e := rows[y].event;
    ProjectAt(known, e, p);
    HandledKnown(rows, f, y);
    ProjectAt(KnownAfter(Events(rows)[..f]), e, p);
    if PostOf(e) != p && !(At(known, p) == At(KnownAfter(Events(rows)[..f]), p)) {
      var z: nat :| f <= z && OfPost(rows, z, p);
      assert z != y && y + 1 <= z by {
        assert IsBound(rows, z);
      }
    }
  }

  lemma HandledKnown(rows: Rows, f: nat, y: nat)
    requires Routed(rows, C.BoundToComments) && f <= |rows| && y < |rows|
    requires (y + 1 == f || f <= y) && forall j :: f <= j < y ==> !IsBound(rows, j)
    ensures KnownAfter(Events(rows)[..y + 1]) == C.Project(KnownAfter(Events(rows)[..f]), rows[y].event)
  {
    ProjectIsAbsolute(rows);
    ExecutionFolds(C.Project, map[], rows, f, y);
  }

  lemma OthersHandled(known: Known, rows: Rows, f: nat, y: nat, p: Id)
    requires Routed(rows, C.BoundToComments) && f <= |rows| && y < |rows| && IsBound(rows, y)
    requires (y + 1 == f || f <= y) && forall j :: f <= j < y ==> !IsBound(rows, j)
    requires Others(known, Events(rows)[..f], p)
    ensures Others(C.Project(known, rows[y].event), Events(rows)[..y + 1], p)
  {
    HandledKnown(rows, f, y);
    forall q | q != p
      ensures At(C.Project(known, rows[y].event), q) == At(KnownAfter(Events(rows)[..y + 1]), q)
    {
      ProjectAt(known, rows[y].event, q);
      ProjectAt(KnownAfter(Events(rows)[..f]), rows[y].event, q);
    }
  }

  // ---------------------------------------------------------------- pipeline steps

  lemma StepKeepsRouted(r: Pipe<P.PostEvent>, l: Label<P.PostEvent>)
    requires Routed(r.rows, C.BoundToComments) && Pipeline.Enabled(r, l) && !l.Commit?
    ensures Routed(Pipeline.Next(r, l).rows, C.BoundToComments)
  {
    SameRows(r.rows, Pipeline.Next(r, l).rows, l, r);
  }

  lemma LatePartKept(r: Pipe<P.PostEvent>, id: nat, ve: seq<nat>, l: Label<P.PostEvent>)
    requires LatePart(r, id, ve) && Pipeline.Enabled(r, l) && Orderly(l) && !l.Commit?
    ensures LatePart(Pipeline.Next(r, l), id, VirtualExecs(r, id, ve, l))
    ensures Events(Pipeline.Next(r, l).rows) == Events(r.rows)
  {
    StepKeepsRouted(r, l);
    SameRows(r.rows, Pipeline.Next(r, l).rows, l, r);
    hide LatePipe;
    if OnLate(r, id, l) {
      LateItself(r, id, ve, l);
    } else {
      LateElsewhere(r, id, ve, l);
    }
  }

  lemma QuietKeepsComments(db: C.CommentDb, r: Pipe<P.PostEvent>, id: nat, ve: seq<nat>, l: Label<P.PostEvent>,
                           commentEvents: seq<C.CommentEvent>)
    requires LatePart(r, id, ve) && CommentsPart(db, r, id, ve, commentEvents)
    requires Pipeline.Enabled(r, l) && Orderly(l) && !l.Commit? && !l.Handle?
    ensures id < |Pipeline.Next(r, l).rows| && CommentsPart(db, Pipeline.Next(r, l), id, ve, commentEvents)
  {
    var t := Pipeline.Next(r, l);
    LateFrontier(r, id, ve);
    SameRows(r.rows, t.rows, l, r);
    assert SeenUpTo(t.rows, ve) == SeenUpTo(r.rows, ve);
    assert IsBound(r.rows, id) && (id in r.marks || id in r.queue);
    assert OnLate(r, id, l) ==> !r.phase.Marked?;
    hide LatePipe, C.CommentsKnown, CountsInv, Others;
    if OnLate(r, id, l) {
      MineOnLate(db.known, r, Covered(ve), id, l);
    } else {
      MineQuiet(db.known, r, Covered(ve), id, l);
    }
  }

  lemma LateQuietStep(fold: AsciiFold, s: Blog, id: nat, ve: seq<nat>, l: Label<P.PostEvent>)
    requires LateInv(s, id, ve) && BlogSystem.Enabled(s, ToComments(l)) && Orderly(l) && !l.Handle?
    ensures LateInv(BlogSystem.Next(fold, s, ToComments(l)), id, ve)
  {
    hide LatePart, PostsPart, CommentsPart, Pipeline.Next, OnLate;
    LatePartKept(s.toComments, id, ve, l);
    QuietKeepsComments(s.comments, s.toComments, id, ve, l, Events(s.toPosts.rows));
  }

  lemma HandledFacts(r: Pipe<P.PostEvent>, id: nat, ve: seq<nat>)
    requires LatePipe(r, id, ve) && Pipeline.Enabled(r, Label.Handle) && !OnLate(r, id, Label.Handle)
    ensures AtFrontier(r, Covered(ve), r.queue[0]) && IsBound(r.rows, r.queue[0])
    ensures Covered(VirtualExecs(r, id, ve, Label.Handle)) == r.queue[0] + 1
  {
    LateFrontier(r, id, ve);
    HandledIsNext(Virtual(r, id, ve));
  }

  lemma CommentsStayKnown(db: C.CommentDb, e: P.PostEvent)
    requires C.CommentsKnown(db)
    ensures C.CommentsKnown(C.OnPostEvent(db, e))
  {}

  lemma HandleKeepsComments(db: C.CommentDb, r: Pipe<P.PostEvent>, id: nat, ve: seq<nat>,
                            commentEvents: seq<C.CommentEvent>)
    requires LatePart(r, id, ve) && CommentsPart(db, r, id, ve, commentEvents)
    requires Pipeline.Enabled(r, Label.Handle) && !OnLate(r, id, Label.Handle)
    ensures r.queue[0] < |r.rows|
    ensures CommentsPart(C.OnPostEvent(db, r.rows[r.queue[0]].event), Pipeline.Next(r, Label.Handle), id,
                         VirtualExecs(r, id, ve, Label.Handle), commentEvents)
  {
    LateFrontier(r, id, ve);
    HandledFacts(r, id, ve);
    hide LatePipe, OnLate, VirtualExecs, CommentsPart;
    HandleAtFrontier(db, r, id, ve, VirtualExecs(r, id, ve, Label.Handle), commentEvents);
  }

  lemma HandleAtFrontier(db: C.CommentDb, r: Pipe<P.PostEvent>, id: nat, ve: seq<nat>, after: seq<nat>,
                         commentEvents: seq<C.CommentEvent>)
    requires Routed(r.rows, C.BoundToComments) && id < Covered(ve) <= |r.rows|
    requires CommentsPart(db, r, id, ve, commentEvents)
    requires Pipeline.Enabled(r, Label.Handle) && !OnLate(r, id, Label.Handle)
    requires r.queue[0] < |r.rows| && IsBound(r.rows, r.queue[0]) && AtFrontier(r, Covered(ve), r.queue[0])
    requires Covered(after) == r.queue[0] + 1
    ensures CommentsPart(C.OnPostEvent(db, r.rows[r.queue[0]].event), Pipeline.Next(r, Label.Handle), id, after,
                         commentEvents)
  {
    var y, f := r.queue[0], Covered(ve);
    CommentsStayKnown(db, r.rows[y].event);
    MineHandled(db.known, r, f, id);
    OthersHandled(db.known, r.rows, f, y, PostOf(r.rows[id].event));
    assert Events(r.rows)[y] == r.rows[y].event;
    HandledCounts(db, Events(r.rows), f, y, commentEvents);
    hide Mine, Others, CountsInv, C.CommentsKnown, C.Project, OnLate, AtFrontier, Routed;
  }

  lemma LateHandleKeepsComments(db: C.CommentDb, r: Pipe<P.PostEvent>, id: nat, ve: seq<nat>,
                                commentEvents: seq<C.CommentEvent>)
    requires LatePart(r, id, ve) && CommentsPart(db, r, id, ve, commentEvents)
    requires Pipeline.Enabled(r, Label.Handle) && OnLate(r, id, Label.Handle)
    ensures CommentsPart(C.OnPostEvent(db, r.rows[id].event), Pipeline.Next(r, Label.Handle), id, ve, commentEvents)
  {
    var e := r.rows[id].event;
    LateFrontier(r, id, ve);
    assert C.BoundToComments(e) by {
      assert IsBound(r.rows, id);
    }
    hide LatePipe;
    CommentsStayKnown(db, e);
    LateOthers(db.known, SeenUpTo(r.rows, ve), e);
    ProjectAt(db.known, e, PostOf(e));
    assert SeenUpTo(r.rows, ve)[id] == e;
    LateCounts(db, SeenUpTo(r.rows, ve), id, commentEvents);
    hide Others, CountsInv, C.CommentsKnown, C.Project, NotOverruled;
  }

  lemma LateHandleStep(fold: AsciiFold, s: Blog, id: nat, ve: seq<nat>)
    requires LateInv(s, id, ve) && BlogSystem.Enabled(s, ToComments(Handle))
    ensures LateInv(BlogSystem.Next(fold, s, ToComments(Handle)), id, VirtualExecs(s.toComments, id, ve, Label.Handle))
  {
    var r := s.toComments;
    assert id < |r.rows|;
    hide LatePart, PostsPart, CommentsPart, C.OnPostEvent;
    LatePartKept(r, id, ve, Label.Handle);
    if OnLate(r, id, Label.Handle) {
      LateHandleKeepsComments(s.comments, r, id, ve, Events(s.toPosts.rows));
    } else {
      HandleKeepsComments(s.comments, r, id, ve, Events(s.toPosts.rows));
    }
  }

  lemma LateOthers(known: Known, seen: seq<P.PostEvent>, e: P.PostEvent)
    requires Others(known, seen, PostOf(e))
    ensures Others(C.Project(known, e), seen, PostOf(e))
  {
    forall q | q != PostOf(e) ensures At(C.Project(known, e), q) == At(KnownAfter(seen), q) {
      ProjectAt(known, e, q);
    }
  }

  /** The event was seen before, so the comments it removes are not counted any more. */
  lemma LateCounts(db: C.CommentDb, seen: seq<P.PostEvent>, id: nat, commentEvents: seq<C.CommentEvent>)
    requires id < |seen| && CountsInv(db.comments, seen, commentEvents)
    ensures CountsInv(C.OnPostEvent(db, seen[id]).comments, seen, commentEvents)
  {
    forall p ensures Deleted(seen, p)
                     || C.CountApproved(C.OnPostEvent(db, seen[id]).comments, p) == LastCount(commentEvents, p)
    {
      PostHandlerCounts(db, seen[id], p);
    }
  }

  // ---------------------------------------------------------------- commands

  lemma LatePartCommitted(r: Pipe<P.PostEvent>, id: nat, ve: seq<nat>, events: seq<P.PostEvent>)
    requires LatePart(r, id, ve)
    ensures LatePart(Committed(r, events, C.BoundToComments), id, ve)
    ensures Events(Committed(r, events, C.BoundToComments).rows) == Events(r.rows) + events
  {
    var t := Committed(r, events, C.BoundToComments);
    hide OrderInv, RelaysInv;
    CommittedRelays(r, events, C.BoundToComments);
    assert Virtual(t, id, ve) == Committed(Virtual(r, id, ve), events, C.BoundToComments);
    CommittedOrder(Virtual(r, id, ve), events, C.BoundToComments);
    CommittedAccounted(r, events);
    hide Accounted;
    assert Events(t.rows) == Events(r.rows) + events;
    assert Routed(t.rows, C.BoundToComments);
  }

  lemma CommittedAccounted(r: Pipe<P.PostEvent>, events: seq<P.PostEvent>)
    requires Accounted(r)
    ensures Accounted(Committed(r, events, C.BoundToComments))
  {}

  /** New rows come after everything that is queued or seen. */
  lemma CommittedKeepsComments(db: C.CommentDb, r: Pipe<P.PostEvent>, id: nat, ve: seq<nat>, events: seq<P.PostEvent>,
                               commentEvents: seq<C.CommentEvent>)
    requires LatePart(r, id, ve) && CommentsPart(db, r, id, ve, commentEvents)
    ensures CommentsPart(db, Committed(r, events, C.BoundToComments), id, ve, commentEvents)
  {
    var t := Committed(r, events, C.BoundToComments);
    LateFrontier(r, id, ve);
    assert Accounted(r);
    hide LatePipe;
    assert Events(t.rows)[..Covered(ve)] == Events(r.rows)[..Covered(ve)];
    assert SeenUpTo(t.rows, ve) == SeenUpTo(r.rows, ve);
    MineCommitted(db.known, r, Covered(ve), id, events);
    hide Mine, Others, CountsInv, C.CommentsKnown, Events;
  }

  lemma MineCommitted(known: Known, r: Pipe<P.PostEvent>, f: nat, id: nat, events: seq<P.PostEvent>)
    requires Accounted(r) && id < f <= |r.rows| && Mine(known, r, f, id)
    ensures Mine(known, Committed(r, events, C.BoundToComments), f, id)
  {
    var t := Committed(r, events, C.BoundToComments);
    var p := PostOf(r.rows[id].event);
    assert Events(t.rows)[..f] == Events(r.rows)[..f];
    assert forall j, q :: j < |r.rows| ==> OfPost(t.rows, j, q) == OfPost(r.rows, j, q);
    forall w: nat | Ahead(r.queue, w, id) ensures w < |r.rows| {
      assert w in r.queue;
    }
  }

  lemma LatePostCommand(fold: AsciiFold, s: Blog, id: nat, ve: seq<nat>, c: P.Command)
    requires LateInv(s, id, ve) && BlogSystem.Enabled(s, PostCommand(c)) && P.Execute(fold, s.posts, c).Ok?
    ensures LateInv(BlogSystem.Next(fold, s, PostCommand(c)), id, ve)
  {
    var out := P.Execute(fold, s.posts, c).value;
    var r := s.toComments;
    LatePartCommitted(r, id, ve, out.events);
    CommittedKeepsComments(s.comments, r, id, ve, out.events, Events(s.toPosts.rows));
    hide LatePart, CommentsPart, Committed, Events, Issued, P.Execute, IdsInv, SyncedInv, PipeInv, Agree, KnownAfter;
    PostsPartCommanded(fold, s.posts, Events(r.rows), s.toPosts, c);
  }

  lemma PostsPartCommanded(fold: AsciiFold, db: P.PostDb, events: seq<P.PostEvent>, toPosts: Pipe<C.CommentEvent>,
                           c: P.Command)
    requires PostsPart(db.posts, events, toPosts) && P.Execute(fold, db, c).Ok?
    requires P.FreshIds(db, c) && (c.CreatePost? ==> c.id !in Issued(events))
    ensures PostsPart(P.Execute(fold, db, c).value.db.posts, events + P.Execute(fold, db, c).value.events, toPosts)
  {
    hide PipeInv, IdsInv, SyncedInv, P.Execute, IdsFollow, KnownAfter, Agree, Issued, Events, Seen;
    var out := P.Execute(fold, db, c).value;
    var created := if c.CreatePost? then Some(c.id) else None;
    CommandIds(fold, db, c);
    CommandKeepsIds(db, out, created, events, Events(toPosts.rows));
    SeenIssuedBy(toPosts, db.posts, events);
    CommandKeepsSynced(db, out, created, Seen(toPosts), Issued(events));
    EventsFollowCommand(fold, db, c, events);
  }

  lemma SeenIssuedBy(toPosts: Pipe<C.CommentEvent>, posts: map<Id, P.PostRow>, events: seq<P.PostEvent>)
    requires IdsInv(posts, events, Events(toPosts.rows))
    ensures forall i :: 0 <= i < |Seen(toPosts)| ==> Seen(toPosts)[i].postId in Issued(events)
  {
    SeenIssued(toPosts, posts, events);
  }

  /** The post of a known comment was created, late message or not. */
  lemma LateKnownIssued(db: C.CommentDb, r: Pipe<P.PostEvent>, id: nat, ve: seq<nat>, posts: map<Id, P.PostRow>,
                        commentEvents: seq<C.CommentEvent>, q: Id)
    requires id < |r.rows| && Others(db.known, SeenUpTo(r.rows, ve), PostOf(r.rows[id].event)) && q in db.known
    requires IdsInv(posts, Events(r.rows), commentEvents)
    ensures q in Issued(Events(r.rows))
  {
    var events := Events(r.rows);
    assert events[id] == r.rows[id].event;
    if q != PostOf(r.rows[id].event) {
      var n := |SeenUpTo(r.rows, ve)|;
      assert SeenUpTo(r.rows, ve) == events[..n];
      assert At(db.known, q) == At(KnownAfter(SeenUpTo(r.rows, ve)), q);
      hide Issued, Events;
      KnownAreIssued(events, n, q);
    }
  }

  lemma LateCommentCommand(fold: AsciiFold, s: Blog, id: nat, ve: seq<nat>, c: C.Command)
    requires LateInv(s, id, ve) && BlogSystem.Enabled(s, CommentCommand(c)) && C.Execute(s.comments, c).Ok?
    ensures LateInv(BlogSystem.Next(fold, s, CommentCommand(c)), id, ve)
  {
    var out := C.Execute(s.comments, c).value;
    var r := s.toComments;
    CommentEventsKnown(s.comments, c);
    C.CommandKeepsCommentsKnown(s.comments, c);
    LateKnownIssued(s.comments, r, id, ve, s.posts.posts, Events(s.toPosts.rows), out.events[0].postId);
    LateCommandCounts(s, ve, c);
    hide LatePart, C.Execute, Mine, Others, CountsInv, C.CommentsKnown, Issued, Events, Committed;
    PostsPartCommented(s.posts.posts, Events(r.rows), s.toPosts, out.events);
    hide PostsPart;
  }

  lemma PostsPartCommented(posts: map<Id, P.PostRow>, events: seq<P.PostEvent>, toPosts: Pipe<C.CommentEvent>,
                           more: seq<C.CommentEvent>)
    requires PostsPart(posts, events, toPosts) && |more| == 1 && more[0].postId in Issued(events)
    ensures PostsPart(posts, events, Committed(toPosts, more, C.BoundToPosts))
    ensures Events(Committed(toPosts, more, C.BoundToPosts).rows) == Events(toPosts.rows) + more
  {
    hide PipeInv, IdsInv, StreamInv, SyncedInv, Issued, Events, Seen, Committed;
    CommittedPipe(toPosts, more, C.BoundToPosts);
    IdsAppend(posts, events, Events(toPosts.rows), more);
  }

  lemma LateCommandCounts(s: Blog, ve: seq<nat>, c: C.Command)
    requires CountsInv(s.comments.comments, SeenUpTo(s.toComments.rows, ve), Events(s.toPosts.rows))
    requires C.Execute(s.comments, c).Ok? && (c.Submit? ==> c.id !in s.comments.comments)
    ensures var out := C.Execute(s.comments, c).value;
            CountsInv(out.db.comments, SeenUpTo(s.toComments.rows, ve), Events(s.toPosts.rows) + out.events)
  {
    var sv := s.(toComments := s.toComments.(execs := ve));
    assert Seen(sv.toComments) == SeenUpTo(s.toComments.rows, ve);
    hide Seen, SeenUpTo, CountsInv, C.SubmitComment, C.ModerateComment;
    match c
    case Submit(id, sub, now) => SubmitKeepsCounts(sv, id, sub, now);
    case Moderate(id, action) => ModerateKeepsCounts(sv, id, action);
  }

  // ---------------------------------------------------------------- steps to post-service

  /** The posts after a step of the pipeline to post-service. */
  function SyncedPosts(db: P.PostDb, toPosts: Pipe<C.CommentEvent>, l: Label<C.CommentEvent>): P.PostDb {
    if l.Handle? && toPosts.queue != [] && toPosts.queue[0] < |toPosts.rows|
    then C.OnCommentEvent(db, toPosts.rows[toPosts.queue[0]].event) else db
  }

  lemma PostsPartToPosts(db: P.PostDb, events: seq<P.PostEvent>, toPosts: Pipe<C.CommentEvent>,
                         l: Label<C.CommentEvent>)
    requires PostsPart(db.posts, events, toPosts) && Pipeline.Enabled(toPosts, l) && Orderly(l) && !l.Commit?
    ensures PostsPart(SyncedPosts(db, toPosts, l).posts, events, Pipeline.Next(toPosts, l))
    ensures Events(Pipeline.Next(toPosts, l).rows) == Events(toPosts.rows)
  {
    hide PipeInv, IdsInv, StreamInv, SyncedInv, Seen, C.OnCommentEvent;
    StepKeepsPipeInv(toPosts, l, C.BoundToPosts);
    if l.Handle? {
      var f, y := HandleMovesFrontier(toPosts, C.BoundToPosts);
      RoutedOf(toPosts);
      SyncedExecution(db, toPosts, f, y);
      SyncKeepsStream(db, toPosts.rows[y].event, events, Events(toPosts.rows));
    }
    hide Pipeline.Next, Events;
  }

  lemma LateToPosts(fold: AsciiFold, s: Blog, id: nat, ve: seq<nat>, l: Label<C.CommentEvent>)
    requires LateInv(s, id, ve) && BlogSystem.Enabled(s, ToPosts(l)) && Orderly(l)
    ensures LateInv(BlogSystem.Next(fold, s, ToPosts(l)), id, ve)
  {
    hide LatePart, CommentsPart, PostsPart, C.OnCommentEvent;
    PostsPartToPosts(s.posts, Events(s.toComments.rows), s.toPosts, l);
    hide Pipeline.Next;
  }

  lemma RoutedOf(s: Pipe<C.CommentEvent>)
    requires PipeInv(s, C.BoundToPosts)
    ensures Routed(s.rows, C.BoundToPosts)
  {}

  // ---------------------------------------------------------------- runs

  lemma LateStep(fold: AsciiFold, s: Blog, id: nat, ve: seq<nat>, m: Move) returns (after: seq<nat>)
    requires LateInv(s, id, ve) && BlogSystem.Enabled(s, m) && OrderlyMove(m)
    ensures LateInv(BlogSystem.Next(fold, s, m), id, after)
  {
    hide LateInv;
    after := ve;
    match m
    case PostCommand(c) =>
      if P.Execute(fold, s.posts, c).Ok? {
        LatePostCommand(fold, s, id, ve, c);
      }
    case CommentCommand(c) =>
      if C.Execute(s.comments, c).Ok? {
        LateCommentCommand(fold, s, id, ve, c);
      }
    case ToComments(l) =>
      if l.Handle? {
        after := VirtualExecs(s.toComments, id, ve, l);
        LateHandleStep(fold, s, id, ve);
      } else {
        LateQuietStep(fold, s, id, ve, l);
      }
    case ToPosts(l) => LateToPosts(fold, s, id, ve, l);
  }

  lemma {:induction false} LateRun(fold: AsciiFold, s: Blog, id: nat, ve: seq<nat>, ms: seq<Move>)
    returns (after: seq<nat>)
    requires LateInv(s, id, ve) && BlogSystem.Run(fold, s, ms).Some? && OrderlyMoves(ms)
    ensures LateInv(BlogSystem.Run(fold, s, ms).value, id, after)
    decreases |ms|
  {
    hide LateInv, BlogSystem.Next, BlogSystem.Enabled;
    if ms == [] {
      after := ve;
    } else {
      var next := LateStep(fold, s, id, ve, ms[0]);
      after := LateRun(fold, BlogSystem.Next(fold, s, ms[0]), id, next, ms[1..]);
    }
  }

  /** Drained, nothing is late any more. */
  lemma LateDrained(s: Blog, id: nat, ve: seq<nat>)
    requires LateInv(s, id, ve) && Drained(s.toComments) && Drained(s.toPosts)
    ensures Converged(s)
  {
    var r := s.toComments;
    var v := Virtual(r, id, ve);
    LateFrontier(r, id, ve);
    VirtualRelays(r, id, ve);
    hide RelaysInv;
    assert id in r.marks;
    assert OrderInv(v) && Drained(v);
    hide OrderInv, Accounted, Drained;
    DrainedFrontier(v);
    KnownCaught(s.comments.known, r, Covered(ve), id);
    LateInvDrained(s, v);
    hide Inv, Converged;
    DrainedConverges(s.(toComments := v));
    assert Converged(s) by {
      SameConverged(s, v);
    }
  }

  lemma SameConverged(s: Blog, v: Pipe<P.PostEvent>)
    requires Converged(s.(toComments := v))
    ensures Converged(s)
  {}

  lemma LateInvDrained(s: Blog, v: Pipe<P.PostEvent>)
    requires RelaysInv(v) && OrderInv(v) && Routed(v.rows, C.BoundToComments) && v.rows == s.toComments.rows
    requires PostsPart(s.posts.posts, Events(v.rows), s.toPosts) && C.CommentsKnown(s.comments)
    requires CountsInv(s.comments.comments, SeenUpTo(v.rows, v.execs), Events(s.toPosts.rows))
    requires s.comments.known == KnownAfter(SeenUpTo(v.rows, v.execs))
    ensures Inv(s.(toComments := v))
  {
    assert Seen(v) == SeenUpTo(v.rows, v.execs);
    hide RelaysInv, OrderInv, Routed, IdsInv, StreamInv, SyncedInv, CountsInv, C.CommentsKnown, Events, KnownAfter;
  }

  lemma KnownCaught(known: Known, r: Pipe<P.PostEvent>, f: nat, id: nat)
    requires id < |r.rows| && f <= |r.rows| && id in r.marks
    requires Mine(known, r, f, id) && Others(known, Events(r.rows)[..f], PostOf(r.rows[id].event))
    requires forall i :: f <= i < |r.rows| ==> !IsBound(r.rows, i)
    ensures known == KnownAfter(Events(r.rows)[..f])
  {
    var seen := KnownAfter(Events(r.rows)[..f]);
    forall q ensures At(known, q) == At(seen, q) {}
    assert forall q :: q in known ==> At(known, q) == At(seen, q);
    assert forall q :: q in seen ==> At(known, q) == At(seen, q);
  }

  // ---------------------------------------------------------------- a harmless return

  /** An unprocessed head is the last executed event again or the next bound one. */
  lemma HeadIsNext(r: Pipe<P.PostEvent>)
    requires OrderInv(r) && r.queue != [] && r.queue[0] !in r.marks
    ensures IsBound(r.rows, r.queue[0]) && Frontier(r) <= |r.rows|
    ensures r.queue[0] + 1 == Frontier(r) || Frontier(r) <= r.queue[0]
    ensures forall j :: Frontier(r) <= j < r.queue[0] ==> !IsBound(r.rows, j)
    ensures forall j :: j < r.queue[0] && IsBound(r.rows, j) ==> j in r.marks
  {
    FrontierInRows(r);
    assert r.queue[0] in r.queue;
    forall j | j < r.queue[0] && IsBound(r.rows, j) ensures j in r.marks {
      assert r.queue[..0] == [];
    }
  }

  /** The pipeline as if its unprocessed head had been handled and marked. */
  lemma HandledEarly(r: Pipe<P.PostEvent>)
    requires OrderInv(r) && r.queue != [] && r.queue[0] !in r.marks
    ensures OrderInv(r.(marks := r.marks + {r.queue[0]}, execs := r.execs + [r.queue[0]]))
  {
    var id := r.queue[0];
    HeadIsNext(r);
    assert r.execs != [] ==> Last(r.execs) <= id;
    StuttersSnoc(r.rows, r.execs, id);
    hide Stutters;
    assert id in r.queue;
  }

  lemma ReturnedLate(r: Pipe<P.PostEvent>, at: nat)
    requires RelaysInv(r) && OrderInv(r) && Routed(r.rows, C.BoundToComments)
    requires at < |r.queue| && r.queue[0] !in r.marks
    ensures LatePart(Returned(r, Requeue(at)), r.queue[0], r.execs + [r.queue[0]])
  {
    var id := r.queue[0];
    var t := Returned(r, Requeue(at));
    var early := r.(marks := r.marks + {id}, execs := r.execs + [id]);
    HandledEarly(r);
    HeadIsNext(r);
    assert Accounted(r);
    hide OrderInv;
    ReturnKeepsOrder(early, at);
    assert Returned(early, Requeue(at)) == Virtual(t, id, r.execs + [id]);
    hide OrderInv;
    AccountedReturn(r, Requeue(at));
    RelaysKept(r, t, t.relays);
    RequeuedQueue(r, at);
    hide RelaysInv, Accounted;
  }

  /** Unless it is overruled, the returned message's post ends right. */
  lemma ReturnedMine(known: Known, r: Pipe<P.PostEvent>, at: nat)
    requires at < |r.queue| && r.queue[0] < |r.rows| && r.queue[0] !in r.marks && IsBound(r.rows, r.queue[0])
    requires !Overruled(r, at)
    ensures Mine(known, Returned(r, Requeue(at)), r.queue[0] + 1, r.queue[0])
  {
    var id, rows := r.queue[0], r.rows;
    var t := Returned(r, Requeue(at));
    var p := PostOf(rows[id].event);
    assert t.rows == rows;
    hide Returned;
    forall w: nat | OfPost(rows, w, p) && (forall j :: w < j ==> !OfPost(rows, j, p))
                    && (w < id + 1 || Ahead(t.queue, w, id))
      ensures Left(rows[w].event) == Left(rows[id].event)
    {
      if w < id + 1 {
        assert OfPost(rows, id, p);
      } else {
        var k := AheadReturned(r, at, w);
      }
    }
  }

  lemma AheadReturned(r: Pipe<P.PostEvent>, at: nat, w: nat) returns (k: nat)
    requires at < |r.queue| && w != r.queue[0] && Ahead(Returned(r, Requeue(at)).queue, w, r.queue[0])
    ensures 0 < k <= at && r.queue[k] == w && r.queue[0] !in r.queue[1..k]
  {
    var id, queue := r.queue[0], Returned(r, Requeue(at)).queue;
    RequeuedQueue(r, at);
    hide Returned;
    var i :| 0 <= i < |queue| && queue[i] == w && id !in queue[..i];
    forall j | 0 <= j < i ensures queue[j] != id {
      assert queue[..i][j] == queue[j];
    }
    k := i + 1;
    assert queue[..i] == queue[..at][..i] == r.queue[1..k];
  }

  lemma LateStart(s: Blog, at: nat)
    requires Inv(s) && at < |s.toComments.queue| && s.toComments.queue[0] !in s.toComments.marks
    requires s.toComments.queue[0] < |s.toComments.rows| && !Overruled(s.toComments, at)
    ensures LateInv(s.(toComments := Returned(s.toComments, Requeue(at))), s.toComments.queue[0],
                    s.toComments.execs + [s.toComments.queue[0]])
  {
    var r := s.toComments;
    hide Overruled, RelaysInv, OrderInv, IdsInv, StreamInv, SyncedInv, CountsInv, ProjectionInv, Seen;
    HeadIsNext(r);
    ReturnedLate(r, at);
    ReturnedComments(s.comments, r, at, Events(s.toPosts.rows));
    hide LatePart, CommentsPart, Events;
    assert Returned(r, Requeue(at)).rows == r.rows;
  }

  lemma ReturnedComments(db: C.CommentDb, r: Pipe<P.PostEvent>, at: nat, commentEvents: seq<C.CommentEvent>)
    requires ProjectionInv(db, Seen(r)) && CountsInv(db.comments, Seen(r), commentEvents) && OrderInv(r)
    requires Routed(r.rows, C.BoundToComments) && at < |r.queue| && r.queue[0] !in r.marks
    requires r.queue[0] < |r.rows| && !Overruled(r, at)
    ensures CommentsPart(db, Returned(r, Requeue(at)), r.queue[0], r.execs + [r.queue[0]], commentEvents)
  {
    var id := r.queue[0];
    hide OrderInv, Overruled, ProjectionInv, CountsInv, Mine, Others, C.CommentsKnown, Events, Seen, OfPost, Routed;
    HeadIsNext(r);
    StartComments(db, r, id, commentEvents);
    ReturnedMine(db.known, r, at);
    ReturnedRows(r, at);
    hide Returned;
    assert Covered(r.execs + [id]) == id + 1;
    assert SeenUpTo(r.rows, r.execs + [id]) == Events(r.rows)[..id + 1];
  }

  lemma ReturnedRows(r: Pipe<P.PostEvent>, at: nat)
    requires at < |r.queue|
    ensures Returned(r, Requeue(at)).rows == r.rows
  {}

  lemma StartComments(db: C.CommentDb, r: Pipe<P.PostEvent>, id: nat, commentEvents: seq<C.CommentEvent>)
    requires ProjectionInv(db, Seen(r)) && CountsInv(db.comments, Seen(r), commentEvents)
    requires Routed(r.rows, C.BoundToComments) && IsBound(r.rows, id) && Frontier(r) <= |r.rows|
    requires (id + 1 == Frontier(r) || Frontier(r) <= id)
    requires forall j :: Frontier(r) <= j < id ==> !IsBound(r.rows, j)
    ensures C.CommentsKnown(db)
    ensures CountsInv(db.comments, Events(r.rows)[..id + 1], commentEvents)
    ensures Others(db.known, Events(r.rows)[..id + 1], PostOf(r.rows[id].event))
  {
    var f := Frontier(r);
    HandledKnown(r.rows, f, id);
    forall q | q != PostOf(r.rows[id].event) ensures At(db.known, q) == At(KnownAfter(Events(r.rows)[..id + 1]), q) {
      ProjectAt(KnownAfter(Events(r.rows)[..f]), r.rows[id].event, q);
    }
    forall q ensures Deleted(Events(r.rows)[..f], q) ==> Deleted(Events(r.rows)[..id + 1], q) {
      DeletedPrefix(Events(r.rows), f, id + 1, q);
    }
  }
}
