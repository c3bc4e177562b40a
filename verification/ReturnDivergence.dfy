/**
 The other half: an overruled message leaves its post wrong for good when both services only drain.
 */
module ReturnDivergence {
  import opened Wrappers
  import opened Slug
  import opened Pipeline
  import opened PipelineOrder
  import opened PipelineLimits
  import opened PipelineProgress
  import opened Messaging
  import opened BlogSystem
  import opened Convergence
  import opened ConvergenceLimits
  import opened ConvergenceReturns
  import P = PostService
  import C = CommentService

  // ---------------------------------------------------------------- a post that stays wrong

  /** Every event of the post is marked, and none is being handled. */
  ghost predicate Closed(r: Pipe<P.PostEvent>, p: Id) {
    && (forall j: nat :: OfPost(r.rows, j, p) ==> j in r.marks)
    && (r.queue != [] && (r.phase.Cleared? || r.phase.Executed?) ==> !OfPost(r.rows, r.queue[0], p))
  }

  /** The post is closed and known as row `id` left it. */
  ghost predicate Wrong(s: Blog, id: nat) {
    var r := s.toComments;
    && RelaysInv(r) && Accounted(r) && Routed(r.rows, C.BoundToComments) && IsBound(r.rows, id)
    && Closed(r, PostOf(r.rows[id].event))
    && At(s.comments.known, PostOf(r.rows[id].event)) == Left(r.rows[id].event)
  }

  /** post-service's side, as every reachable state has it. */
  ghost predicate Sound(s: Blog) {
    PostsPart(s.posts.posts, Events(s.toComments.rows), s.toPosts)
  }

  lemma ClosedStep(r: Pipe<P.PostEvent>, p: Id, l: Label<P.PostEvent>)
    requires Closed(r, p) && Pipeline.Enabled(r, l) && Orderly(l) && !l.Commit?
    requires !r.phase.Waiting? ==> r.queue != []
    ensures Closed(Pipeline.Next(r, l), p)
  {
    var t := Pipeline.Next(r, l);
    SameRows(r.rows, t.rows, l, r);
    assert forall j, q :: OfPost(t.rows, j, q) == OfPost(r.rows, j, q);
    if l.Publish? && r.queue != [] {
      assert t.queue[0] == r.queue[0];
    }
  }

  lemma WrongPipeStep(r: Pipe<P.PostEvent>, l: Label<P.PostEvent>)
    requires RelaysInv(r) && Accounted(r) && Routed(r.rows, C.BoundToComments) && Pipeline.Enabled(r, l) && !l.Commit?
    ensures var t := Pipeline.Next(r, l);
            && RelaysInv(t) && Accounted(t) && Routed(t.rows, C.BoundToComments)
            && |t.rows| == |r.rows| && Events(t.rows) == Events(r.rows)
            && forall j :: 0 <= j < |r.rows| ==>
                             t.rows[j].event == r.rows[j].event && t.rows[j].bound == r.rows[j].bound
  {
    RelaysInvStep(r, l);
    AccountedStep(r, l);
    StepKeepsRouted(r, l);
    SameRows(r.rows, Pipeline.Next(r, l).rows, l, r);
    hide RelaysInv, Accounted, Routed;
  }

  lemma WrongStep(fold: AsciiFold, s: Blog, id: nat, l: Label<P.PostEvent>)
    requires Wrong(s, id) && BlogSystem.Enabled(s, ToComments(l)) && Orderly(l)
    ensures Wrong(BlogSystem.Next(fold, s, ToComments(l)), id)
    ensures Events(BlogSystem.Next(fold, s, ToComments(l)).toComments.rows) == Events(s.toComments.rows)
  {
    var r := s.toComments;
    var p := PostOf(r.rows[id].event);
    assert !r.phase.Waiting? ==> r.queue != [];
    if l.Handle? && r.queue[0] < |r.rows| {
      HandledElsewhere(r, p);
      ProjectAt(s.comments.known, r.rows[r.queue[0]].event, p);
    }
    hide RelaysInv, Accounted, Routed;
    WrongPipeStep(r, l);
    ClosedStep(r, p, l);
    hide Closed, Pipeline.Next, C.Project, Events;
  }

  lemma HandledElsewhere(r: Pipe<P.PostEvent>, p: Id)
    requires Accounted(r) && Closed(r, p) && r.phase.Cleared? && r.queue != [] && r.queue[0] < |r.rows|
    ensures PostOf(r.rows[r.queue[0]].event) != p
  {
    assert r.queue[0] in r.queue;
  }

  // ---------------------------------------------------------------- draining

  lemma {:induction false} DrainComments(fold: AsciiFold, s: Blog, id: nat, ls: seq<Label<P.PostEvent>>)
    returns (ms: seq<Move>)
    requires Wrong(s, id) && ProgressRun(s.toComments, ls) && OrderlyRun(ls) && Pipeline.Run(s.toComments, ls).Some?
    ensures OrderlyMoves(ms) && BlogSystem.Run(fold, s, ms).Some?
    ensures var t := BlogSystem.Run(fold, s, ms).value;
            && Wrong(t, id) && t.posts == s.posts && t.toPosts == s.toPosts
            && t.toComments == Pipeline.Run(s.toComments, ls).value
            && Events(t.toComments.rows) == Events(s.toComments.rows)
    decreases |ls|
  {
    if ls == [] {
      ms := [];
    } else {
      var m := ToComments(ls[0]);
      WrongStep(fold, s, id, ls[0]);
      hide Wrong, Pipeline.Next, Pipeline.Enabled;
      var next := BlogSystem.Next(fold, s, m);
      var rest := DrainComments(fold, next, id, ls[1..]);
      ms := [m] + rest;
      BlogRunOne(fold, s, m, rest);
    }
  }

  lemma {:induction false} DrainPosts(fold: AsciiFold, s: Blog, ls: seq<Label<C.CommentEvent>>) returns (ms: seq<Move>)
    requires Sound(s) && ProgressRun(s.toPosts, ls) && OrderlyRun(ls) && Pipeline.Run(s.toPosts, ls).Some?
    ensures OrderlyMoves(ms) && BlogSystem.Run(fold, s, ms).Some?
    ensures var t := BlogSystem.Run(fold, s, ms).value;
            && Sound(t) && t.comments == s.comments && t.toComments == s.toComments
            && t.toPosts == Pipeline.Run(s.toPosts, ls).value
    decreases |ls|
  {
    if ls == [] {
      ms := [];
    } else {
      var m := ToPosts(ls[0]);
      PostsPartStep(fold, s, ls[0]);
      hide Sound, Pipeline.Next, Pipeline.Enabled;
      var next := BlogSystem.Next(fold, s, m);
      var rest := DrainPosts(fold, next, ls[1..]);
      ms := [m] + rest;
      BlogRunOne(fold, s, m, rest);
    }
  }

  lemma PostsPartStep(fold: AsciiFold, s: Blog, l: Label<C.CommentEvent>)
    requires Sound(s) && BlogSystem.Enabled(s, ToPosts(l)) && Orderly(l)
    ensures Sound(BlogSystem.Next(fold, s, ToPosts(l)))
  {
    PostsPartToPosts(s.posts, Events(s.toComments.rows), s.toPosts, l);
  }

  // ---------------------------------------------------------------- reaching the wrong state

  /** Processing the head message with nothing failing, as a run of both services. */
  lemma HeadIsConsumed(fold: AsciiFold, s: Blog) returns (ms: seq<Move>)
    requires s.toComments.queue != [] && s.toComments.phase.Waiting? && s.toComments.queue[0] < |s.toComments.rows|
    ensures OrderlyMoves(ms) && BlogSystem.Run(fold, s, ms).Some?
    ensures var t := BlogSystem.Run(fold, s, ms).value;
            t.toComments == Consumed(s.toComments) && t.posts == s.posts && t.toPosts == s.toPosts
  {
    hide Pipeline.Run, BlogSystem.Run;
    var pipe := s.toComments;
    if pipe.queue[0] in pipe.marks {
      SkipRuns(pipe);
      assert pipe.marks + {pipe.queue[0]} == pipe.marks;
      var ls: Labels := [Label.Deliver, CheckProcessed(true)];
      QuietRun(fold, s, ls);
      ms := Moves(ls);
    } else {
      ms := HeadIsHandled(fold, s);
    }
  }

  lemma ConsumedKeeps(r: Pipe<P.PostEvent>)
    requires RelaysInv(r) && Accounted(r) && r.queue != [] && r.phase.Waiting?
    ensures RelaysInv(Consumed(r)) && Accounted(Consumed(r))
  {
    RelaysKept(r, Consumed(r), r.relays);
    assert r.queue == [r.queue[0]] + r.queue[1..];
    assert forall i :: i in Consumed(r).queue ==> i in r.queue;
    assert r.queue[0] in r.queue;
  }

  lemma {:induction false} ManyConsumed(fold: AsciiFold, s: Blog, n: nat) returns (ms: seq<Move>)
    requires RelaysInv(s.toComments) && Accounted(s.toComments) && s.toComments.phase.Waiting?
    requires n <= |s.toComments.queue|
    ensures OrderlyMoves(ms) && BlogSystem.Run(fold, s, ms).Some?
    ensures var t := BlogSystem.Run(fold, s, ms).value;
            && t.posts == s.posts && t.toPosts == s.toPosts
            && RelaysInv(t.toComments) && Accounted(t.toComments) && t.toComments.phase.Waiting?
            && t.toComments.rows == s.toComments.rows && t.toComments.queue == s.toComments.queue[n..]
            && t.toComments.relays == s.toComments.relays
            && forall i :: i in t.toComments.marks <==> i in s.toComments.marks || i in s.toComments.queue[..n]
    decreases n
  {
    hide BlogSystem.Run, RelaysInv;
    if n == 0 {
      ms := [];
      BlogRunNothing(fold, s);
    } else {
      assert s.toComments.queue[0] in s.toComments.queue;
      ConsumedKeeps(s.toComments);
      hide Accounted;
      var first := HeadIsConsumed(fold, s);
      var u := BlogSystem.Run(fold, s, first).value;
      var rest := ManyConsumed(fold, u, n - 1);
      ms := first + rest;
      BlogRunSplits(fold, s, first, rest);
      assert s.toComments.queue[..n] == [s.toComments.queue[0]] + u.toComments.queue[..n - 1];
    }
  }

  function ReturnedBlog(s: Blog, at: nat): Blog
    requires at < |s.toComments.queue|
  {
    s.(toComments := Returned(s.toComments, Requeue(at)))
  }

  lemma {:induction false} FirstIndex(queue: seq<nat>, id: nat) returns (i: nat)
    requires id in queue
    ensures i < |queue| && queue[i] == id && id !in queue[..i]
    decreases |queue|
  {
    if queue[0] == id {
      i := 0;
    } else {
      assert queue == [queue[0]] + queue[1..];
      var j := FirstIndex(queue[1..], id);
      i := j + 1;
      assert queue[..i] == [queue[0]] + queue[1..][..j];
    }
  }

  /** When the first copy of the returned message is reached, its post has no other event to come. */
  lemma ClosedBehind(r: Pipe<P.PostEvent>, q: seq<nat>, k: nat, i: nat, j: nat)
    requires QueuedInOrder(r.rows, r.queue, r.marks) && 0 < k < |r.queue| && r.queue[0] < |r.rows|
    requires forall x :: x < r.queue[0] && IsBound(r.rows, x) ==> x in r.marks
    requires var p := PostOf(r.rows[r.queue[0]].event);
             OfPost(r.rows, j, p) && forall x :: r.queue[k] < x ==> !OfPost(r.rows, x, p)
    requires k <= i < |q| && q[k - 1] == r.queue[k] && q[..k - 1] == r.queue[1..k]
    ensures j in r.marks || j == r.queue[0] || j in q[..i]
  {
    var id := r.queue[0];
    assert j <= r.queue[k] && IsBound(r.rows, j);
    hide OfPost;
    if j == r.queue[k] {
      assert q[..i][k - 1] == j;
    } else if id < j && j !in r.marks {
      assert j in r.queue[..k];
      hide QueuedInOrder;
      assert r.queue[..k] == [id] + r.queue[1..k];
      assert q[..k - 1] == q[..i][..k - 1];
    }
  }

  lemma ReturnedPrefix(r: Pipe<P.PostEvent>, at: nat, k: nat)
    requires 0 < k <= at < |r.queue| && r.queue[0] !in r.queue[1..k] && r.queue[k] != r.queue[0]
    ensures var q := Returned(r, Requeue(at)).queue;
            && |q| == |r.queue| && r.queue[0] in q && q[k - 1] == r.queue[k] && q[..k - 1] == r.queue[1..k]
            && forall i :: 0 <= i < k ==> q[i] != r.queue[0]
  {
    var q := Returned(r, Requeue(at)).queue;
    RequeuedQueue(r, at);
    hide Returned;
    assert q[..k - 1] == q[..at][..k - 1] == r.queue[1..k];
    forall i | 0 <= i < k ensures q[i] != r.queue[0] {
      if i < k - 1 {
        assert q[..k - 1][i] == q[i];
      }
    }
  }

  /** Where the overruled message's first copy stands, and the event that overrules it. */
  lemma OverruledAt(r: Pipe<P.PostEvent>, at: nat) returns (i: nat, z: nat)
    requires OrderInv(r) && at < |r.queue| && r.queue[0] < |r.rows| && Overruled(r, at)
    ensures var id, p := r.queue[0], PostOf(r.rows[r.queue[0]].event);
            && IsBound(r.rows, id)
            && OfPost(r.rows, z, p) && Left(r.rows[z].event) != Left(r.rows[id].event)
            && forall j :: z < j ==> !OfPost(r.rows, j, p)
    ensures var q, id, p := Returned(r, Requeue(at)).queue, r.queue[0], PostOf(r.rows[r.queue[0]].event);
            && i < |q| && q[i] == id && id !in q[..i]
            && forall j: nat :: OfPost(r.rows, j, p) ==> j in r.marks || j == id || j in q[..i]
  {
    var id, p := r.queue[0], PostOf(r.rows[r.queue[0]].event);
    var k :| 0 < k <= at && id !in r.queue[1..k] && OfPost(r.rows, r.queue[k], p)
             && (forall j :: r.queue[k] < j ==> !OfPost(r.rows, j, p))
             && Left(r.rows[r.queue[k]].event) != Left(r.rows[id].event);
    z := r.queue[k];
    ReturnedPrefix(r, at, k);
    i := FirstIndex(Returned(r, Requeue(at)).queue, id);
    HeadIsNext(r);
    assert QueuedInOrder(r.rows, r.queue, r.marks);
    hide OrderInv, Returned, Overruled, QueuedInOrder;
    forall j: nat | OfPost(r.rows, j, p) ensures j in r.marks || j == id || j in Returned(r, Requeue(at)).queue[..i] {
      ClosedBehind(r, Returned(r, Requeue(at)).queue, k, i, j);
    }
  }

  /** The overruled message is handled after the last event of its post. */
  lemma OverruledIsWrong(fold: AsciiFold, s: Blog, at: nat) returns (ms: seq<Move>, z: nat)
    requires Inv(s) && at < |s.toComments.queue| && s.toComments.queue[0] < |s.toComments.rows|
    requires Overruled(s.toComments, at)
    ensures var id, rows := s.toComments.queue[0], s.toComments.rows;
            && OfPost(rows, z, PostOf(rows[id].event)) && Left(rows[z].event) != Left(rows[id].event)
            && forall j :: z < j ==> !OfPost(rows, j, PostOf(rows[id].event))
    ensures OrderlyMoves(ms)
    ensures var t := BlogSystem.Run(fold, ReturnedBlog(s, at), ms);
            && t.Some? && Wrong(t.value, s.toComments.queue[0])
            && t.value.posts == s.posts && t.value.toPosts == s.toPosts
            && t.value.toComments.rows == s.toComments.rows && |t.value.toComments.relays| == |s.toComments.relays|
  {
    var r := s.toComments;
    assert OrderInv(r) && RelaysInv(r) && Accounted(r) && Routed(r.rows, C.BoundToComments);
    hide Inv, BlogSystem.Run, OrderInv, RelaysInv, Accounted, Overruled, OfPost, Left, Wrong;
    var i;
    i, z := OverruledAt(r, at);
    OverruledUnmarked(r, at);
    ReturnedPipe(r, at);
    ms := FirstCopyHandled(fold, ReturnedBlog(s, at), r.queue[0], i);
  }

  /** After the first copy of a message is handled, its post is as the message left it. */
  lemma FirstCopyHandled(fold: AsciiFold, s: Blog, id: nat, i: nat) returns (ms: seq<Move>)
    requires var r := s.toComments;
             && RelaysInv(r) && Accounted(r) && Routed(r.rows, C.BoundToComments) && r.phase.Waiting?
             && i < |r.queue| && r.queue[i] == id && id !in r.queue[..i] && id !in r.marks && IsBound(r.rows, id)
             && forall j: nat :: OfPost(r.rows, j, PostOf(r.rows[id].event)) ==>
                                   j in r.marks || j == id || j in r.queue[..i]
    ensures OrderlyMoves(ms)
    ensures var t := BlogSystem.Run(fold, s, ms);
            && t.Some? && Wrong(t.value, id)
            && t.value.posts == s.posts && t.value.toPosts == s.toPosts
            && t.value.toComments.rows == s.toComments.rows && |t.value.toComments.relays| == |s.toComments.relays|
  {
    hide BlogSystem.Run, RelaysInv, Accounted, Wrong;
    var first := ManyConsumed(fold, s, i);
    var u := BlogSystem.Run(fold, s, first).value;
    var second := HeadIsHandled(fold, u);
    ms := first + second;
    BlogRunSplits(fold, s, first, second);
    HandledIsWrong(u, id);
  }

  lemma OverruledUnmarked(r: Pipe<P.PostEvent>, at: nat)
    requires at < |r.queue| && r.queue[0] < |r.rows| && Overruled(r, at)
    ensures r.queue[0] !in r.marks
  {}

  lemma ReturnedPipe(r: Pipe<P.PostEvent>, at: nat)
    requires RelaysInv(r) && Accounted(r) && at < |r.queue|
    ensures var t := Returned(r, Requeue(at));
            && RelaysInv(t) && Accounted(t) && t.phase.Waiting?
            && t.rows == r.rows && t.marks == r.marks && t.relays == r.relays
  {
    AccountedReturn(r, Requeue(at));
    RelaysKept(r, Returned(r, Requeue(at)), r.relays);
  }

  lemma HandledIsWrong(u: Blog, id: nat)
    requires RelaysInv(u.toComments) && Accounted(u.toComments) && Routed(u.toComments.rows, C.BoundToComments)
    requires u.toComments.phase.Waiting? && u.toComments.queue != [] && u.toComments.queue[0] == id
    requires IsBound(u.toComments.rows, id) && id !in u.toComments.marks
    requires forall j: nat :: OfPost(u.toComments.rows, j, PostOf(u.toComments.rows[id].event)) ==>
                                j in u.toComments.marks || j == id
    ensures Wrong(u.(toComments := Handled(u.toComments, true),
                     comments := C.OnPostEvent(u.comments, u.toComments.rows[id].event)), id)
  {
    var r := u.toComments;
    ConsumedKeeps(r);
    assert Handled(r, true) == Consumed(r);
    ProjectAt(u.comments.known, r.rows[id].event, PostOf(r.rows[id].event));
    hide RelaysInv, Accounted, Routed, C.Project;
  }

  // ---------------------------------------------------------------- the exact condition

  /** A post known as an earlier event left it disagrees with post-service. */
  lemma WrongDiverges(s: Blog, id: nat, z: nat)
    requires Wrong(s, id) && Sound(s)
    requires var rows := s.toComments.rows; var p := PostOf(rows[id].event);
             && OfPost(rows, z, p) && (forall j :: z < j ==> !OfPost(rows, j, p))
             && Left(rows[z].event) != Left(rows[id].event)
    ensures !Converged(s)
  {
    var rows := s.toComments.rows;
    var p, events := PostOf(rows[id].event), Events(rows);
    KnownAt(rows, |rows|, z, p);
    assert events[..|rows|] == events && events[z] == rows[z].event && events[id] == rows[id].event;
    hide RelaysInv, Accounted, PipeInv, SyncedInv, Closed, Events;
    assert Agree(KnownAfter(events), s.posts.posts);
    assert p in s.posts.posts ==> !Deleted(events, p);
    assert Left(rows[z].event).None? || Left(rows[id].event).None? ==> Deleted(events, p);
    hide IdsInv, StreamInv, KnownAfter, Deleted, Wrong, Sound, OfPost, C.CountApproved, C.AcceptsComments;
  }

  /** In every continuation that drains both pipelines the two services agree. */
  ghost predicate AlwaysConverges(fold: AsciiFold, s: Blog) {
    forall ms :: OrderlyMoves(ms) && BlogSystem.Run(fold, s, ms).Some?
                 && Drained(BlogSystem.Run(fold, s, ms).value.toComments)
                 && Drained(BlogSystem.Run(fold, s, ms).value.toPosts)
      ==> Converged(BlogSystem.Run(fold, s, ms).value)
  }

  lemma WrongDrains(fold: AsciiFold, s: Blog, id: nat, z: nat) returns (ms: seq<Move>)
    requires Wrong(s, id) && Sound(s) && s.toComments.relays != [] && s.toPosts.relays != []
    requires var rows := s.toComments.rows; var p := PostOf(rows[id].event);
             && OfPost(rows, z, p) && (forall j :: z < j ==> !OfPost(rows, j, p))
             && Left(rows[z].event) != Left(rows[id].event)
    ensures OrderlyMoves(ms) && BlogSystem.Run(fold, s, ms).Some?
    ensures var t := BlogSystem.Run(fold, s, ms).value;
            Drained(t.toComments) && Drained(t.toPosts) && !Converged(t)
  {
    hide BlogSystem.Run, RelaysInv, Accounted, Closed, PostsPart, Pipeline.Run;
    var ls := Drain(s.toComments);
    var first := DrainComments(fold, s, id, ls);
    var t := BlogSystem.Run(fold, s, first).value;
    SoundPipe(s);
    var ks := Drain(s.toPosts);
    SameSound(s, t);
    hide Wrong, Sound;
    var second := DrainPosts(fold, t, ks);
    var u := BlogSystem.Run(fold, t, second).value;
    ms := first + second;
    BlogRunSplits(fold, s, first, second);
    SameRowsOfPost(s.toComments.rows, t.toComments.rows);
    WrongDiverges(u, id, z);
  }

  lemma SoundPipe(s: Blog)
    requires Sound(s)
    ensures RelaysInv(s.toPosts) && Accounted(s.toPosts)
  {}

  lemma SameSound(s: Blog, t: Blog)
    requires Sound(s) && t.posts == s.posts && t.toPosts == s.toPosts
    requires Events(t.toComments.rows) == Events(s.toComments.rows)
    ensures Sound(t)
  {}

  lemma SameRowsOfPost(rows: Rows, after: Rows)
    requires Events(after) == Events(rows) && Routed(rows, C.BoundToComments) && Routed(after, C.BoundToComments)
    ensures |after| == |rows| && forall j :: 0 <= j < |rows| ==> after[j].event == rows[j].event
    ensures forall j, p :: OfPost(after, j, p) == OfPost(rows, j, p)
  {
    assert |Events(after)| == |after| && |Events(rows)| == |rows|;
    forall j | 0 <= j < |rows| ensures after[j].event == rows[j].event {
      assert Events(after)[j] == Events(rows)[j];
    }
  }

  lemma OverruledDiverges(fold: AsciiFold, s: Blog, at: nat)
    requires Inv(s) && s.toComments.relays != [] && s.toPosts.relays != []
    requires at < |s.toComments.queue| && s.toComments.queue[0] < |s.toComments.rows| && Overruled(s.toComments, at)
    ensures !AlwaysConverges(fold, ReturnedBlog(s, at))
  {
    hide BlogSystem.Run;
    var first, z := OverruledIsWrong(fold, s, at);
    var t := BlogSystem.Run(fold, ReturnedBlog(s, at), first).value;
    assert Sound(t) by {
      InvIsSound(s, t);
    }
    hide Inv, Overruled, Wrong, Sound, Drained, Converged;
    var second := WrongDrains(fold, t, s.toComments.queue[0], z);
    BlogRunSplits(fold, ReturnedBlog(s, at), first, second);
    assert OrderlyMoves(first + second);
  }

  lemma InvIsSound(s: Blog, t: Blog)
    requires Inv(s) && t.posts == s.posts && t.toPosts == s.toPosts && t.toComments.rows == s.toComments.rows
    ensures Sound(t)
  {
    hide PipeInv, IdsInv, StreamInv, SyncedInv, ProjectionInv, CountsInv;
  }

  /** A marked message can be returned anywhere. */
  lemma MarkedReturnKeepsInv(s: Blog, at: nat)
    requires Inv(s) && at < |s.toComments.queue| && s.toComments.queue[0] in s.toComments.marks
    ensures Inv(ReturnedBlog(s, at))
  {
    var r := s.toComments;
    ReturnKeepsOrder(r, at);
    RelaysKept(r, Returned(r, Requeue(at)), r.relays);
    hide RelaysInv, OrderInv, IdsInv, StreamInv, SyncedInv, ProjectionInv, CountsInv;
    assert Seen(Returned(r, Requeue(at))) == Seen(r);
  }

  lemma InvAlwaysConverges(fold: AsciiFold, s: Blog)
    requires Inv(s)
    ensures AlwaysConverges(fold, s)
  {
    hide Inv, Drained, Converged, BlogSystem.Run;
    forall ms | OrderlyMoves(ms) && BlogSystem.Run(fold, s, ms).Some?
                && Drained(BlogSystem.Run(fold, s, ms).value.toComments)
                && Drained(BlogSystem.Run(fold, s, ms).value.toPosts)
      ensures Converged(BlogSystem.Run(fold, s, ms).value)
    {
      InvRun(fold, s, ms);
      DrainedConverges(BlogSystem.Run(fold, s, ms).value);
    }
  }

  lemma LateAlwaysConverges(fold: AsciiFold, s: Blog, id: nat, ve: seq<nat>)
    requires LateInv(s, id, ve)
    ensures AlwaysConverges(fold, s)
  {
    hide LateInv, Drained, Converged, BlogSystem.Run;
    forall ms | OrderlyMoves(ms) && BlogSystem.Run(fold, s, ms).Some?
                && Drained(BlogSystem.Run(fold, s, ms).value.toComments)
                && Drained(BlogSystem.Run(fold, s, ms).value.toPosts)
      ensures Converged(BlogSystem.Run(fold, s, ms).value)
    {
      var after := LateRun(fold, s, id, ve, ms);
      LateDrained(BlogSystem.Run(fold, s, ms).value, id, after);
    }
  }

  /** In every reachable state, returning the message at the head of comment-service's queue keeps the two
      services converging if and only if it is processed, or its post's last event does not overtake it,
      or both leave the same of the post. */
  lemma ReturnConvergesIff(fold: AsciiFold, relays: nat, s: Blog, at: nat)
    requires 0 < relays && Reachable(fold, relays, s) && at < |s.toComments.queue|
    ensures s.toComments.queue[0] < |s.toComments.rows|
    ensures AlwaysConverges(fold, ReturnedBlog(s, at)) <==> !Overruled(s.toComments, at)
  {
    ReachableInv(fold, relays, s);
    HeadInRows(s);
    hide Reachable, Inv, AlwaysConverges;
    if Overruled(s.toComments, at) {
      OverruledDiverges(fold, s, at);
    } else if s.toComments.queue[0] in s.toComments.marks {
      MarkedReturnKeepsInv(s, at);
      InvAlwaysConverges(fold, ReturnedBlog(s, at));
    } else {
      LateStart(s, at);
      LateAlwaysConverges(fold, ReturnedBlog(s, at), s.toComments.queue[0],
                          s.toComments.execs + [s.toComments.queue[0]]);
    }
  }

  lemma HeadInRows(s: Blog)
    requires Inv(s) && s.toComments.queue != []
    ensures s.toComments.queue[0] < |s.toComments.rows|
  {
    assert s.toComments.queue[0] in s.toComments.queue;
  }
}
