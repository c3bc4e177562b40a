/**
 The composed system: post-service and comment-service, each with its database and outbox, joined by
 one delivery pipeline in each direction.
 */
module BlogSystem {
  import opened Wrappers
  import opened Slug
  import opened Pipeline
  import opened PipelineOrder
  import opened PipelineProgress
  import P = PostService
  import C = CommentService

  type Id = string

  /** `toComments` holds post-service's outbox, `toPosts` that of comment-service. */
  datatype Blog = Blog(
    posts: P.PostDb,
    comments: C.CommentDb,
    toComments: Pipe<P.PostEvent>,
    toPosts: Pipe<C.CommentEvent>)

  datatype Move =
    | PostCommand(post: P.Command)
    | CommentCommand(comment: C.Command)
    | ToComments(c: Label<P.PostEvent>)
    | ToPosts(p: Label<C.CommentEvent>)

  function Start(relays: nat): Blog {
    Blog(P.PostDb(map[], map[]), C.CommentDb(map[], map[]), Pipeline.Start(relays), Pipeline.Start(relays))
  }

  /** Posts ever created; ids are fresh UUIDs. */
  function Issued(events: seq<P.PostEvent>): set<Id> {
    set i | 0 <= i < |events| && events[i].PostCreated? :: events[i].payload.postId
  }

  ghost predicate Enabled(s: Blog, m: Move) {
    match m
    case PostCommand(c) =>
      P.FreshIds(s.posts, c) && (c.CreatePost? ==> c.id !in Issued(Events(s.toComments.rows)))
    case CommentCommand(c) => c.Submit? ==> c.id !in s.comments.comments
    case ToComments(l) => !l.Commit? && Pipeline.Enabled(s.toComments, l)
    case ToPosts(l) => !l.Commit? && Pipeline.Enabled(s.toPosts, l)
  }

  /** The rows a transaction adds to the outbox. */
  function NewRows<E>(events: seq<E>, bound: E -> bool): seq<Row<E>> {
    seq(|events|, i requires 0 <= i < |events| => Row(events[i], bound(events[i]), false))
  }

  function Committed<E>(s: Pipe<E>, events: seq<E>, bound: E -> bool): Pipe<E> {
    s.(rows := s.rows + NewRows(events, bound))
  }

  /** One move: a command transaction, or one pipeline step with the handler's transaction. */
  ghost function Next(fold: AsciiFold, s: Blog, m: Move): Blog
    requires Enabled(s, m)
  {
    match m
    case PostCommand(c) =>
      (match P.Execute(fold, s.posts, c)
       case Ok(out) => s.(posts := out.db, toComments := Committed(s.toComments, out.events, C.BoundToComments))
       case Err(_) => s)
    case CommentCommand(c) =>
      (match C.Execute(s.comments, c)
       case Ok(out) => s.(comments := out.db, toPosts := Committed(s.toPosts, out.events, C.BoundToPosts))
       case Err(_) => s)
    case ToComments(l) =>
      s.(toComments := Pipeline.Next(s.toComments, l),
         comments := if l.Handle? && s.toComments.queue[0] < |s.toComments.rows|
                     then C.OnPostEvent(s.comments, s.toComments.rows[s.toComments.queue[0]].event)
                     else s.comments)
    case ToPosts(l) =>
      s.(toPosts := Pipeline.Next(s.toPosts, l),
         posts := if l.Handle? && s.toPosts.queue[0] < |s.toPosts.rows|
                  then C.OnCommentEvent(s.posts, s.toPosts.rows[s.toPosts.queue[0]].event)
                  else s.posts)
  }

  ghost function Run(fold: AsciiFold, s: Blog, ms: seq<Move>): Option<Blog>
    decreases |ms|
  {
    if ms == [] then Some(s)
    else if Enabled(s, ms[0]) then Run(fold, Next(fold, s, ms[0]), ms[1..])
    else None
  }

  /** Redis answers, and a raising handler or a crashed consumer gets its message back first. */
  predicate OrderlyMove(m: Move) {
    (m.ToComments? ==> Orderly(m.c)) && (m.ToPosts? ==> Orderly(m.p))
  }

  predicate OrderlyMoves(ms: seq<Move>) {
    forall k :: 0 <= k < |ms| ==> OrderlyMove(ms[k])
  }

  // ---------------------------------------------------------------- event lists

  function KnownAfter(events: seq<P.PostEvent>): map<Id, C.KnownPost> {
    Fold(C.Project, map[], events)
  }

  /** The count carried by the last comment event for a post, zero without one. */
  function LastCount(events: seq<C.CommentEvent>, p: Id): nat {
    if events == [] then 0
    else
      var e := events[|events| - 1];
      if C.BoundToPosts(e) && e.postId == p then e.count else LastCount(events[..|events| - 1], p)
  }

  ghost predicate Deleted(events: seq<P.PostEvent>, p: Id) {
    exists i :: 0 <= i < |events| && events[i].PostDeleted? && events[i].postId == p
  }

  function PostOf(e: P.PostEvent): Id {
    if e.PostDeleted? then e.postId else e.payload.postId
  }

  function KnownRow(row: P.PostRow): C.KnownPost {
    C.KnownPost(row.slug, row.title, row.published)
  }

  /** Known posts exist with the same slug, title and status; published posts are known. */
  ghost predicate Agree(known: map<Id, C.KnownPost>, posts: map<Id, P.PostRow>) {
    && (forall p :: p in known ==> p in posts && known[p] == KnownRow(posts[p]))
    && (forall p :: p in posts && posts[p].published ==> p in known)
  }

  // ---------------------------------------------------------------- the invariant

  /** The stored routing of each row is that of its event. */
  ghost predicate Routed<E>(rows: seq<Row<E>>, bound: E -> bool) {
    forall i :: 0 <= i < |rows| ==> rows[i].bound == bound(rows[i].event)
  }

  ghost predicate PipeInv<E>(s: Pipe<E>, bound: E -> bool) {
    RelaysInv(s) && OrderInv(s) && Routed(s.rows, bound)
  }

  /** Ids in events and rows come from created posts; stored posts have no deletion event. */
  ghost predicate IdsInv(posts: map<Id, P.PostRow>, events: seq<P.PostEvent>, commentEvents: seq<C.CommentEvent>) {
    && (forall p :: p in posts ==> p in Issued(events) && !Deleted(events, p))
    && (forall i :: 0 <= i < |events| ==> PostOf(events[i]) in Issued(events))
    && (forall i :: 0 <= i < |commentEvents| ==> commentEvents[i].postId in Issued(events))
  }

  /** post-service's event stream describes its database. */
  ghost predicate StreamInv(posts: map<Id, P.PostRow>, events: seq<P.PostEvent>) {
    Agree(KnownAfter(events), posts)
  }

  function Seen<E>(s: Pipe<E>): seq<E> {
    var f := Frontier(s);
    if f <= |s.rows| then Events(s.rows)[..f] else Events(s.rows)
  }

  /** comment-service holds the projection of a prefix of the stream. */
  ghost predicate ProjectionInv(comments: C.CommentDb, seen: seq<P.PostEvent>) {
    comments.known == KnownAfter(seen) && C.CommentsKnown(comments)
  }

  /** Each stored count is the last one consumed. */
  ghost predicate SyncedInv(posts: map<Id, P.PostRow>, seen: seq<C.CommentEvent>) {
    forall p :: p in posts ==> posts[p].commentCount == LastCount(seen, p)
  }

  /** The last count emitted is the approved count, unless the post's deletion was consumed. */
  ghost predicate CountsInv(comments: map<Id, C.CommentRow>, postEvents: seq<P.PostEvent>,
                            commentEvents: seq<C.CommentEvent>) {
    forall p :: Deleted(postEvents, p) || C.CountApproved(comments, p) == LastCount(commentEvents, p)
  }

  ghost predicate Inv(s: Blog) {
    && PipeInv(s.toComments, C.BoundToComments)
    && PipeInv(s.toPosts, C.BoundToPosts)
    && IdsInv(s.posts.posts, Events(s.toComments.rows), Events(s.toPosts.rows))
    && StreamInv(s.posts.posts, Events(s.toComments.rows))
    && ProjectionInv(s.comments, Seen(s.toComments))
    && SyncedInv(s.posts.posts, Seen(s.toPosts))
    && CountsInv(s.comments.comments, Seen(s.toComments), Events(s.toPosts.rows))
  }

  // ---------------------------------------------------------------- list lemmas

  lemma LastCountSnoc(events: seq<C.CommentEvent>, e: C.CommentEvent, p: Id)
    ensures LastCount(events + [e], p) == if C.BoundToPosts(e) && e.postId == p then e.count else LastCount(events, p)
  {
    assert (events + [e])[..|events|] == events;
  }

  lemma {:induction false} LastCountSkip(rows: seq<Row<C.CommentEvent>>, m: nat, n: nat, p: Id)
    requires m <= n <= |rows| && forall j :: m <= j < n ==> !IsBound(rows, j)
    requires Routed(rows, C.BoundToPosts)
    ensures LastCount(Events(rows)[..n], p) == LastCount(Events(rows)[..m], p)
    decreases n
  {
    if m == n {
    } else {
      LastCountSkip(rows, m, n - 1, p);
      assert !IsBound(rows, n - 1);
      assert Events(rows)[..n] == Events(rows)[..n - 1] + [rows[n - 1].event];
      LastCountSnoc(Events(rows)[..n - 1], rows[n - 1].event, p);
    }
  }

  lemma {:induction false} LastCountAbsent(events: seq<C.CommentEvent>, p: Id)
    requires forall i :: 0 <= i < |events| ==> events[i].postId != p
    ensures LastCount(events, p) == 0
    decreases |events|
  {
    if events == [] {
    } else {
      LastCountAbsent(events[..|events| - 1], p);
    }
  }

  lemma {:induction false} KnownAreIssued(events: seq<P.PostEvent>, n: nat, p: Id)
    requires n <= |events| && p in KnownAfter(events[..n])
    requires forall i :: 0 <= i < |events| ==> PostOf(events[i]) in Issued(events)
    ensures p in Issued(events)
    decreases n
  {
    if n == 0 {
    } else {
      FoldLast(C.Project, map[], events, n - 1);
      if p in KnownAfter(events[..n - 1]) {
        KnownAreIssued(events, n - 1, p);
      } else {
        assert p == PostOf(events[n - 1]);
      }
    }
  }

  lemma ProjectIsAbsolute(rows: seq<Row<P.PostEvent>>)
    requires Routed(rows, C.BoundToComments)
    ensures AbsoluteHandler(C.Project, rows)
  {
    forall known: map<Id, C.KnownPost>, e: P.PostEvent ensures Idempotent(C.Project, known, e) {
      assert C.Project(C.Project(known, e), e) == C.Project(known, e);
    }
    forall known: map<Id, C.KnownPost>, i | 0 <= i < |rows| && !rows[i].bound
      ensures Ignores(C.Project, known, rows[i].event)
    {}
  }

  // ---------------------------------------------------------------- commits

  lemma CommittedRelays<E>(s: Pipe<E>, events: seq<E>, bound: E -> bool)
    requires RelaysInv(s)
    ensures RelaysInv(Committed(s, events, bound))
  {
    var t := Committed(s, events, bound);
    forall r | 0 <= r < |t.relays| ensures RelayOk(t, t.relays[r]) {
      assert RelayOk(s, s.relays[r]);
    }
  }

  lemma CommittedOrder<E>(s: Pipe<E>, events: seq<E>, bound: E -> bool)
    requires OrderInv(s)
    ensures OrderInv(Committed(s, events, bound))
    ensures Seen(Committed(s, events, bound)) == Seen(s)
  {
    var t := Committed(s, events, bound);
    assert Accounted(t);
    OrderFrame(s, t);
    FrontierInRows(s);
    assert Events(t.rows)[..Frontier(s)] == Events(s.rows)[..Frontier(s)];
  }

  /** A commit keeps the pipeline's invariant and extends its event list. */
  lemma CommittedPipe<E>(s: Pipe<E>, events: seq<E>, bound: E -> bool)
    requires PipeInv(s, bound)
    ensures PipeInv(Committed(s, events, bound), bound)
    ensures Seen(Committed(s, events, bound)) == Seen(s)
    ensures Events(Committed(s, events, bound).rows) == Events(s.rows) + events
  {
    CommittedRelays(s, events, bound);
    CommittedOrder(s, events, bound);
    hide RelaysInv, OrderInv;
    assert Events(Committed(s, events, bound).rows) == Events(s.rows) + events;
  }

  lemma KnownSnoc(before: seq<P.PostEvent>, e: P.PostEvent)
    ensures KnownAfter(before + [e]) == C.Project(KnownAfter(before), e)
  {
    assert (before + [e])[..|before|] == before;
  }

  lemma AgreeStore(known: map<Id, C.KnownPost>, posts: map<Id, P.PostRow>, id: Id, row: P.PostRow, e: P.PostEvent)
    requires Agree(known, posts)
    requires e.PostUpdated? || e.PostPublished? || e.PostUnpublished?
    requires e.payload == P.PayloadOf(id, row)
    ensures Agree(C.Project(known, e), posts[id := row])
  {}

  lemma AgreeDelete(known: map<Id, C.KnownPost>, posts: map<Id, P.PostRow>, id: Id, e: P.PostEvent)
    requires Agree(known, posts) && e.PostDeleted? && e.postId == id
    ensures Agree(C.Project(known, e), posts - {id})
  {}

  lemma AgreeDraft(known: map<Id, C.KnownPost>, posts: map<Id, P.PostRow>, id: Id, row: P.PostRow)
    requires Agree(known, posts) && id !in posts && !row.published
    ensures Agree(known, posts[id := row])
  {}

  lemma CreateFollows(fold: AsciiFold, db: P.PostDb, id: Id, d: P.Draft, publish: bool, now: P.Time,
                      before: seq<P.PostEvent>)
    requires id !in db.posts && P.Create(fold, db, id, d, publish, now).Ok?
    requires Agree(KnownAfter(before), db.posts)
    ensures var out := P.Create(fold, db, id, d, publish, now).value;
            Agree(KnownAfter(before + out.events), out.db.posts)
  {
    hide Slugify, NormalizedTags, P.ValidText;
    var out := P.Create(fold, db, id, d, publish, now).value;
    var row := out.db.posts[id];
    KnownSnoc(before, out.events[0]);
    if publish {
      KnownSnoc(before + [out.events[0]], out.events[1]);
      assert before + out.events == before + [out.events[0]] + [out.events[1]];
      AgreeStore(KnownAfter(before), db.posts, id, row, out.events[1]);
    } else {
      assert out.events == [out.events[0]];
      AgreeDraft(KnownAfter(before), db.posts, id, row);
    }
  }

  lemma UpdateFollows(fold: AsciiFold, db: P.PostDb, id: Id, d: P.Draft, before: seq<P.PostEvent>)
    requires P.Update(fold, db, id, d).Ok?
    requires Agree(KnownAfter(before), db.posts)
    ensures var out := P.Update(fold, db, id, d).value;
            Agree(KnownAfter(before + out.events), out.db.posts)
  {
    hide Slugify, NormalizedTags, P.ValidText, P.SlugExists, P.Updated, Agree, KnownAfter, C.Project;
    var out := P.Update(fold, db, id, d).value;
    KnownSnoc(before, out.events[0]);
    assert out.events == [out.events[0]];
    AgreeStore(KnownAfter(before), db.posts, id, out.db.posts[id], out.events[0]);
  }

  /** The projection of a command's events follows the command. */
  lemma EventsFollowCommand(fold: AsciiFold, db: P.PostDb, c: P.Command, before: seq<P.PostEvent>)
    requires P.FreshIds(db, c) && P.Execute(fold, db, c).Ok?
    requires Agree(KnownAfter(before), db.posts)
    ensures Agree(KnownAfter(before + P.Execute(fold, db, c).value.events), P.Execute(fold, db, c).value.db.posts)
  {
    hide P.Create, P.Update, P.AddCategory, P.RemoveCategory, Agree, KnownAfter, C.Project;
    var out := P.Execute(fold, db, c).value;
    match c
    case CreatePost(id, d, publish, now) => CreateFollows(fold, db, id, d, publish, now, before);
    case UpdatePost(id, d) => UpdateFollows(fold, db, id, d, before);
    case PublishPost(id, _) =>
      KnownSnoc(before, out.events[0]);
      AgreeStore(KnownAfter(before), db.posts, id, out.db.posts[id], out.events[0]);
    case UnpublishPost(id) =>
      KnownSnoc(before, out.events[0]);
      AgreeStore(KnownAfter(before), db.posts, id, out.db.posts[id], out.events[0]);
    case DeletePost(id) =>
      KnownSnoc(before, out.events[0]);
      AgreeDelete(KnownAfter(before), db.posts, id, out.events[0]);
    case CreateCategory(_, _) =>
      CategoryIds(fold, db, c);
      assert before + out.events == before;
    case DeleteCategory(_) =>
      CategoryIds(fold, db, c);
      assert before + out.events == before;
  }

  /** What a command does to ids, counts and deletions; `created` is the new post, if any. */
  ghost predicate IdsFollow(db: P.PostDb, out: P.Effect, created: Option<Id>) {
    && (forall p :: p in out.db.posts && p in db.posts ==> out.db.posts[p].commentCount == db.posts[p].commentCount)
    && (forall p :: p in out.db.posts && p !in db.posts ==> Some(p) == created && out.db.posts[p].commentCount == 0)
    && (forall k :: 0 <= k < |out.events| ==>
          PostOf(out.events[k]) in db.posts || Some(PostOf(out.events[k])) == created)
    && (forall k :: 0 <= k < |out.events| && out.events[k].PostDeleted? ==>
          out.events[k].postId !in out.db.posts)
    && (created.Some? ==>
          out.events != [] && out.events[0].PostCreated? && out.events[0].payload.postId == created.value)
    && (created.None? ==> forall k :: 0 <= k < |out.events| ==> !out.events[k].PostCreated?)
  }

  lemma StoredIds(db: P.PostDb, out: P.Effect, id: Id, row: P.PostRow, draft: P.PostRow)
    requires id !in db.posts && out.db.posts == db.posts[id := row] && row.commentCount == 0
    requires out.events == [P.PostCreated(P.PayloadOf(id, draft))]
             || out.events == [P.PostCreated(P.PayloadOf(id, draft)), P.PostPublished(P.PayloadOf(id, row))]
    ensures IdsFollow(db, out, Some(id))
  {}

  lemma CreateIds(fold: AsciiFold, db: P.PostDb, id: Id, d: P.Draft, publish: bool, now: P.Time)
    requires id !in db.posts && P.Create(fold, db, id, d, publish, now).Ok?
    ensures IdsFollow(db, P.Create(fold, db, id, d, publish, now).value, Some(id))
  {
    var out := P.Create(fold, db, id, d, publish, now).value;
    StoredIds(db, out, id, out.db.posts[id], P.Created(fold, d));
  }

  lemma UpdateIds(fold: AsciiFold, db: P.PostDb, id: Id, d: P.Draft)
    requires P.Update(fold, db, id, d).Ok?
    ensures IdsFollow(db, P.Update(fold, db, id, d).value, None)
  {
    hide Slugify, NormalizedTags, P.ValidText, P.SlugExists;
  }

  lemma CategoryIds(fold: AsciiFold, db: P.PostDb, c: P.Command)
    requires (c.CreateCategory? || c.DeleteCategory?) && P.Execute(fold, db, c).Ok?
    ensures IdsFollow(db, P.Execute(fold, db, c).value, None)
    ensures P.Execute(fold, db, c).value.db.posts == db.posts && P.Execute(fold, db, c).value.events == []
  {
    assert P.Execute(fold, db, c).value.db.posts == db.posts && P.Execute(fold, db, c).value.events == [];
  }

  lemma CommandIds(fold: AsciiFold, db: P.PostDb, c: P.Command)
    requires P.FreshIds(db, c) && P.Execute(fold, db, c).Ok?
    ensures IdsFollow(db, P.Execute(fold, db, c).value, if c.CreatePost? then Some(c.id) else None)
  {
    hide P.Create, P.Update, IdsFollow;
    match c
    case CreatePost(id, d, publish, now) => CreateIds(fold, db, id, d, publish, now);
    case UpdatePost(id, d) => UpdateIds(fold, db, id, d);
    case CreateCategory(_, _) => CategoryIds(fold, db, c);
    case DeleteCategory(_) => CategoryIds(fold, db, c);
    case _ => StoredPostIds(fold, db, c);
  }

  lemma StoredPostIds(fold: AsciiFold, db: P.PostDb, c: P.Command)
    requires (c.PublishPost? || c.UnpublishPost? || c.DeletePost?) && P.Execute(fold, db, c).Ok?
    ensures IdsFollow(db, P.Execute(fold, db, c).value, None)
  {
    hide P.Create, P.Update, P.AddCategory, P.RemoveCategory;
  }
}
