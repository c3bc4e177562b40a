/**
 comment-service: comments, moderation and the KnownPost projection fed by post-service events,
 specified on database values.
 */
module CommentService {
  import opened Wrappers
  import opened Text
  import PostService

  type Id = string
  type Time = int
  type PostEvent = PostService.PostEvent

  datatype Status = Pending | Approved | Rejected

  datatype CommentRow = CommentRow(postId: Id, author: string, content: string, email: Option<string>, status: Status,
                                   createdAt: Time)

  datatype KnownPost = KnownPost(slug: string, title: string, published: bool)

  datatype CommentDb = CommentDb(known: map<Id, KnownPost>, comments: map<Id, CommentRow>)

  datatype CommentEvent =
    | CommentCreated(commentId: Id, postId: Id, author: string)
    | CommentApproved(commentId: Id, postId: Id, count: nat)
    | CommentRejected(commentId: Id, postId: Id, count: nat)
    | CommentDeleted(commentId: Id, postId: Id, count: nat)

  datatype CommentError =
    | Honeypot | RateLimited | PostNotFound | InvalidComment | CommentMissing | AlreadyApproved | AlreadyRejected

  datatype Effect = Effect(db: CommentDb, events: seq<CommentEvent>)

  /** `emailOk` is the verdict of the e-mail pattern, `limited` that of the rate limiter. */
  datatype Submission = Submission(
    postId: Id, author: string, content: string, email: Option<string>, emailOk: bool, honeypot: bool, limited: bool)

  datatype Action = Approve | Reject | Remove

  datatype Command = Submit(id: Id, s: Submission, now: Time) | Moderate(id: Id, action: Action)

  // ---------------------------------------------------------------- commands

  function NonEmpty(o: Option<string>): Option<string> {
    if o == Some([]) then None else o
  }

  predicate ValidSubmission(s: Submission) {
    && 2 <= |Trim(s.author)| <= 60
    && 3 <= |Trim(s.content)| <= 2000
    && (NonEmpty(s.email).Some? ==> s.emailOk)
  }

  predicate AcceptsComments(db: CommentDb, postId: Id) {
    postId in db.known && db.known[postId].published
  }

  function Submitted(s: Submission, now: Time): CommentRow {
    CommentRow(s.postId, Trim(s.author), Trim(s.content), NonEmpty(s.email), Pending, now)
  }

  function SubmitComment(db: CommentDb, id: Id, s: Submission, now: Time): Result<Effect, CommentError> {
    if s.honeypot then Err(Honeypot)
    else if s.limited then Err(RateLimited)
    else if !AcceptsComments(db, s.postId) then Err(PostNotFound)
    else if !ValidSubmission(s) then Err(InvalidComment)
    else Ok(Effect(db.(comments := db.comments[id := Submitted(s, now)]),
                   [CommentCreated(id, s.postId, Trim(s.author))]))
  }

  predicate ApprovedFor(c: CommentRow, postId: Id) {
    c.postId == postId && c.status.Approved?
  }

  function ApprovedIds(comments: map<Id, CommentRow>, postId: Id): set<Id> {
    set c | c in comments && ApprovedFor(comments[c], postId)
  }

  function CountApproved(comments: map<Id, CommentRow>, postId: Id): nat {
    |ApprovedIds(comments, postId)|
  }

  function Clamped(count: int): nat {
    if count < 0 then 0 else count
  }

  function WithoutThis(count: int, c: CommentRow): nat {
    Clamped(count - if c.status.Approved? then 1 else 0)
  }

  function ModerateComment(db: CommentDb, id: Id, action: Action): Result<Effect, CommentError> {
    if id !in db.comments then Err(CommentMissing)
    else
      var c := db.comments[id];
      var count := CountApproved(db.comments, c.postId);
      match action
      case Approve =>
        if c.status.Approved? then Err(AlreadyApproved)
        else Ok(Effect(db.(comments := db.comments[id := c.(status := Approved)]),
                       [CommentApproved(id, c.postId, Clamped(count + 1))]))
      case Reject =>
        if c.status.Rejected? then Err(AlreadyRejected)
        else Ok(Effect(db.(comments := db.comments[id := c.(status := Rejected)]),
                       [CommentRejected(id, c.postId, WithoutThis(count, c))]))
      case Remove =>
        Ok(Effect(db.(comments := db.comments - {id}), [CommentDeleted(id, c.postId, WithoutThis(count, c))]))
  }

  function Execute(db: CommentDb, c: Command): Result<Effect, CommentError> {
    match c
    case Submit(id, s, now) => SubmitComment(db, id, s, now)
    case Moderate(id, action) => ModerateComment(db, id, action)
  }

  // ---------------------------------------------------------------- consuming post events

  /** The projection alone: upsert or delete; other events are ignored. */
  function Project(known: map<Id, KnownPost>, e: PostEvent): map<Id, KnownPost> {
    match e
    case PostDeleted(p, _) => known - {p}
    case PostCreated(_) => known
    case PostUpdated(p) => known[p.postId := KnownPost(p.slug, p.title, p.published)]
    case PostPublished(p) => known[p.postId := KnownPost(p.slug, p.title, p.published)]
    case PostUnpublished(p) => known[p.postId := KnownPost(p.slug, p.title, p.published)]
  }

  /** The handler: deletion also removes the post's comments, without any event. */
  function OnPostEvent(db: CommentDb, e: PostEvent): CommentDb {
    CommentDb(Project(db.known, e),
              if e.PostDeleted? then map c | c in db.comments && db.comments[c].postId != e.postId :: db.comments[c]
              else db.comments)
  }

  /** The routing keys bound to `comment-service.post-events`. */
  predicate BoundToComments(e: PostEvent) {
    e.PostPublished? || e.PostUpdated? || e.PostUnpublished? || e.PostDeleted?
  }

  /** The routing keys bound to `post-service.comment-events`. */
  predicate BoundToPosts(e: CommentEvent) {
    e.CommentApproved? || e.CommentRejected? || e.CommentDeleted?
  }

  /** What post-service does with a comment event. */
  function OnCommentEvent(db: PostService.PostDb, e: CommentEvent): PostService.PostDb {
    if BoundToPosts(e) then PostService.SyncCommentCount(db, e.postId, e.count) else db
  }

  // ---------------------------------------------------------------- counts

  /** Changing one comment changes the count by its own contribution only. */
  lemma CountAfterStore(comments: map<Id, CommentRow>, id: Id, row: CommentRow, p: Id)
    ensures CountApproved(comments[id := row], p)
            == CountApproved(comments, p)
               - (if id in comments && ApprovedFor(comments[id], p) then 1 else 0)
               + (if ApprovedFor(row, p) then 1 else 0)
  {
    var before, after := ApprovedIds(comments, p), ApprovedIds(comments[id := row], p);
    assert after - {id} == before - {id};
    assert id in before <==> id in comments && ApprovedFor(comments[id], p);
    assert id in after <==> ApprovedFor(row, p);
    hide ApprovedIds;
    OneLess(before, id);
    OneLess(after, id);
  }

  lemma OneLess(s: set<Id>, id: Id)
    ensures |s - {id}| == |s| - if id in s then 1 else 0
  {
    if id in s {
      assert s == (s - {id}) + {id};
    } else {
      assert s == s - {id};
    }
  }

  lemma CountAfterRemove(comments: map<Id, CommentRow>, id: Id, p: Id)
    requires id in comments
    ensures CountApproved(comments - {id}, p)
            == CountApproved(comments, p) - (if ApprovedFor(comments[id], p) then 1 else 0)
  {
    assert ApprovedIds(comments - {id}, p) == ApprovedIds(comments, p) - {id};
  }

  lemma CountIsPositive(comments: map<Id, CommentRow>, id: Id)
    requires id in comments && comments[id].status.Approved?
    ensures 0 < CountApproved(comments, comments[id].postId)
  {
    assert id in ApprovedIds(comments, comments[id].postId);
  }

  /** The counts after a moderation, per post. */
  lemma ModeratedCount(db: CommentDb, id: Id, action: Action, p: Id)
    requires ModerateComment(db, id, action).Ok?
    ensures id in db.comments
    ensures CountApproved(ModerateComment(db, id, action).value.db.comments, p)
            == CountApproved(db.comments, p)
               - (if ApprovedFor(db.comments[id], p) then 1 else 0)
               + (if action.Approve? && db.comments[id].postId == p then 1 else 0)
  {
    var c := db.comments[id];
    match action
    case Approve => CountAfterStore(db.comments, id, c.(status := Approved), p);
    case Reject => CountAfterStore(db.comments, id, c.(status := Rejected), p);
    case Remove => CountAfterRemove(db.comments, id, p);
  }

  /** Each moderation emits one event whose count is the approved count after the commit, for the
      comment's post; the counts of all other posts stay as they were. The clamp never bites. */
  lemma EmittedCountIsExact(db: CommentDb, id: Id, action: Action)
    requires ModerateComment(db, id, action).Ok?
    ensures var out := ModerateComment(db, id, action).value;
            && |out.events| == 1 && BoundToPosts(out.events[0])
            && id in db.comments && out.events[0].postId == db.comments[id].postId
            && out.events[0].count == CountApproved(out.db.comments, db.comments[id].postId)
    ensures forall p :: p != db.comments[id].postId ==>
              CountApproved(ModerateComment(db, id, action).value.db.comments, p) == CountApproved(db.comments, p)
    ensures db.comments[id].status.Approved? ==> 1 <= CountApproved(db.comments, db.comments[id].postId)
  {
    var c := db.comments[id];
    if c.status.Approved? {
      CountIsPositive(db.comments, id);
    }
    ModeratedCount(db, id, action, c.postId);
    forall p | p != c.postId
      ensures CountApproved(ModerateComment(db, id, action).value.db.comments, p) == CountApproved(db.comments, p)
    {
      ModeratedCount(db, id, action, p);
    }
  }

  /** Repeating a moderation is refused; rejecting an approved comment takes its approval back. */
  lemma RepeatedModerationIsRefused(db: CommentDb, id: Id, action: Action)
    requires ModerateComment(db, id, action).Ok?
    ensures var after := ModerateComment(db, id, action).value.db;
            ModerateComment(after, id, action)
            == Err(match action
                   case Approve => AlreadyApproved
                   case Reject => AlreadyRejected
                   case Remove => CommentMissing)
    ensures action.Approve? ==>
              var undone := ModerateComment(ModerateComment(db, id, action).value.db, id, Reject);
              undone.Ok? && undone.value.events[0].count == CountApproved(db.comments, db.comments[id].postId)
  {
    if action.Approve? {
      EmittedCountIsExact(ModerateComment(db, id, action).value.db, id, Reject);
      ModeratedCount(db, id, action, db.comments[id].postId);
      ModeratedCount(ModerateComment(db, id, action).value.db, id, Reject, db.comments[id].postId);
    }
  }

  // ---------------------------------------------------------------- cached views

  /** The approved comments of a post, as the public query returns them. */
  function ApprovedView(db: CommentDb, postId: Id): map<Id, CommentRow> {
    map c | c in db.comments && ApprovedFor(db.comments[c], postId) :: db.comments[c]
  }

  /** A submission is pending, so it changes no cached approved view and need not invalidate one. */
  lemma SubmitKeepsViews(db: CommentDb, id: Id, s: Submission, now: Time, postId: Id)
    requires id !in db.comments && SubmitComment(db, id, s, now).Ok?
    ensures ApprovedView(SubmitComment(db, id, s, now).value.db, postId) == ApprovedView(db, postId)
    ensures ApprovedView(db, postId).Keys == ApprovedIds(db.comments, postId)
    ensures CountApproved(SubmitComment(db, id, s, now).value.db.comments, postId) == CountApproved(db.comments, postId)
  {
    CountAfterStore(db.comments, id, Submitted(s, now), postId);
  }

  /** The bindings match the handlers: a queue is bound to exactly the events that can change the
      receiving service's database, and the others change nothing. */
  lemma BindingsAreExact(e: PostEvent, c: CommentEvent)
    ensures BoundToComments(e) <==> exists db :: OnPostEvent(db, e) != db
    ensures BoundToPosts(c) <==> exists db :: OnCommentEvent(db, c) != db
  {
    if e.PostDeleted? {
      var db := CommentDb(map[e.postId := KnownPost("", "", true)], map[]);
      assert e.postId in db.known && e.postId !in OnPostEvent(db, e).known;
    } else if !e.PostCreated? {
      assert e.payload.postId in OnPostEvent(CommentDb(map[], map[]), e).known;
    } else {
      forall db ensures OnPostEvent(db, e) == db {}
    }
    if BoundToPosts(c) {
      var row := PostService.PostRow("", "", "", "", false, None, [], c.count + 1, None);
      var db := PostService.PostDb(map[c.postId := row], map[]);
      assert OnCommentEvent(db, c).posts[c.postId].commentCount == c.count;
    }
  }

  // ---------------------------------------------------------------- comments belong to known posts

  ghost predicate CommentsKnown(db: CommentDb) {
    forall c :: c in db.comments ==> db.comments[c].postId in db.known
  }

  lemma CommandKeepsCommentsKnown(db: CommentDb, c: Command)
    requires CommentsKnown(db) && Execute(db, c).Ok?
    ensures CommentsKnown(Execute(db, c).value.db)
  {}

  datatype Step = Run(command: Command) | Consume(event: PostEvent)

  function Applied(db: CommentDb, step: Step): CommentDb {
    match step
    case Run(c) => (match Execute(db, c) case Ok(out) => out.db case Err(_) => db)
    case Consume(e) => OnPostEvent(db, e)
  }

  function History(db: CommentDb, steps: seq<Step>): CommentDb
    decreases |steps|
  {
    if steps == [] then db else History(Applied(db, steps[0]), steps[1..])
  }

  /** Every comment's post is known, whatever post events arrive and in whatever order. */
  lemma {:induction false} HistoryKeepsCommentsKnown(db: CommentDb, steps: seq<Step>)
    requires CommentsKnown(db)
    ensures CommentsKnown(History(db, steps))
    decreases |steps|
  {
    if steps == [] {
    } else {
      if steps[0].Run? && Execute(db, steps[0].command).Ok? {
        CommandKeepsCommentsKnown(db, steps[0].command);
      }
      HistoryKeepsCommentsKnown(Applied(db, steps[0]), steps[1..]);
    }
  }

  // ---------------------------------------------------------------- stored comments are valid

  ghost predicate CommentsValid(db: CommentDb) {
    forall c :: c in db.comments ==>
      && 2 <= |db.comments[c].author| <= 60 && 3 <= |db.comments[c].content| <= 2000
      && db.comments[c].email != Some([])
  }

  /** Over every history stored names and texts stay within their limits. */
  lemma {:induction false} HistoryKeepsCommentsValid(db: CommentDb, steps: seq<Step>)
    requires CommentsValid(db)
    ensures CommentsValid(History(db, steps))
    decreases |steps|
  {
    if steps == [] {
    } else {
      StepKeepsCommentsValid(db, steps[0]);
      HistoryKeepsCommentsValid(Applied(db, steps[0]), steps[1..]);
    }
  }

  lemma StepKeepsCommentsValid(db: CommentDb, step: Step)
    requires CommentsValid(db)
    ensures CommentsValid(Applied(db, step))
  {
    hide CountApproved, Trim;
  }

  /** No step but a submission under its own id changes anything of a comment except its status. */
  lemma StepKeepsText(db: CommentDb, step: Step, id: Id)
    requires step.Run? && step.command.Submit? ==> step.command.id != id
    ensures id in Applied(db, step).comments ==>
              && id in db.comments
              && Applied(db, step).comments[id].(status := Pending) == db.comments[id].(status := Pending)
    ensures id in db.comments && id !in Applied(db, step).comments ==>
              || step == Run(Moderate(id, Remove))
              || (step.Consume? && step.event.PostDeleted? && step.event.postId == db.comments[id].postId)
  {
    hide CountApproved, Trim;
  }
}
