/** comment-service as it runs: the Comment aggregate, the command handler and the post-event
    handler, proved against CommentService. */
module CommentHandlers {
  import opened Wrappers
  import opened Text
  import opened CommentService

  /** The aggregate, with the events it has recorded since it was loaded. */
  class Comment {
    const id: Id
    const postId: Id
    const author: string
    const content: string
    const email: Option<string>
    const createdAt: Time
    var status: Status
    var events: seq<CommentEvent>

    function Row(): CommentRow
      reads this
    {
      CommentRow(postId, author, content, email, status, createdAt)
    }

    constructor Load(id: Id, row: CommentRow)
      ensures this.id == id && Row() == row && events == []
    {
      this.id, postId, author, content := id, row.postId, row.author, row.content;
      email, createdAt, status, events := row.email, row.createdAt, row.status, [];
    }

    static method Submit(id: Id, s: Submission, now: Time) returns (comment: Comment?)
      ensures comment != null <==> ValidSubmission(s)
      ensures comment != null ==> fresh(comment) && comment.id == id && comment.Row() == Submitted(s, now)
      ensures comment != null ==> comment.events == [CommentCreated(id, s.postId, Trim(s.author))]
    {
      var name, text := Trim(s.author), Trim(s.content);
      if !(2 <= |name| <= 60) || !(3 <= |text| <= 2000) {
        return null;
      }
      var email := NonEmpty(s.email);
      if email.Some? && !s.emailOk {
        return null;
      }
      comment := new Comment.Load(id, CommentRow(s.postId, name, text, email, Pending, now));
      comment.Record(CommentCreated(id, s.postId, name));
    }

    method Record(e: CommentEvent)
      modifies this`events
      ensures events == old(events) + [e]
    {
      events := events + [e];
    }

    method Approve(currentCount: nat) returns (changed: bool)
      modifies this
      ensures changed == !old(status).Approved?
      ensures Row() == if changed then old(Row()).(status := Approved) else old(Row())
      ensures events == old(events) + if changed then [CommentApproved(id, postId, Clamped(currentCount + 1))] else []
    {
      changed := !status.Approved?;
      if changed {
        status := Approved;
        Record(CommentApproved(id, postId, Clamped(currentCount + 1)));
      }
    }

    method Reject(currentCount: nat) returns (changed: bool)
      modifies this
      ensures changed == !old(status).Rejected?
      ensures Row() == if changed then old(Row()).(status := Rejected) else old(Row())
      ensures events == old(events) + if changed
                                      then [CommentRejected(id, postId, WithoutThis(currentCount, old(Row())))] else []
    {
      changed := !status.Rejected?;
      if changed {
        var count := WithoutThis(currentCount, Row());
        status := Rejected;
        Record(CommentRejected(id, postId, count));
      }
    }

    method MarkDeleted(currentCount: nat)
      modifies this`events
      ensures events == old(events) + [CommentDeleted(id, postId, WithoutThis(currentCount, Row()))]
    {
      Record(CommentDeleted(id, postId, WithoutThis(currentCount, Row())));
    }
  }

  /** Database, outbox and number of cache bumps. */
  datatype State = State(db: CommentDb, outbox: seq<CommentEvent>, bumps: nat)

  /** A committed command appends its events and bumps the cache as often as it says; a failed one
      changes nothing. */
  function After(s: State, outcome: Result<Effect, CommentError>, bumps: nat): State {
    match outcome
    case Ok(e) => State(e.db, s.outbox + e.events, s.bumps + bumps)
    case Err(_) => s
  }

  predicate Answers(before: State, outcome: Result<Effect, CommentError>, bumps: nat, after: State,
                    r: Result<(), CommentError>) {
    && after == After(before, outcome, bumps)
    && r == (match outcome case Ok(_) => Ok(()) case Err(x) => Err(x))
  }

  class CommentCommandHandler {
    var known: map<Id, KnownPost>
    var comments: map<Id, CommentRow>
    var outbox: seq<CommentEvent>
    var bumps: nat

    function Db(): CommentDb
      reads this
    {
      CommentDb(known, comments)
    }

    function View(): State
      reads this
    {
      State(Db(), outbox, bumps)
    }

    constructor (known: map<Id, KnownPost>, comments: map<Id, CommentRow>)
      ensures View() == State(CommentDb(known, comments), [], 0)
    {
      this.known, this.comments, outbox, bumps := known, comments, [], 0;
    }

    /** A submission awaits moderation, so no cached view is bumped. */
    method Submit(id: Id, s: Submission, now: Time) returns (r: Result<(), CommentError>)
      modifies this
      ensures Answers(old(View()), SubmitComment(old(Db()), id, s, now), 0, View(), r)
      ensures r.Ok? <==> && !s.honeypot && !s.limited && ValidSubmission(s)
                         && s.postId in old(known) && old(known)[s.postId].published
      ensures r.Ok? ==> id in comments && comments[id].status.Pending? && comments[id].postId == s.postId
      ensures known == old(known) && bumps == old(bumps) && (r.Err? ==> View() == old(View()))
    {
      hide ValidSubmission, Trim;
      if s.honeypot {
        return Err(Honeypot);
      }
      if s.limited {
        return Err(RateLimited);
      }
      if s.postId !in known || !known[s.postId].published {
        return Err(PostNotFound);
      }
      var comment := Comment.Submit(id, s, now);
      if comment == null {
        return Err(InvalidComment);
      }
      comments := comments[id := comment.Row()];
      outbox := outbox + comment.events;
      r := Ok(());
    }

    method Moderate(id: Id, action: Action) returns (r: Result<(), CommentError>)
      modifies this
      ensures Answers(old(View()), ModerateComment(old(Db()), id, action), 1, View(), r)
      ensures known == old(known) && bumps == old(bumps) + (if r.Ok? then 1 else 0)
      ensures r.Err? ==> View() == old(View())
    {
      hide CountApproved;
      if id !in comments {
        return Err(CommentMissing);
      }
      var comment := new Comment.Load(id, comments[id]);
      var count := CountApproved(comments, comment.postId);
      match action {
        case Approve =>
          var changed := comment.Approve(count);
          if !changed {
            return Err(AlreadyApproved);
          }
          comments := comments[id := comment.Row()];
        case Reject =>
          var changed := comment.Reject(count);
          if !changed {
            return Err(AlreadyRejected);
          }
          comments := comments[id := comment.Row()];
        case Remove =>
          comment.MarkDeleted(count);
          comments := comments - {id};
      }
      outbox := outbox + comment.events;
      bumps := bumps + 1;
      r := Ok(());
    }

    /** Consuming a post event: no outbox row is ever written, and the cache is bumped exactly when
        the event is one of the four the queue is bound to. */
    method HandlePostEvent(e: PostEvent)
      modifies this
      ensures Db() == OnPostEvent(old(Db()), e)
      ensures outbox == old(outbox)
      ensures bumps == old(bumps) + if BoundToComments(e) then 1 else 0
    {
      match e {
        case PostDeleted(p, _) =>
          comments := map c | c in comments && comments[c].postId != p :: comments[c];
          known := known - {p};
        case PostCreated(_) =>
          return;
        case PostPublished(p) =>
          known := known[p.postId := KnownPost(p.slug, p.title, p.published)];
        case PostUpdated(p) =>
          known := known[p.postId := KnownPost(p.slug, p.title, p.published)];
        case PostUnpublished(p) =>
          known := known[p.postId := KnownPost(p.slug, p.title, p.published)];
      }
      bumps := bumps + 1;
    }
  }
}
