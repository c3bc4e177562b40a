/**
 What comment-service's commands do, stated on stored rows: which submissions are stored and as what,
 where a comment can appear over a whole history, and what moderation and post events touch.
 */
module CommentLaws {
  import opened Wrappers
  import opened Text
  import opened CommentService

  // ---------------------------------------------------------------- submissions

  /** The limits on name, text and e-mail. */
  predicate Acceptable(s: Submission) {
    && 2 <= |Trim(s.author)| && |Trim(s.author)| <= 60
    && 3 <= |Trim(s.content)| && |Trim(s.content)| <= 2000
    && (s.email.None? || s.email.value == "" || s.emailOk)
  }

  /** A submission is stored if and only if it is no honeypot, not limited, acceptable, and its post is known
      and published. */
  lemma SubmitStoresIff(db: CommentDb, id: Id, s: Submission, now: Time)
    requires id !in db.comments
    ensures id in Applied(db, Run(Submit(id, s, now))).comments
            <==> && !s.honeypot && !s.limited && Acceptable(s)
                 && s.postId in db.known && db.known[s.postId].published
  {
    hide Trim;
  }

  /** Why a submission is refused: the first of its faults in this order. */
  lemma SubmitRefusals(db: CommentDb, id: Id, s: Submission, now: Time)
    ensures var r := Execute(db, Submit(id, s, now));
            var open := s.postId in db.known && db.known[s.postId].published;
            && (r == Err(Honeypot) <==> s.honeypot)
            && (r == Err(RateLimited) <==> !s.honeypot && s.limited)
            && (r == Err(PostNotFound) <==> !s.honeypot && !s.limited && !open)
            && (r == Err(InvalidComment) <==> !s.honeypot && !s.limited && open && !Acceptable(s))
            && (r.Ok? <==> !s.honeypot && !s.limited && open && Acceptable(s))
  {
    hide Trim;
  }

  /** The stored row is the submission: trimmed, pending, with an e-mail only if one was given. */
  ghost predicate Holds(row: CommentRow, s: Submission, now: Time) {
    && row.postId == s.postId && row.createdAt == now
    && row.author == Trim(s.author) && row.content == Trim(s.content)
    && (row.email.Some? <==> s.email.Some? && s.email.value != "")
    && (row.email.Some? ==> row.email == s.email)
  }

  /** A stored submission is pending, is announced by one event, and changes nothing else. */
  lemma SubmitStores(db: CommentDb, id: Id, s: Submission, now: Time)
    requires Execute(db, Submit(id, s, now)).Ok?
    ensures var out := Execute(db, Submit(id, s, now)).value;
            && id in out.db.comments && Holds(out.db.comments[id], s, now) && out.db.comments[id].status.Pending?
            && out.db.known == db.known && out.db.comments - {id} == db.comments - {id}
            && |out.events| == 1 && out.events[0].CommentCreated?
            && out.events[0].commentId == id && out.events[0].postId == s.postId
            && out.events[0].author == out.db.comments[id].author
  {
    hide Trim;
  }

  // ---------------------------------------------------------------- where comments come from

  /** A comment that a step brings names a post that was known and published just before. */
  lemma AppearsOnPublishedPost(db: CommentDb, step: Step, id: Id)
    requires id !in db.comments && id in Applied(db, step).comments
    ensures var p := Applied(db, step).comments[id].postId; p in db.known && db.known[p].published
    ensures step.Run? && step.command.Submit? && step.command.id == id
  {
    hide Trim, CountApproved;
  }

  /** Step `k` stored comment `id` with the post, text and date of `row`, on a post published at that time. */
  ghost predicate StoredAt(db: CommentDb, steps: seq<Step>, k: nat, id: Id, row: CommentRow)
    requires k < |steps|
  {
    && steps[k].Run? && steps[k].command.Submit? && steps[k].command.id == id
    && var before := History(db, steps[..k]);
       && row.postId in before.known && before.known[row.postId].published
       && !steps[k].command.s.honeypot && !steps[k].command.s.limited && Acceptable(steps[k].command.s)
       && Holds(row, steps[k].command.s, steps[k].command.now)
  }

  lemma FirstStep(db: CommentDb, steps: seq<Step>, k: nat)
    requires k < |steps| - 1
    ensures History(Applied(db, steps[0]), steps[1..][..k]) == History(db, steps[..k + 1])
  {
    assert steps[..k + 1][1..] == steps[1..][..k];
  }

  lemma LaterStep(db: CommentDb, steps: seq<Step>, k: nat, id: Id, row: CommentRow)
    requires k < |steps| - 1 && StoredAt(Applied(db, steps[0]), steps[1..], k, id, row)
    ensures StoredAt(db, steps, k + 1, id, row)
  {
    FirstStep(db, steps, k);
    hide History, Applied, Holds, Acceptable;
  }

  /** One step stores the comment anew or leaves everything but its status. */
  lemma StepSource(db: CommentDb, step: Step, id: Id)
    requires id in Applied(db, step).comments
    ensures || StoredAt(db, [step], 0, id, Applied(db, step).comments[id])
            || (id in db.comments
                && Applied(db, step).comments[id].(status := Pending) == db.comments[id].(status := Pending))
  {
    assert [step][..0] == [];
    if step.Run? && step.command.Submit? && step.command.id == id {
      if Execute(db, step.command).Ok? {
        SubmitStores(db, id, step.command.s, step.command.now);
        SubmitRefusals(db, id, step.command.s, step.command.now);
        hide Holds, Acceptable;
      }
    } else {
      StepKeepsText(db, step, id);
    }
  }

  lemma {:induction false} HistorySource(db: CommentDb, steps: seq<Step>, id: Id)
    requires id in History(db, steps).comments
    ensures var row := History(db, steps).comments[id];
            || (id in db.comments && row.(status := Pending) == db.comments[id].(status := Pending))
            || exists k: nat :: k < |steps| && StoredAt(db, steps, k, id, row)
    decreases |steps|
  {
    if steps == [] {
    } else {
      var row := History(db, steps).comments[id];
      var next := Applied(db, steps[0]);
      HistorySource(next, steps[1..], id);
      hide Applied, Holds, Acceptable;
      if k: nat :| k < |steps[1..]| && StoredAt(next, steps[1..], k, id, row) {
        LaterStep(db, steps, k, id, row);
        assert StoredAt(db, steps, k + 1, id, row);
      } else {
        StepSource(db, steps[0], id);
        if StoredAt(db, [steps[0]], 0, id, next.comments[id]) {
          SameButStatus(db, steps, id, next.comments[id], row);
        }
      }
    }
  }

  lemma SameButStatus(db: CommentDb, steps: seq<Step>, id: Id, stored: CommentRow, row: CommentRow)
    requires steps != [] && StoredAt(db, [steps[0]], 0, id, stored)
    requires row.(status := Pending) == stored.(status := Pending)
    ensures StoredAt(db, steps, 0, id, row)
  {
    assert [steps[0]][..0] == steps[..0];
    assert row.postId == stored.postId && row.email == stored.email;
    hide Acceptable, History, Trim;
  }

  /** Over every history each comment goes back to one accepted submission: its post was published at that
      time, and its post, name, text, e-mail and date are still the submitted ones. */
  lemma HistoryComments(db: CommentDb, steps: seq<Step>, id: Id)
    requires id !in db.comments && id in History(db, steps).comments
    ensures exists k: nat :: k < |steps| && StoredAt(db, steps, k, id, History(db, steps).comments[id])
  {
    HistorySource(db, steps, id);
  }

  // ---------------------------------------------------------------- moderation

  /** When a moderation is refused. */
  lemma ModerationRefusals(db: CommentDb, id: Id, action: Action)
    ensures var r := Execute(db, Moderate(id, action));
            && (r == Err(CommentMissing) <==> id !in db.comments)
            && (r == Err(AlreadyApproved) <==> id in db.comments && action.Approve? && db.comments[id].status.Approved?)
            && (r == Err(AlreadyRejected) <==> id in db.comments && action.Reject? && db.comments[id].status.Rejected?)
            && (r.Err? ==> r.error.CommentMissing? || r.error.AlreadyApproved? || r.error.AlreadyRejected?)
  {
    hide CountApproved;
  }

  /** Approval and rejection set the status of one comment, deletion removes one; the event names it. */
  lemma ModerationEffect(db: CommentDb, id: Id, action: Action)
    requires Execute(db, Moderate(id, action)).Ok?
    ensures var out := Execute(db, Moderate(id, action)).value;
            && out.db.known == db.known && out.db.comments - {id} == db.comments - {id}
            && id in db.comments && |out.events| == 1 && out.events[0].commentId == id
            && match action
               case Remove => id !in out.db.comments && out.events[0].CommentDeleted?
               case Approve =>
                 && id in out.db.comments && out.db.comments[id].status.Approved?
                 && out.db.comments[id].(status := db.comments[id].status) == db.comments[id]
                 && out.events[0].CommentApproved?
               case Reject =>
                 && id in out.db.comments && out.db.comments[id].status.Rejected?
                 && out.db.comments[id].(status := db.comments[id].status) == db.comments[id]
                 && out.events[0].CommentRejected?
  {
    hide CountApproved;
  }

  // ---------------------------------------------------------------- post events

  /** A deletion removes the post and exactly its comments; any other bound event replaces what is known of
      its post and touches no comment. */
  lemma PostEventEffect(db: CommentDb, e: PostEvent)
    ensures var after := OnPostEvent(db, e);
            e.PostDeleted? ==>
              && after.known == db.known - {e.postId}
              && (forall c :: c in after.comments <==> c in db.comments && db.comments[c].postId != e.postId)
              && (forall c :: c in after.comments ==> after.comments[c] == db.comments[c])
    ensures var after := OnPostEvent(db, e);
            e.PostPublished? || e.PostUpdated? || e.PostUnpublished? ==>
              && after.comments == db.comments && after.known - {e.payload.postId} == db.known - {e.payload.postId}
              && e.payload.postId in after.known
              && var known := after.known[e.payload.postId];
                 && known.slug == e.payload.slug && known.title == e.payload.title
                 && known.published == e.payload.published
    ensures e.PostCreated? ==> OnPostEvent(db, e) == db
  {}
}
