/**
 What post-service's commands do, stated field by field on stored rows: which requests are refused and
 why, what a stored post and its events hold, what stays as it was, and how edits combine.
 */
module PostLaws {
  import opened Wrappers
  import opened Text
  import opened Slug
  import opened PostService

  // ---------------------------------------------------------------- requests

  /** The limits on title, summary and content. */
  predicate Acceptable(d: Draft) {
    && 3 <= |Trim(d.title)| && |Trim(d.title)| <= 200
    && |Trim(d.summary)| <= 500
    && 10 <= |Trim(d.content)|
  }

  /** The category named by a request exists; an empty id passes the handler's check. */
  predicate CategoryPasses(db: PostDb, d: Draft) {
    d.categoryId.Some? && d.categoryId.value != "" ==> d.categoryId.value in db.categories
  }

  /** The text that a new slug is made of. */
  function SlugSource(d: Draft): string {
    if d.slug.Some? && d.slug.value != "" then d.slug.value else d.title
  }

  predicate TakenByOther(db: PostDb, slug: string, id: Id) {
    exists other :: other in db.posts && other != id && db.posts[other].slug == slug
  }

  /** The row shows what the request says; its slug and publication are not part of this. */
  ghost predicate Shows(fold: AsciiFold, row: PostRow, d: Draft) {
    && row.title == Trim(d.title) && row.summary == Trim(d.summary) && row.content == d.content
    && row.categoryId == d.categoryId && row.tags == NormalizedTags(fold, d.tags)
  }

  /** The event's payload is the row's public data. */
  ghost predicate Describes(p: Payload, id: Id, row: PostRow) {
    && p.postId == id && p.slug == row.slug && p.title == row.title && p.published == row.published
    && p.tags == row.tags && p.publishedAt == row.publishedAt
  }

  /** Only post `id` may differ. */
  ghost predicate OnlyPost(before: PostDb, after: PostDb, id: Id) {
    after.posts - {id} == before.posts - {id} && after.categories == before.categories
  }

  // ---------------------------------------------------------------- update

  /** Why an update is refused: the first fault in this order; an empty category id passes the handler's
      check and fails the foreign key. */
  lemma UpdateRefusals(fold: AsciiFold, db: PostDb, id: Id, d: Draft)
    ensures var r := Execute(fold, db, UpdatePost(id, d));
            var given := d.slug.Some? && d.slug.value != "";
            var proper := id in db.posts && CategoryPasses(db, d);
            var taken := given && TakenByOther(db, Slugify(fold, d.slug.value, 180), id);
            && (r == Err(PostMissing) <==> id !in db.posts)
            && (r == Err(CategoryMissing) <==> id in db.posts && !CategoryPasses(db, d))
            && (r == Err(InvalidText) <==> proper && !Acceptable(d))
            && (r == Err(SlugTaken) <==> proper && Acceptable(d) && taken)
            && (r == Err(ForeignKeyViolation) <==> proper && Acceptable(d) && !taken && d.categoryId == Some("")
                                                   && "" !in db.categories)
            && (r.Ok? <==> proper && Acceptable(d) && !taken && (d.categoryId == Some("") ==> "" in db.categories))
  {
    hide Trim, Slugify, NormalizedTags;
  }

  /** An update stores title, summary, content, category and tags of the request, takes a slug only if one is
      given, keeps publication, date and count, and announces the stored row; other posts stay. */
  lemma UpdateEffect(fold: AsciiFold, db: PostDb, id: Id, d: Draft)
    requires Execute(fold, db, UpdatePost(id, d)).Ok?
    ensures var out := Execute(fold, db, UpdatePost(id, d)).value;
            && id in db.posts && id in out.db.posts && OnlyPost(db, out.db, id)
            && var before, row := db.posts[id], out.db.posts[id];
               && Shows(fold, row, d)
               && row.slug == (if d.slug.Some? && d.slug.value != "" then Slugify(fold, d.slug.value, 180)
                               else before.slug)
               && row.published == before.published && row.publishedAt == before.publishedAt
               && row.commentCount == before.commentCount
               && |out.events| == 1 && out.events[0].PostUpdated? && Describes(out.events[0].payload, id, row)
  {
    hide Trim, Slugify, NormalizedTags;
  }

  /** Two databases that differ in post `id` only, and there not in its publication and count. */
  ghost predicate DifferInText(db: PostDb, after: PostDb, id: Id) {
    && id in db.posts && id in after.posts && OnlyPost(db, after, id)
    && after.posts[id].published == db.posts[id].published && after.posts[id].publishedAt == db.posts[id].publishedAt
    && after.posts[id].commentCount == db.posts[id].commentCount
  }

  lemma SameElsewhere(db: PostDb, after: PostDb, id: Id, slug: string, row: PostRow)
    requires OnlyPost(db, after, id)
    ensures SlugExists(after.posts, slug, id) <==> SlugExists(db.posts, slug, id)
    ensures after.posts[id := row] == db.posts[id := row]
  {
    assert forall i :: i != id ==> (i in after.posts <==> i in after.posts - {id});
    assert forall i :: i != id ==> (i in db.posts <==> i in db.posts - {id});
    assert forall i :: i in db.posts && i != id ==> after.posts[i] == (after.posts - {id})[i];
    assert forall i :: i in db.posts && i != id ==> db.posts[i] == (db.posts - {id})[i];
  }

  lemma UpdateOverwrites(fold: AsciiFold, db: PostDb, after: PostDb, id: Id, e: Draft)
    requires DifferInText(db, after, id)
    ensures var direct, later := Update(fold, db, id, e), Update(fold, after, id, e);
            && (direct.Ok? <==> later.Ok?)
            && (Given(e.slug) ==> later == direct)
            && (later.Ok? ==>
                  later.value.db.posts[id] == if Given(e.slug) then direct.value.db.posts[id]
                                              else direct.value.db.posts[id].(slug := after.posts[id].slug))
            && (later.Ok? ==> OnlyPost(direct.value.db, later.value.db, id))
  {
    hide ValidText, Slugify, NormalizedTags, Trim, SlugExists;
    var one, two := Updated(fold, db.posts[id], e), Updated(fold, after.posts[id], e);
    SameElsewhere(db, after, id, one.slug, one);
    SameElsewhere(db, after, id, two.slug, two);
    assert Given(e.slug) ==> one == two;
    assert two == if Given(e.slug) then one else one.(slug := after.posts[id].slug);
  }

  /** The last of two updates wins: the first leaves no trace but its slug, and that only if the last one
      gives none. */
  lemma LastUpdateWins(fold: AsciiFold, db: PostDb, id: Id, d: Draft, e: Draft)
    requires Execute(fold, db, UpdatePost(id, d)).Ok?
    ensures var after := Execute(fold, db, UpdatePost(id, d)).value.db;
            var direct, later := Execute(fold, db, UpdatePost(id, e)), Execute(fold, after, UpdatePost(id, e));
            && (direct.Ok? <==> later.Ok?)
            && (Given(e.slug) ==> later == direct)
            && id in after.posts
            && (later.Ok? && !Given(e.slug) ==>
                  && id in direct.value.db.posts && id in later.value.db.posts
                  && later.value.db.posts[id] == direct.value.db.posts[id].(slug := after.posts[id].slug)
                  && OnlyPost(direct.value.db, later.value.db, id))
  {
    var after := Execute(fold, db, UpdatePost(id, d)).value.db;
    UpdateEffect(fold, db, id, d);
    assert DifferInText(db, after, id);
    UpdateOverwrites(fold, db, after, id, e);
    if Execute(fold, db, UpdatePost(id, e)).Ok? {
      UpdateEffect(fold, db, id, e);
      UpdateEffect(fold, after, id, e);
    }
    hide Update, OnlyPost, Given;
  }

  /** The request that asks for what a row already holds. */
  function DraftOf(row: PostRow): Draft {
    Draft(row.title, row.summary, row.content, None, row.categoryId, row.tags)
  }

  /** Title, summary and tags are in the form that every create and update stores. */
  ghost predicate Settled(fold: AsciiFold, row: PostRow) {
    Trim(row.title) == row.title && Trim(row.summary) == row.summary && NormalizedTags(fold, row.tags) == row.tags
  }

  lemma ShownIsSettled(fold: AsciiFold, row: PostRow, d: Draft)
    requires Shows(fold, row, d)
    ensures Settled(fold, row)
  {
    TrimIdempotent(d.title);
    TrimIdempotent(d.summary);
    NormalizedTagsIdempotent(fold, d.tags);
  }

  ghost predicate AllSettled(fold: AsciiFold, db: PostDb) {
    forall i :: i in db.posts ==> Settled(fold, db.posts[i])
  }

  // ---------------------------------------------------------------- create

  /** Why a creation is refused: the first fault in this order. */
  lemma CreateRefusals(fold: AsciiFold, db: PostDb, id: Id, d: Draft, publish: bool, now: Time)
    ensures var r := Execute(fold, db, CreatePost(id, d, publish, now));
            var proper := CategoryPasses(db, d) && Acceptable(d);
            var slug := Slugify(fold, SlugSource(d), 180);
            && (r == Err(CategoryMissing) <==> !CategoryPasses(db, d))
            && (r == Err(InvalidText) <==> CategoryPasses(db, d) && !Acceptable(d))
            && (r == Err(EmptySlug) <==> proper && slug == "")
            && (r == Err(ForeignKeyViolation) <==> proper && slug != "" && d.categoryId == Some("")
                                                   && "" !in db.categories)
            && (r.Ok? <==> proper && slug != "" && (d.categoryId == Some("") ==> "" in db.categories))
  {
    hide Trim, Slugify, NormalizedTags, FreeSlug;
  }

  /** A creation stores the request without comments, under the first free slug, published and dated exactly
      if asked for; other posts stay. */
  lemma CreateEffect(fold: AsciiFold, db: PostDb, id: Id, d: Draft, publish: bool, now: Time)
    requires Execute(fold, db, CreatePost(id, d, publish, now)).Ok?
    ensures var out := Execute(fold, db, CreatePost(id, d, publish, now)).value;
            && id in out.db.posts && OnlyPost(db, out.db, id)
            && var row := out.db.posts[id];
               && Shows(fold, row, d) && row.commentCount == 0
               && row.published == publish && row.publishedAt == (if publish then Some(now) else None)
               && FirstFree(Slugs(db.posts), Slugify(fold, SlugSource(d), 180), row.slug)
  {
    hide Trim, Slugify, NormalizedTags, FreeSlug, FirstFree, Slugs, ValidText, Create, Published, Created;
    var row := CreateStores(fold, db, id, d, publish, now);
  }

  lemma CreateStores(fold: AsciiFold, db: PostDb, id: Id, d: Draft, publish: bool, now: Time) returns (row: PostRow)
    requires Create(fold, db, id, d, publish, now).Ok?
    ensures Create(fold, db, id, d, publish, now).value.db == db.(posts := db.posts[id := row])
    ensures Shows(fold, row, d) && row.commentCount == 0
    ensures row.published == publish && row.publishedAt == if publish then Some(now) else None
    ensures FirstFree(Slugs(db.posts), Slugify(fold, SlugSource(d), 180), row.slug)
  {
    FreeSlugIsFirstFree(Slugs(db.posts), Slugify(fold, SlugSource(d), 180));
    hide Trim, Slugify, NormalizedTags, FreeSlug, FirstFree, Slugs, ValidText;
    row := Create(fold, db, id, d, publish, now).value.db.posts[id];
  }

  /** The events of a creation: the draft as it was before its slug was made unique, then the published row. */
  lemma CreateEvents(fold: AsciiFold, db: PostDb, id: Id, d: Draft, publish: bool, now: Time)
    requires Execute(fold, db, CreatePost(id, d, publish, now)).Ok?
    ensures var out := Execute(fold, db, CreatePost(id, d, publish, now)).value;
            && id in out.db.posts
            && var row := out.db.posts[id];
               && |out.events| == (if publish then 2 else 1) && out.events[0].PostCreated?
               && var slug := Slugify(fold, SlugSource(d), 180);
                  && Describes(out.events[0].payload, id, row.(slug := slug, published := false, publishedAt := None))
                  && (publish ==> out.events[1].PostPublished? && Describes(out.events[1].payload, id, row))
  {
    hide Trim, Slugify, NormalizedTags, FreeSlug;
  }

  // ---------------------------------------------------------------- publication, deletion, counts

  /** Publishing is refused for a missing or published post; else it changes the state, dates the post if it
      has no date yet, and announces the row. */
  lemma PublishEffect(fold: AsciiFold, db: PostDb, id: Id, now: Time)
    ensures var r := Execute(fold, db, PublishPost(id, now));
            && (r == Err(PostMissing) <==> id !in db.posts)
            && (r == Err(AlreadyPublished) <==> id in db.posts && db.posts[id].published)
            && (r.Ok? <==> id in db.posts && !db.posts[id].published)
            && (r.Ok? ==>
                  && OnlyPost(db, r.value.db, id) && id in r.value.db.posts
                  && var before, row := db.posts[id], r.value.db.posts[id];
                     && row.published && row.(published := false, publishedAt := before.publishedAt) == before
                     && (before.publishedAt.Some? ==> row.publishedAt == before.publishedAt)
                     && (before.publishedAt.None? ==> row.publishedAt == Some(now))
                     && |r.value.events| == 1 && r.value.events[0].PostPublished?
                     && Describes(r.value.events[0].payload, id, row))
  {}

  /** Withdrawing is refused for a missing post or a draft; else it changes the state alone. */
  lemma UnpublishEffect(fold: AsciiFold, db: PostDb, id: Id)
    ensures var r := Execute(fold, db, UnpublishPost(id));
            && (r == Err(PostMissing) <==> id !in db.posts)
            && (r == Err(AlreadyDraft) <==> id in db.posts && !db.posts[id].published)
            && (r.Ok? <==> id in db.posts && db.posts[id].published)
            && (r.Ok? ==>
                  && OnlyPost(db, r.value.db, id) && id in r.value.db.posts
                  && var before, row := db.posts[id], r.value.db.posts[id];
                     && !row.published && row.(published := true) == before
                     && |r.value.events| == 1 && r.value.events[0].PostUnpublished?
                     && Describes(r.value.events[0].payload, id, row))
  {}

  /** Deleting is refused for a missing post only; it removes that post and names it and its slug. */
  lemma DeleteEffect(fold: AsciiFold, db: PostDb, id: Id)
    ensures var r := Execute(fold, db, DeletePost(id));
            && (r == Err(PostMissing) <==> id !in db.posts)
            && (r.Ok? <==> id in db.posts)
            && (r.Ok? ==>
                  && OnlyPost(db, r.value.db, id) && id !in r.value.db.posts
                  && |r.value.events| == 1 && r.value.events[0].PostDeleted?
                  && r.value.events[0].postId == id && r.value.events[0].slug == db.posts[id].slug)
  {}

  /** A count replaces the stored one, a negative one counts as zero, and the last one wins. */
  lemma SyncEffect(db: PostDb, id: Id, count: int, later: int)
    ensures var after := SyncCommentCount(db, id, count);
            && OnlyPost(db, after, id) && (id in after.posts <==> id in db.posts)
            && (id in db.posts ==>
                  && after.posts[id].(commentCount := db.posts[id].commentCount) == db.posts[id]
                  && (0 <= count ==> after.posts[id].commentCount == count)
                  && (count <= 0 ==> after.posts[id].commentCount == 0))
    ensures SyncCommentCount(SyncCommentCount(db, id, count), id, later) == SyncCommentCount(db, id, later)
  {
    if id in db.posts {
      assert SyncCommentCount(SyncCommentCount(db, id, count), id, later).posts
          == SyncCommentCount(db, id, later).posts;
    }
  }

  // ---------------------------------------------------------------- categories

  /** A category is stored under its trimmed name and a slug of at most 80 characters that no other has, or
      refused for its name or its slug; posts and outbox stay. */
  lemma CreateCategoryEffect(fold: AsciiFold, db: PostDb, id: Id, name: string)
    ensures var r := Execute(fold, db, Command.CreateCategory(id, name));
            var slug := Slugify(fold, name, 80);
            var fits := 2 <= |Trim(name)| && |Trim(name)| <= 60;
            var taken := exists c :: c in db.categories && db.categories[c].slug == slug;
            && (r == Err(InvalidText) <==> !fits)
            && (r == Err(CategoryTaken) <==> fits && taken)
            && (r.Ok? <==> fits && !taken)
            && (r.Ok? ==>
                  && r.value.db.posts == db.posts && r.value.events == []
                  && r.value.db.categories - {id} == db.categories - {id} && id in r.value.db.categories
                  && r.value.db.categories[id].name == Trim(name) && r.value.db.categories[id].slug == slug)
  {
    hide Trim, Slugify;
  }

  /** A category is deleted if it exists and no post is in it. */
  lemma DeleteCategoryEffect(fold: AsciiFold, db: PostDb, id: Id)
    ensures var r := Execute(fold, db, Command.DeleteCategory(id));
            var used := exists p :: p in db.posts && db.posts[p].categoryId == Some(id);
            && (r == Err(CategoryMissing) <==> id !in db.categories)
            && (r == Err(CategoryInUse) <==> id in db.categories && used)
            && (r.Ok? <==> id in db.categories && !used)
            && (r.Ok? ==>
                  && r.value.db.posts == db.posts && r.value.events == []
                  && id !in r.value.db.categories && r.value.db.categories == db.categories - {id})
  {}

  // ---------------------------------------------------------------- undoing an edit

  lemma StepSettles(fold: AsciiFold, db: PostDb, step: Step)
    requires AllSettled(fold, db)
    ensures AllSettled(fold, Applied(fold, db, step))
  {
    hide Settled;
    if step.Run? && Execute(fold, db, step.command).Ok? {
      match step.command
      case CreatePost(id, d, publish, now) =>
        CreateEffect(fold, db, id, d, publish, now);
        StoredSettles(fold, db, id, d, Applied(fold, db, step));
      case UpdatePost(id, d) =>
        UpdateEffect(fold, db, id, d);
        StoredSettles(fold, db, id, d, Applied(fold, db, step));
      case PublishPost(id, now) =>
        PublishEffect(fold, db, id, now);
        KeptSettles(fold, db, id, Applied(fold, db, step));
      case UnpublishPost(id) =>
        UnpublishEffect(fold, db, id);
        KeptSettles(fold, db, id, Applied(fold, db, step));
      case DeletePost(id) =>
        DeleteEffect(fold, db, id);
        KeptSettles(fold, db, id, Applied(fold, db, step));
      case CreateCategory(id, name) => CreateCategoryEffect(fold, db, id, name);
      case DeleteCategory(id) => DeleteCategoryEffect(fold, db, id);
    } else if step.Sync? {
      SyncEffect(db, step.id, step.count, 0);
      KeptSettles(fold, db, step.id, Applied(fold, db, step));
    }
  }

  lemma OneSettles(fold: AsciiFold, db: PostDb, id: Id, after: PostDb)
    requires AllSettled(fold, db) && OnlyPost(db, after, id)
    requires id in after.posts ==> Settled(fold, after.posts[id])
    ensures AllSettled(fold, after)
  {
    hide Settled;
    forall i | i in after.posts && i != id ensures i in db.posts && after.posts[i] == db.posts[i] {
      assert after.posts[i] == (after.posts - {id})[i] && i in db.posts - {id};
    }
  }

  lemma StoredSettles(fold: AsciiFold, db: PostDb, id: Id, d: Draft, after: PostDb)
    requires AllSettled(fold, db) && OnlyPost(db, after, id) && id in after.posts && Shows(fold, after.posts[id], d)
    ensures AllSettled(fold, after)
  {
    ShownIsSettled(fold, after.posts[id], d);
    hide Settled, Shows, AllSettled, OnlyPost;
    OneSettles(fold, db, id, after);
  }

  lemma KeptSettles(fold: AsciiFold, db: PostDb, id: Id, after: PostDb)
    requires AllSettled(fold, db) && OnlyPost(db, after, id)
    requires id in after.posts ==>
               id in db.posts && after.posts[id].title == db.posts[id].title
               && after.posts[id].summary == db.posts[id].summary && after.posts[id].tags == db.posts[id].tags
    ensures AllSettled(fold, after)
  {
    hide Trim, NormalizedTags;
    assert id in after.posts ==> Settled(fold, db.posts[id]);
    assert id in after.posts ==> Settled(fold, after.posts[id]);
    hide Settled, AllSettled, OnlyPost;
    OneSettles(fold, db, id, after);
  }

  /** Over every history titles and summaries stay trimmed and tags stay normalised. */
  lemma {:induction false} HistorySettles(fold: AsciiFold, db: PostDb, steps: seq<Step>)
    requires AllSettled(fold, db)
    ensures AllSettled(fold, History(fold, db, steps))
    decreases |steps|
  {
    hide AllSettled, Applied;
    if steps == [] {
    } else {
      StepSettles(fold, db, steps[0]);
      HistorySettles(fold, Applied(fold, db, steps[0]), steps[1..]);
    }
  }

  /** After any history from an empty database, an edit that gives no slug is undone by an update with what the
      post held before it. */
  lemma UpdateIsUndone(fold: AsciiFold, steps: seq<Step>, id: Id, d: Draft)
    requires AllFresh(fold, PostDb(map[], map[]), steps) && !Given(d.slug)
    requires Execute(fold, History(fold, PostDb(map[], map[]), steps), UpdatePost(id, d)).Ok?
    ensures var db := History(fold, PostDb(map[], map[]), steps);
            var after := Execute(fold, db, UpdatePost(id, d)).value.db;
            && id in db.posts
            && var back := Execute(fold, after, UpdatePost(id, DraftOf(db.posts[id])));
               back.Ok? && back.value.db == db
  {
    HistoryKeeps(fold, PostDb(map[], map[]), steps);
    HistorySettles(fold, PostDb(map[], map[]), steps);
    var db := History(fold, PostDb(map[], map[]), steps);
    UpdateEffect(fold, db, id, d);
    RestoresItself(fold, db, id);
    var after, back := Execute(fold, db, UpdatePost(id, d)).value.db, DraftOf(db.posts[id]);
    UpdateOverwrites(fold, db, after, id, back);
    UpdateEffect(fold, db, id, back);
    UpdateEffect(fold, after, id, back);
    hide Update, Wellformed, AllSettled, OnlyPost, Shows, Describes, Slugify;
    SameDb(Execute(fold, after, UpdatePost(id, back)).value.db, db, id);
  }

  lemma SameDb(before: PostDb, after: PostDb, id: Id)
    requires OnlyPost(before, after, id) && id in before.posts && id in after.posts
    requires before.posts[id] == after.posts[id]
    ensures before == after
  {
    assert before.posts == (before.posts - {id})[id := before.posts[id]];
    assert after.posts == (after.posts - {id})[id := after.posts[id]];
  }

  lemma OwnDraft(fold: AsciiFold, row: PostRow)
    requires RowValid(row) && Settled(fold, row)
    ensures ValidText(DraftOf(row)) && Updated(fold, row, DraftOf(row)) == row && !Given(DraftOf(row).slug)
  {
    hide NormalizedTags, Trim, Slugify;
  }

  lemma WellformedRow(db: PostDb, id: Id)
    requires Wellformed(db) && id in db.posts
    ensures RowValid(db.posts[id]) && ForeignKeyHolds(db, db.posts[id].categoryId)
  {
    hide RowValid;
  }

  /** Updating a post with what it holds changes nothing. */
  lemma RestoresItself(fold: AsciiFold, db: PostDb, id: Id)
    requires Wellformed(db) && AllSettled(fold, db) && id in db.posts
    ensures Execute(fold, db, UpdatePost(id, DraftOf(db.posts[id]))).Ok?
    ensures Execute(fold, db, UpdatePost(id, DraftOf(db.posts[id]))).value.db == db
  {
    hide Wellformed, RowValid, Settled, Updated, ValidText;
    var row := db.posts[id];
    WellformedRow(db, id);
    OwnDraft(fold, row);
    assert db.posts[id := row] == db.posts;
  }
}
