/**
 post-service specified on database values: what each command stores, emits or refuses, and what
 every command keeps.
 */
module PostService {
  import opened Wrappers
  import opened Text
  import opened Slug

  type Id = string
  type Time = int

  const POST_SLUG_LENGTH := 180
  const CATEGORY_SLUG_LENGTH := 80

  datatype PostRow = PostRow(
    title: string,
    slug: string,
    summary: string,
    content: string,
    published: bool,
    categoryId: Option<Id>,
    tags: seq<string>,
    commentCount: nat,
    publishedAt: Option<Time>)

  datatype Category = Category(name: string, slug: string)

  datatype Payload = Payload(postId: Id, slug: string, title: string, published: bool, tags: seq<string>,
                             publishedAt: Option<Time>)

  datatype PostEvent =
    | PostCreated(payload: Payload)
    | PostUpdated(payload: Payload)
    | PostPublished(payload: Payload)
    | PostUnpublished(payload: Payload)
    | PostDeleted(postId: Id, slug: string)

  datatype PostError =
    | CategoryMissing | InvalidText | EmptySlug | AlreadyPublished | AlreadyDraft | PostMissing
    | SlugTaken | CategoryTaken | CategoryInUse | ForeignKeyViolation

  datatype PostDb = PostDb(posts: map<Id, PostRow>, categories: map<Id, Category>)

  /** What a committed command leaves: the new database and the events of its aggregate. */
  datatype Effect = Effect(db: PostDb, events: seq<PostEvent>)

  /** The text fields of a create or update request; `slug` and `categoryId` may be absent or empty. */
  datatype Draft = Draft(title: string, summary: string, content: string, slug: Option<string>, categoryId: Option<Id>,
                         tags: seq<string>)

  datatype Command =
    | CreatePost(id: Id, draft: Draft, publish: bool, now: Time)
    | UpdatePost(id: Id, draft: Draft)
    | PublishPost(id: Id, now: Time)
    | UnpublishPost(id: Id)
    | DeletePost(id: Id)
    | CreateCategory(id: Id, name: string)
    | DeleteCategory(id: Id)

  // ---------------------------------------------------------------- the aggregate on rows

  predicate Given(o: Option<string>) {
    o.Some? && o.value != []
  }

  predicate ValidText(d: Draft) {
    3 <= |Trim(d.title)| <= 200 && |Trim(d.summary)| <= 500 && 10 <= |Trim(d.content)|
  }

  function PayloadOf(id: Id, p: PostRow): Payload {
    Payload(id, p.slug, p.title, p.published, p.tags, p.publishedAt)
  }

  function Created(fold: AsciiFold, d: Draft): PostRow {
    PostRow(Trim(d.title), Slugify(fold, if Given(d.slug) then d.slug.value else d.title, POST_SLUG_LENGTH),
            Trim(d.summary), d.content, false, d.categoryId, NormalizedTags(fold, d.tags), 0, None)
  }

  function Updated(fold: AsciiFold, p: PostRow, d: Draft): PostRow {
    p.(title := Trim(d.title), summary := Trim(d.summary), content := d.content,
       slug := if Given(d.slug) then Slugify(fold, d.slug.value, POST_SLUG_LENGTH) else p.slug,
       categoryId := d.categoryId, tags := NormalizedTags(fold, d.tags))
  }

  function Published(p: PostRow, now: Time): PostRow {
    p.(published := true, publishedAt := if p.publishedAt.Some? then p.publishedAt else Some(now))
  }

  // ---------------------------------------------------------------- the commands on the database

  function Slugs(posts: map<Id, PostRow>): set<string> {
    set id | id in posts :: posts[id].slug
  }

  predicate SlugExists(posts: map<Id, PostRow>, slug: string, exclude: Id) {
    exists id :: id in posts && id != exclude && posts[id].slug == slug
  }

  predicate CategoryKnown(db: PostDb, categoryId: Option<Id>) {
    Given(categoryId) ==> categoryId.value in db.categories
  }

  /** The foreign key from posts to categories, checked by the database at commit. */
  predicate ForeignKeyHolds(db: PostDb, categoryId: Option<Id>) {
    categoryId.Some? ==> categoryId.value in db.categories
  }

  ghost function Create(fold: AsciiFold, db: PostDb, id: Id, d: Draft, publish: bool, now: Time)
    : Result<Effect, PostError>
  {
    if !CategoryKnown(db, d.categoryId) then Err(CategoryMissing)
    else if !ValidText(d) then Err(InvalidText)
    else
      var draft := Created(fold, d);
      if draft.slug == [] then Err(EmptySlug)
      else if !ForeignKeyHolds(db, d.categoryId) then Err(ForeignKeyViolation)
      else
        var named := draft.(slug := FreeSlug(Slugs(db.posts), draft.slug, 0));
        var post := if publish then Published(named, now) else named;
        Ok(Effect(db.(posts := db.posts[id := post]),
                  [PostCreated(PayloadOf(id, draft))] + if publish then [PostPublished(PayloadOf(id, post))] else []))
  }

  function UpdatedOutcome(db: PostDb, id: Id, post: PostRow, slugGiven: bool, events: seq<PostEvent>)
    : Result<Effect, PostError>
  {
    if slugGiven && SlugExists(db.posts, post.slug, id) then Err(SlugTaken)
    else if !ForeignKeyHolds(db, post.categoryId) then Err(ForeignKeyViolation)
    else Ok(Effect(db.(posts := db.posts[id := post]), events))
  }

  function Revised(fold: AsciiFold, db: PostDb, id: Id, row: PostRow, d: Draft): Result<Effect, PostError> {
    if !ValidText(d) then Err(InvalidText)
    else
      var post := Updated(fold, row, d);
      UpdatedOutcome(db, id, post, Given(d.slug), [PostUpdated(PayloadOf(id, post))])
  }

  function Update(fold: AsciiFold, db: PostDb, id: Id, d: Draft): Result<Effect, PostError> {
    if id !in db.posts then Err(PostMissing)
    else if !CategoryKnown(db, d.categoryId) then Err(CategoryMissing)
    else Revised(fold, db, id, db.posts[id], d)
  }

  function Publish(db: PostDb, id: Id, now: Time): Result<Effect, PostError> {
    if id !in db.posts then Err(PostMissing)
    else if db.posts[id].published then Err(AlreadyPublished)
    else
      var post := Published(db.posts[id], now);
      Ok(Effect(db.(posts := db.posts[id := post]), [PostPublished(PayloadOf(id, post))]))
  }

  function Unpublish(db: PostDb, id: Id): Result<Effect, PostError> {
    if id !in db.posts then Err(PostMissing)
    else if !db.posts[id].published then Err(AlreadyDraft)
    else
      var post := db.posts[id].(published := false);
      Ok(Effect(db.(posts := db.posts[id := post]), [PostUnpublished(PayloadOf(id, post))]))
  }

  function Delete(db: PostDb, id: Id): Result<Effect, PostError> {
    if id !in db.posts then Err(PostMissing)
    else Ok(Effect(db.(posts := db.posts - {id}), [PostDeleted(id, db.posts[id].slug)]))
  }

  predicate CategorySlugExists(db: PostDb, slug: string) {
    exists c :: c in db.categories && db.categories[c].slug == slug
  }

  predicate CategoryUsed(db: PostDb, c: Id) {
    exists id :: id in db.posts && db.posts[id].categoryId == Some(c)
  }

  function AddCategory(fold: AsciiFold, db: PostDb, id: Id, name: string): Result<Effect, PostError> {
    if !(2 <= |Trim(name)| <= 60) then Err(InvalidText)
    else
      var category := Category(Trim(name), Slugify(fold, name, CATEGORY_SLUG_LENGTH));
      if CategorySlugExists(db, category.slug) then Err(CategoryTaken)
      else Ok(Effect(db.(categories := db.categories[id := category]), []))
  }

  function RemoveCategory(db: PostDb, id: Id): Result<Effect, PostError> {
    if id !in db.categories then Err(CategoryMissing)
    else if CategoryUsed(db, id) then Err(CategoryInUse)
    else Ok(Effect(db.(categories := db.categories - {id}), []))
  }

  ghost function Execute(fold: AsciiFold, db: PostDb, c: Command): Result<Effect, PostError> {
    match c
    case CreatePost(id, draft, publish, now) => Create(fold, db, id, draft, publish, now)
    case UpdatePost(id, draft) => Update(fold, db, id, draft)
    case PublishPost(id, now) => Publish(db, id, now)
    case UnpublishPost(id) => Unpublish(db, id)
    case DeletePost(id) => Delete(db, id)
    case CreateCategory(id, name) => AddCategory(fold, db, id, name)
    case DeleteCategory(id) => RemoveCategory(db, id)
  }

  /** The count carried by a comment event; a missing post is skipped. */
  function SyncCommentCount(db: PostDb, id: Id, count: int): PostDb {
    if id !in db.posts then db
    else db.(posts := db.posts[id := db.posts[id].(commentCount := if count < 0 then 0 else count)])
  }

  // ---------------------------------------------------------------- what every command keeps

  ghost predicate DistinctSlugs(db: PostDb) {
    forall i, j :: i in db.posts && j in db.posts && i != j ==> db.posts[i].slug != db.posts[j].slug
  }

  ghost predicate CategoriesExist(db: PostDb) {
    forall i :: i in db.posts && db.posts[i].categoryId.Some? ==> db.posts[i].categoryId.value in db.categories
  }

  ghost predicate PublishedAreDated(db: PostDb) {
    forall i :: i in db.posts && db.posts[i].published ==> db.posts[i].publishedAt.Some?
  }

  ghost predicate DistinctCategorySlugs(db: PostDb) {
    forall i, j :: i in db.categories && j in db.categories && i != j ==> db.categories[i].slug != db.categories[j].slug
  }

  /** Slugs consist of a-z, 0-9 and single inner dashes; the uniqueness suffix may exceed the limit. */
  ghost predicate SlugsShaped(db: PostDb) {
    forall i :: i in db.posts ==> Canonical(db.posts[i].slug, |db.posts[i].slug|)
  }

  /** Text within the limits; at most ten distinct canonical tags. */
  ghost predicate RowValid(p: PostRow) {
    && 3 <= |p.title| <= 200 && |p.summary| <= 500 && 10 <= |Trim(p.content)|
    && |p.tags| <= MAX_TAGS && Distinct(p.tags)
    && forall i :: 0 <= i < |p.tags| ==> p.tags[i] != [] && Canonical(p.tags[i], MAX_TAG_LENGTH)
  }

  ghost predicate RowsValid(db: PostDb) {
    forall i :: i in db.posts ==> RowValid(db.posts[i])
  }

  ghost predicate Wellformed(db: PostDb) {
    && DistinctSlugs(db) && CategoriesExist(db) && PublishedAreDated(db) && DistinctCategorySlugs(db) && SlugsShaped(db)
    && RowsValid(db)
  }

  /** Ids are fresh UUIDs. */
  ghost predicate FreshIds(db: PostDb, c: Command) {
    (c.CreatePost? ==> c.id !in db.posts) && (c.CreateCategory? ==> c.id !in db.categories)
  }

  /** A uniqueness suffix keeps the slug shape. */
  lemma CandidateShape(base: string, k: nat)
    requires base != [] && Canonical(base, |base|)
    ensures Canonical(Candidate(base, k), |Candidate(base, k)|)
  {
    if k != 0 {
      var number := Decimal(k + 1);
      DecimalReadsBack(k + 1);
      var s := base + "-" + number;
      assert s[|base|] == '-' && forall i :: |base| < i < |s| ==> s[i] == number[i - |base| - 1];
    }
  }

  /** Storing a row keeps the database well-formed when no other post has its slug. */
  lemma StoreKeeps(db: PostDb, id: Id, row: PostRow)
    requires Wellformed(db) && !SlugExists(db.posts, row.slug, id)
    requires ForeignKeyHolds(db, row.categoryId) && (row.published ==> row.publishedAt.Some?)
    requires Canonical(row.slug, |row.slug|) && RowValid(row)
    ensures Wellformed(db.(posts := db.posts[id := row]))
  {
    hide Canonical, RowValid;
    var after := db.(posts := db.posts[id := row]);
    assert DistinctSlugs(after) && CategoriesExist(after) && PublishedAreDated(after);
    assert SlugsShaped(after);
  }

  lemma DraftValid(fold: AsciiFold, p: PostRow, d: Draft)
    requires ValidText(d) && p.title == Trim(d.title) && p.summary == Trim(d.summary) && p.content == d.content
    requires p.tags == NormalizedTags(fold, d.tags)
    ensures RowValid(p)
  {
    NormalizedTagsProperties(fold, d.tags);
    hide NormalizedTags, Canonical, Distinct;
  }

  lemma CreateKeeps(fold: AsciiFold, db: PostDb, id: Id, d: Draft, publish: bool, now: Time)
    requires Wellformed(db) && id !in db.posts && Create(fold, db, id, d, publish, now).Ok?
    ensures Wellformed(Create(fold, db, id, d, publish, now).value.db)
  {
    var draft := Created(fold, d);
    var row := Create(fold, db, id, d, publish, now).value.db.posts[id];
    SlugifyCanonical(fold, if Given(d.slug) then d.slug.value else d.title, POST_SLUG_LENGTH);
    var n := FreeSlugIsFirst(Slugs(db.posts), draft.slug, 0);
    CandidateShape(draft.slug, n);
    DraftValid(fold, row, d);
    forall i | i in db.posts ensures db.posts[i].slug != row.slug {
      assert db.posts[i].slug in Slugs(db.posts);
    }
    StoreKeeps(db, id, row);
  }

  lemma UpdateKeeps(fold: AsciiFold, db: PostDb, id: Id, d: Draft)
    requires Wellformed(db) && Update(fold, db, id, d).Ok?
    ensures Wellformed(Update(fold, db, id, d).value.db)
  {
    if Given(d.slug) {
      SlugifyCanonical(fold, d.slug.value, POST_SLUG_LENGTH);
    }
    DraftValid(fold, Updated(fold, db.posts[id], d), d);
    StoreKeeps(db, id, Updated(fold, db.posts[id], d));
  }

  lemma AddCategoryKeeps(fold: AsciiFold, db: PostDb, id: Id, name: string)
    requires Wellformed(db) && id !in db.categories && AddCategory(fold, db, id, name).Ok?
    ensures Wellformed(AddCategory(fold, db, id, name).value.db)
  {
    var after := AddCategory(fold, db, id, name).value.db;
    forall c | c in db.categories ensures db.categories[c].slug != after.categories[id].slug {}
    assert DistinctCategorySlugs(after);
    assert DistinctSlugs(after) && CategoriesExist(after);
  }

  lemma RemoveCategoryKeeps(db: PostDb, id: Id)
    requires Wellformed(db) && RemoveCategory(db, id).Ok?
    ensures Wellformed(RemoveCategory(db, id).value.db)
  {
    var after := RemoveCategory(db, id).value.db;
    assert DistinctCategorySlugs(after);
    forall i | i in db.posts && db.posts[i].categoryId.Some? ensures db.posts[i].categoryId.value in after.categories {
      assert db.posts[i].categoryId == Some(db.posts[i].categoryId.value);
    }
    assert DistinctSlugs(after);
  }

  lemma SyncKeeps(db: PostDb, id: Id, count: int)
    requires Wellformed(db)
    ensures Wellformed(SyncCommentCount(db, id, count))
  {
    if id in db.posts {
      StoreKeeps(db, id, SyncCommentCount(db, id, count).posts[id]);
    }
  }

  /** Post slugs stay pairwise distinct, every category exists, published posts are dated, texts and
      tags stay within their limits. */
  lemma ExecuteKeeps(fold: AsciiFold, db: PostDb, c: Command)
    requires Wellformed(db) && FreshIds(db, c) && Execute(fold, db, c).Ok?
    ensures Wellformed(Execute(fold, db, c).value.db)
  {
    match c
    case CreatePost(id, draft, publish, now) => CreateKeeps(fold, db, id, draft, publish, now);
    case UpdatePost(id, draft) => UpdateKeeps(fold, db, id, draft);
    case PublishPost(id, now) => StoreKeeps(db, id, Published(db.posts[id], now));
    case UnpublishPost(id) => StoreKeeps(db, id, db.posts[id].(published := false));
    case DeletePost(id) =>
      var after := Execute(fold, db, c).value.db;
      assert DistinctSlugs(after) && CategoriesExist(after) && PublishedAreDated(after) && SlugsShaped(after);
    case CreateCategory(id, name) => AddCategoryKeeps(fold, db, id, name);
    case DeleteCategory(id) => RemoveCategoryKeeps(db, id);
  }

  /** No command changes or clears the first publication date of a post that it keeps. */
  lemma FirstPublicationIsKept(fold: AsciiFold, db: PostDb, c: Command, id: Id)
    requires FreshIds(db, c) && Execute(fold, db, c).Ok?
    requires id in db.posts && db.posts[id].publishedAt.Some?
    ensures var after := Execute(fold, db, c).value.db;
            id in after.posts ==> after.posts[id].publishedAt == db.posts[id].publishedAt
    ensures id !in Execute(fold, db, c).value.db.posts ==> c == DeletePost(id)
  {
    hide Slugify, NormalizedTags, ValidText, Trim, SlugExists, CategorySlugExists, CategoryUsed, FreeSlug;
  }

  datatype Step = Run(command: Command) | Sync(id: Id, count: int)

  /** A failed command changes nothing. */
  ghost function Applied(fold: AsciiFold, db: PostDb, step: Step): PostDb {
    match step
    case Run(c) => (match Execute(fold, db, c) case Ok(e) => e.db case Err(_) => db)
    case Sync(id, count) => SyncCommentCount(db, id, count)
  }

  ghost function History(fold: AsciiFold, db: PostDb, steps: seq<Step>): PostDb
    decreases |steps|
  {
    if steps == [] then db else History(fold, Applied(fold, db, steps[0]), steps[1..])
  }

  ghost predicate AllFresh(fold: AsciiFold, db: PostDb, steps: seq<Step>)
    decreases |steps|
  {
    steps != [] ==>
      && (steps[0].Run? ==> FreshIds(db, steps[0].command))
      && AllFresh(fold, Applied(fold, db, steps[0]), steps[1..])
  }

  lemma AppliedKeeps(fold: AsciiFold, db: PostDb, step: Step)
    requires Wellformed(db) && (step.Run? ==> FreshIds(db, step.command))
    ensures Wellformed(Applied(fold, db, step))
  {
    match step
    case Run(c) =>
      if Execute(fold, db, c).Ok? {
        ExecuteKeeps(fold, db, c);
      }
    case Sync(id, count) => SyncKeeps(db, id, count);
  }

  /** Over every sequence of commands and synchronisations. */
  lemma {:induction false} HistoryKeeps(fold: AsciiFold, db: PostDb, steps: seq<Step>)
    requires Wellformed(db) && AllFresh(fold, db, steps)
    ensures Wellformed(History(fold, db, steps))
    decreases |steps|
  {
    if steps == [] {
    } else {
      AppliedKeeps(fold, db, steps[0]);
      HistoryKeeps(fold, Applied(fold, db, steps[0]), steps[1..]);
    }
  }

  /** Over every history that keeps the post, its first publication date never changes; ids are not
      used again after a deletion. */
  lemma {:induction false} FirstPublicationIsForever(fold: AsciiFold, db: PostDb, steps: seq<Step>, id: Id)
    requires AllFresh(fold, db, steps)
    requires forall k :: 0 <= k < |steps| && steps[k].Run? && steps[k].command.CreatePost? ==> steps[k].command.id != id
    requires id in db.posts ==> db.posts[id].publishedAt.Some?
    ensures id in History(fold, db, steps).posts ==>
              id in db.posts && History(fold, db, steps).posts[id].publishedAt == db.posts[id].publishedAt
    decreases |steps|
  {
    if steps == [] {
    } else {
      var next := Applied(fold, db, steps[0]);
      OneStepPublication(fold, db, steps[0], id);
      hide Applied;
      assert forall k :: 0 <= k < |steps[1..]| ==> steps[1..][k] == steps[k + 1];
      FirstPublicationIsForever(fold, next, steps[1..], id);
    }
  }

  lemma OneStepPublication(fold: AsciiFold, db: PostDb, step: Step, id: Id)
    requires step.Run? ==> FreshIds(db, step.command) && (step.command.CreatePost? ==> step.command.id != id)
    requires id in db.posts ==> db.posts[id].publishedAt.Some?
    ensures id in Applied(fold, db, step).posts ==>
              id in db.posts && Applied(fold, db, step).posts[id].publishedAt == db.posts[id].publishedAt
  {
    if step.Run? && Execute(fold, db, step.command).Ok? {
      if id in db.posts {
        FirstPublicationIsKept(fold, db, step.command, id);
      } else {
        OnlyCreateAdds(fold, db, step.command, id);
      }
    }
  }

  lemma OnlyCreateAdds(fold: AsciiFold, db: PostDb, c: Command, id: Id)
    requires Execute(fold, db, c).Ok? && id !in db.posts && (c.CreatePost? ==> c.id != id)
    ensures id !in Execute(fold, db, c).value.db.posts
  {
    hide Slugify, NormalizedTags, ValidText, Trim, SlugExists, CategorySlugExists, CategoryUsed, FreeSlug;
  }

  /** Publishing is refused the second time; withdrawing undoes it except for the first publication
      date, and publishing once more restores the same row whatever the time. */
  lemma PublicationRoundTrip(db: PostDb, id: Id, now: Time, later: Time)
    requires Publish(db, id, now).Ok?
    ensures var published := Publish(db, id, now).value.db;
            && Publish(published, id, later) == Err(AlreadyPublished)
            && Unpublish(published, id).Ok?
            && var withdrawn := Unpublish(published, id).value.db;
               && Unpublish(withdrawn, id) == Err(AlreadyDraft)
               && id in db.posts && id in withdrawn.posts
               && withdrawn.posts[id].(publishedAt := db.posts[id].publishedAt) == db.posts[id]
               && Publish(withdrawn, id, later).Ok? && Publish(withdrawn, id, later).value.db == published
  {
    var published := Publish(db, id, now).value.db;
    var withdrawn := Unpublish(published, id).value.db;
    assert Publish(withdrawn, id, later).value.db.posts == published.posts;
  }

  /** The draft's slug field yields no slug character. */
  ghost predicate SlugVanishes(fold: AsciiFold, text: string) {
    forall i :: 0 <= i < |Normalized(fold, text)| ==> !IsKept(Normalized(fold, text)[i])
  }

  /** A new post never has an empty slug: creation refuses it. */
  lemma CreateRefusesEmptySlug(fold: AsciiFold, db: PostDb, id: Id, d: Draft, publish: bool, now: Time)
    ensures CategoryKnown(db, d.categoryId) && ValidText(d) ==>
              (Create(fold, db, id, d, publish, now) == Err(EmptySlug)
               <==> SlugVanishes(fold, if Given(d.slug) then d.slug.value else d.title))
    ensures Create(fold, db, id, d, publish, now).Ok? ==>
              Create(fold, db, id, d, publish, now).value.db.posts[id].slug != []
  {
    SlugifyEmptyIff(fold, if Given(d.slug) then d.slug.value else d.title, POST_SLUG_LENGTH);
    if Create(fold, db, id, d, publish, now).Ok? {
      var n := FreeSlugIsFirst(Slugs(db.posts), Created(fold, d).slug, 0);
    }
  }

  /** An update does not check again: it leaves an empty slug exactly when the given slug vanishes,
      or none is given and the slug was empty before. */
  lemma UpdateEmptiesSlugIff(fold: AsciiFold, db: PostDb, id: Id, d: Draft)
    requires Update(fold, db, id, d).Ok?
    ensures Update(fold, db, id, d).value.db.posts[id].slug == []
            <==> if Given(d.slug) then SlugVanishes(fold, d.slug.value) else db.posts[id].slug == []
  {
    if Given(d.slug) {
      SlugifyEmptyIff(fold, d.slug.value, POST_SLUG_LENGTH);
    }
  }

  /** `post.created` is recorded before the slug is made unique: it carries the stored slug exactly
      when the derived slug was free. */
  lemma CreatedEventSlug(fold: AsciiFold, db: PostDb, id: Id, d: Draft, publish: bool, now: Time)
    requires Create(fold, db, id, d, publish, now).Ok?
    ensures var e := Create(fold, db, id, d, publish, now).value;
            e.events[0].payload.slug == e.db.posts[id].slug <==> Created(fold, d).slug !in Slugs(db.posts)
  {
    var n := FreeSlugIsFirst(Slugs(db.posts), Created(fold, d).slug, 0);
    assert Candidate(Created(fold, d).slug, 0) == Created(fold, d).slug;
  }

  // ---------------------------------------------------------------- two inputs

  /** A draft post with the slug "abc", and the request that made it. */
  function AbcDraft(slug: Option<string>): Draft {
    Draft("abc", "", "0123456789", slug, None, [])
  }

  function AbcPost(): PostRow {
    PostRow("abc", "abc", "", "0123456789", false, None, [], 0, None)
  }

  lemma AbcTrims()
    ensures Trim("abc") == "abc" && Trim("") == "" && Trim("0123456789") == "0123456789"
  {}

  lemma AbcTexts(fold: AsciiFold)
    ensures ValidText(AbcDraft(None)) && Created(fold, AbcDraft(None)) == AbcPost()
  {
    SlugifyFixedIffCanonical(fold, "abc", POST_SLUG_LENGTH);
    AbcTrims();
    assert TagSlugs(fold, []) == [];
    hide Slugify, Trim;
  }

  lemma AbcStored()
    ensures var stored := PostDb(map["p" := AbcPost()], map[]);
            Wellformed(stored) && stored.posts["p"].slug != [] && !SlugExists(stored.posts, [], "p")
  {
    AbcTrims();
    hide Trim;
    assert Canonical("abc", 3) && RowValid(AbcPost());
  }

  lemma ExclamationVanishes(fold: AsciiFold)
    ensures Slugify(fold, "!!!", POST_SLUG_LENGTH) == []
  {
    MapKeeps(Turkish, "!!!");
    FoldKeepsAscii(fold, "!!!");
    MapKeeps(Lower, "!!!");
    SlugifyEmptyIff(fold, "!!!", POST_SLUG_LENGTH);
    hide Slugify;
  }

  /** Updating any stored post with the slug "!!!" succeeds and leaves it without a slug, unless another
      post has none; such a post exists in a well-formed database. */
  lemma ExclamationSlugIsStored(fold: AsciiFold, db: PostDb, id: Id)
    requires id in db.posts && !SlugExists(db.posts, [], id)
    ensures var r := Update(fold, db, id, AbcDraft(Some("!!!"))); r.Ok? && r.value.db.posts[id].slug == []
    ensures var stored := PostDb(map["p" := AbcPost()], map[]);
            Wellformed(stored) && stored.posts["p"].slug != [] && !SlugExists(stored.posts, [], "p")
  {
    AbcTrims();
    ExclamationVanishes(fold);
    AbcStored();
    hide Slugify, NormalizedTags, Trim, Wellformed, SlugExists;
  }

  /** Creating a draft again under a new id announces a slug other than the one stored, whatever the draft
      is; the first creation of "abc" succeeds in an empty database. */
  lemma SecondCreationAnnouncesTakenSlug(fold: AsciiFold, db: PostDb, first: Id, second: Id, d: Draft, now: Time)
    requires first !in db.posts && Create(fold, db, first, d, false, now).Ok?
    ensures var again := Create(fold, Create(fold, db, first, d, false, now).value.db, second, d, false, now);
            again.Ok? && again.value.events[0].payload.slug != again.value.db.posts[second].slug
    ensures Create(fold, PostDb(map[], map[]), "p", AbcDraft(None), false, 0).Ok?
  {
    var after := Create(fold, db, first, d, false, now).value.db;
    var base := Created(fold, d).slug;
    var n := FreeSlugIsFirst(Slugs(db.posts), base, 0);
    assert base in Slugs(after.posts) by {
      if n == 0 {
        assert after.posts[first].slug == base;
      } else {
        assert Candidate(base, 0) in Slugs(db.posts);
        var id :| id in db.posts && db.posts[id].slug == base;
        assert after.posts[id].slug == base;
      }
    }
    assert Create(fold, after, second, d, false, now).Ok?;
    CreatedEventSlug(fold, after, second, d, false, now);
    AbcTexts(fold);
  }
}
