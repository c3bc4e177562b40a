/** post-service as it runs: the Post aggregate and the command handler, proved against PostService. */
module PostHandlers {
  import opened Wrappers
  import opened Text
  import opened Slug
  import opened PostService
  import PostLaws

  /** The aggregate, with the events it has recorded since it was loaded. */
  class Post {
    const id: Id
    var title: string
    var slug: string
    var summary: string
    var content: string
    var published: bool
    var categoryId: Option<Id>
    var tags: seq<string>
    var commentCount: nat
    var publishedAt: Option<Time>
    var events: seq<PostEvent>

    function Row(): PostRow
      reads this
    {
      PostRow(title, slug, summary, content, published, categoryId, tags, commentCount, publishedAt)
    }

    constructor Load(id: Id, row: PostRow)
      ensures this.id == id && Row() == row && events == []
    {
      this.id := id;
      title, slug, summary, content := row.title, row.slug, row.summary, row.content;
      published, categoryId, tags := row.published, row.categoryId, row.tags;
      commentCount, publishedAt, events := row.commentCount, row.publishedAt, [];
    }

    static method Create(fold: AsciiFold, id: Id, d: Draft) returns (post: Post?, error: PostError)
      ensures post == null <==> !ValidText(d) || Created(fold, d).slug == []
      ensures post == null ==> error == if !ValidText(d) then InvalidText else EmptySlug
      ensures post != null ==> fresh(post) && post.id == id && post.Row() == Created(fold, d)
      ensures post != null ==> post.events == [PostCreated(PayloadOf(id, Created(fold, d)))]
      ensures post != null ==> PostLaws.Shows(fold, post.Row(), d) && post.slug != []
                               && !post.published && post.publishedAt.None? && post.commentCount == 0
    {
      post, error := null, InvalidText;
      if !ValidText(d) {
        return;
      }
      var tags := NormalizeTags(fold, d.tags);
      var slug := Slugify(fold, if Given(d.slug) then d.slug.value else d.title, POST_SLUG_LENGTH);
      if slug == [] {
        error := EmptySlug;
        return;
      }
      var row := PostRow(Trim(d.title), slug, Trim(d.summary), d.content, false, d.categoryId, tags, 0, None);
      post := new Post.Load(id, row);
      post.Record(PostCreated(PayloadOf(id, post.Row())));
    }

    method Record(e: PostEvent)
      modifies this`events
      ensures events == old(events) + [e]
    {
      events := events + [e];
    }

    method Update(fold: AsciiFold, d: Draft) returns (valid: bool)
      modifies this
      ensures valid == ValidText(d)
      ensures !valid ==> Row() == old(Row()) && events == old(events)
      ensures valid ==> Row() == Updated(fold, old(Row()), d)
      ensures valid ==> events == old(events) + [PostUpdated(PayloadOf(id, Row()))]
      ensures valid ==> PostLaws.Shows(fold, Row(), d) && (!Given(d.slug) ==> slug == old(slug))
      ensures published == old(published) && publishedAt == old(publishedAt) && commentCount == old(commentCount)
    {
      valid := ValidText(d);
      if valid {
        ghost var target := Updated(fold, Row(), d);
        var normalized := NormalizeTags(fold, d.tags);
        var newSlug := slug;
        if Given(d.slug) {
          newSlug := Slugify(fold, d.slug.value, POST_SLUG_LENGTH);
        }
        Assign(Trim(d.title), Trim(d.summary), d.content, newSlug, d.categoryId, normalized);
        assert Row() == target;
        Record(PostUpdated(PayloadOf(id, Row())));
      }
    }

    method Assign(title: string, summary: string, content: string, slug: string, categoryId: Option<Id>,
                  tags: seq<string>)
      modifies this`title, this`summary, this`content, this`slug, this`categoryId, this`tags
      ensures Row() == old(Row()).(title := title, summary := summary, content := content, slug := slug,
                                   categoryId := categoryId, tags := tags)
    {
      this.title, this.summary, this.content := title, summary, content;
      this.slug, this.categoryId, this.tags := slug, categoryId, tags;
    }

    method ChangeSlug(s: string)
      modifies this`slug
      ensures Row() == old(Row()).(slug := s)
    {
      slug := s;
    }

    method Publish(now: Time) returns (changed: bool)
      modifies this
      ensures changed == !old(published)
      ensures Row() == if changed then Published(old(Row()), now) else old(Row())
      ensures events == old(events) + if changed then [PostPublished(PayloadOf(id, Row()))] else []
    {
      changed := !published;
      if changed {
        published := true;
        if publishedAt.None? {
          publishedAt := Some(now);
        }
        Record(PostPublished(PayloadOf(id, Row())));
      }
    }

    method Unpublish() returns (changed: bool)
      modifies this
      ensures changed == old(published)
      ensures Row() == old(Row()).(published := false)
      ensures events == old(events) + if changed then [PostUnpublished(PayloadOf(id, Row()))] else []
    {
      changed := published;
      if changed {
        published := false;
        Record(PostUnpublished(PayloadOf(id, Row())));
      }
    }

    method MarkDeleted()
      modifies this`events
      ensures events == old(events) + [PostDeleted(id, slug)]
    {
      Record(PostDeleted(id, slug));
    }

    method SyncCommentCount(count: int)
      modifies this`commentCount
      ensures Row() == old(Row()).(commentCount := if count < 0 then 0 else count)
    {
      commentCount := if count < 0 then 0 else count;
    }
  }

  /** Database, outbox and number of cache bumps. */
  datatype State = State(db: PostDb, outbox: seq<PostEvent>, bumps: nat)

  /** A committed command appends its events and bumps the cache once; a failed one changes nothing. */
  function After(s: State, outcome: Result<Effect, PostError>): State {
    match outcome
    case Ok(e) => State(e.db, s.outbox + e.events, s.bumps + 1)
    case Err(_) => s
  }

  /** The handler's new state and reply are those of the specified outcome. */
  predicate Answers(before: State, outcome: Result<Effect, PostError>, after: State, r: Result<(), PostError>) {
    && after == After(before, outcome)
    && r == (match outcome case Ok(_) => Ok(()) case Err(x) => Err(x))
  }

  class PostCommandHandler {
    var posts: map<Id, PostRow>
    var categories: map<Id, Category>
    var outbox: seq<PostEvent>
    var bumps: nat

    function Db(): PostDb
      reads this
    {
      PostDb(posts, categories)
    }

    function View(): State
      reads this
    {
      State(Db(), outbox, bumps)
    }

    /** Writes the aggregate's row and its events in one transaction, then bumps the cache. */
    method Commit(post: Post)
      modifies this, post
      ensures View() == State(PostDb(old(posts)[post.id := old(post.Row())], old(categories)),
                old(outbox) + old(post.events), old(bumps) + 1)
      ensures post.events == []
    {
      posts := posts[post.id := post.Row()];
      outbox := outbox + post.events;
      post.events := [];
      bumps := bumps + 1;
    }

    method Create(fold: AsciiFold, id: Id, d: Draft, publish: bool, now: Time) returns (r: Result<(), PostError>)
      modifies this
      ensures Answers(old(View()), PostService.Create(fold, old(Db()), id, d, publish, now), View(), r)
      ensures bumps == old(bumps) + (if r.Ok? then 1 else 0) && (r.Err? ==> View() == old(View()))
      ensures r.Ok? ==> id in posts && PostLaws.Shows(fold, posts[id], d) && PostLaws.OnlyPost(old(Db()), Db(), id)
                        && FirstFree(Slugs(old(posts)), Slugify(fold, PostLaws.SlugSource(d), 180), posts[id].slug)
    {
      hide PostLaws.Shows, PostLaws.OnlyPost, FirstFree, FreeSlug, Slugify, Trim, NormalizedTags, ValidText;
      ghost var spec := PostService.Create(fold, Db(), id, d, publish, now);
      if Given(d.categoryId) && d.categoryId.value !in categories {
        return Err(CategoryMissing);
      }
      var post, error := Post.Create(fold, id, d);
      if post == null {
        return Err(error);
      }
      var unique := UniqueSlug(Slugs(posts), post.slug);
      ghost var draft := post.Row();
      post.ChangeSlug(unique);
      if publish {
        var _ := post.Publish(now);
      }
      if post.categoryId.Some? && post.categoryId.value !in categories {
        assert spec == Err(ForeignKeyViolation);
        return Err(ForeignKeyViolation);
      }
      assert draft == Created(fold, d);
      assert spec.Ok? && spec.value.events == post.events && spec.value.db.posts == posts[id := post.Row()];
      PostLaws.CreateEffect(fold, Db(), id, d, publish, now);
      Commit(post);
      r := Ok(());
    }

    method Update(fold: AsciiFold, id: Id, d: Draft) returns (r: Result<(), PostError>)
      modifies this
      ensures Answers(old(View()), PostService.Update(fold, old(Db()), id, d), View(), r)
      ensures bumps == old(bumps) + (if r.Ok? then 1 else 0) && (r.Err? ==> View() == old(View()))
      ensures r.Ok? ==> id in posts && PostLaws.Shows(fold, posts[id], d) && PostLaws.OnlyPost(old(Db()), Db(), id)
    {
      ghost var before := Db();
      if id !in posts {
        return Err(PostMissing);
      }
      var post := new Post.Load(id, posts[id]);
      if Given(d.categoryId) && d.categoryId.value !in categories {
        return Err(CategoryMissing);
      }
      r := UpdateLoaded(fold, post, d);
      if r.Ok? {
        PostLaws.UpdateEffect(fold, before, id, d);
      }
    }

    method UpdateLoaded(fold: AsciiFold, post: Post, d: Draft) returns (r: Result<(), PostError>)
      requires post.events == []
      modifies this, post
      ensures Answers(old(View()), Revised(fold, old(Db()), post.id, old(post.Row()), d), View(), r)
      ensures bumps == old(bumps) + (if r.Ok? then 1 else 0) && (r.Err? ==> View() == old(View()))
    {
      hide ValidText, Updated, UpdatedOutcome;
      var valid := post.Update(fold, d);
      if !valid {
        return Err(InvalidText);
      }
      assert post.events == [PostUpdated(PayloadOf(post.id, post.Row()))];
      r := StoreUpdated(post, Given(d.slug));
    }

    /** The rest of an update: slug conflict, foreign key, commit. */
    method StoreUpdated(post: Post, slugGiven: bool) returns (r: Result<(), PostError>)
      modifies this, post
      ensures Answers(old(View()), UpdatedOutcome(old(Db()), post.id, old(post.Row()), slugGiven, old(post.events)),
                View(), r)
    {
      if slugGiven && SlugExists(posts, post.slug, post.id) {
        return Err(SlugTaken);
      }
      if post.categoryId.Some? && post.categoryId.value !in categories {
        return Err(ForeignKeyViolation);
      }
      Commit(post);
      r := Ok(());
    }

    method Publish(id: Id, now: Time) returns (r: Result<(), PostError>)
      modifies this
      ensures Answers(old(View()), PostService.Publish(old(Db()), id, now), View(), r)
      ensures bumps == old(bumps) + (if r.Ok? then 1 else 0) && (r.Err? ==> View() == old(View()))
    {
      if id !in posts {
        return Err(PostMissing);
      }
      var post := new Post.Load(id, posts[id]);
      var changed := post.Publish(now);
      if !changed {
        return Err(AlreadyPublished);
      }
      Commit(post);
      r := Ok(());
    }

    method Unpublish(id: Id) returns (r: Result<(), PostError>)
      modifies this
      ensures Answers(old(View()), PostService.Unpublish(old(Db()), id), View(), r)
      ensures bumps == old(bumps) + (if r.Ok? then 1 else 0) && (r.Err? ==> View() == old(View()))
    {
      if id !in posts {
        return Err(PostMissing);
      }
      var post := new Post.Load(id, posts[id]);
      var changed := post.Unpublish();
      if !changed {
        return Err(AlreadyDraft);
      }
      Commit(post);
      r := Ok(());
    }

    method Delete(id: Id) returns (r: Result<(), PostError>)
      modifies this
      ensures Answers(old(View()), PostService.Delete(old(Db()), id), View(), r)
      ensures bumps == old(bumps) + (if r.Ok? then 1 else 0) && (r.Err? ==> View() == old(View()))
    {
      if id !in posts {
        return Err(PostMissing);
      }
      var post := new Post.Load(id, posts[id]);
      post.MarkDeleted();
      posts := posts - {id};
      outbox := outbox + post.events;
      bumps := bumps + 1;
      r := Ok(());
    }

    /** A missing post ends the handler before the commit, so nothing is bumped. */
    method SyncCommentCount(id: Id, count: int)
      modifies this
      ensures Db() == PostService.SyncCommentCount(old(Db()), id, count)
      ensures outbox == old(outbox)
      ensures bumps == old(bumps) + if id in old(posts) then 1 else 0
    {
      if id in posts {
        var post := new Post.Load(id, posts[id]);
        post.SyncCommentCount(count);
        Commit(post);
      }
    }

    method CreateCategory(fold: AsciiFold, id: Id, name: string) returns (r: Result<(), PostError>)
      modifies this
      ensures Answers(old(View()), AddCategory(fold, old(Db()), id, name), View(), r)
      ensures bumps == old(bumps) + (if r.Ok? then 1 else 0) && (r.Err? ==> View() == old(View()))
    {
      hide Trim, Slugify, CategorySlugExists;
      if !(2 <= |Trim(name)| <= 60) {
        return Err(InvalidText);
      }
      var category := Category(Trim(name), Slugify(fold, name, CATEGORY_SLUG_LENGTH));
      if CategorySlugExists(Db(), category.slug) {
        return Err(CategoryTaken);
      }
      categories := categories[id := category];
      bumps := bumps + 1;
      r := Ok(());
    }

    method DeleteCategory(id: Id) returns (r: Result<(), PostError>)
      modifies this
      ensures Answers(old(View()), RemoveCategory(old(Db()), id), View(), r)
      ensures bumps == old(bumps) + (if r.Ok? then 1 else 0) && (r.Err? ==> View() == old(View()))
    {
      if id !in categories {
        return Err(CategoryMissing);
      }
      if CategoryUsed(Db(), id) {
        return Err(CategoryInUse);
      }
      categories := categories - {id};
      bumps := bumps + 1;
      r := Ok(());
    }
  }
}
