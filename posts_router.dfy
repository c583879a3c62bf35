/** The posts router of the blog API: who may read, create, change and delete a post,
    and what each request does to the post collection. The collection is an in-memory
    map from post id to post; the authenticated caller is a parameter. */
module PostsRouter {
  import opened Wrappers

  type PostId = string
  type UserId = string

  /** A stored post. `author` is the principal that created it. */
  datatype Post = Post(title: string, content: string, author: UserId, published: bool, createdAt: int)

  /** The JSON request body of a create or an update; a missing field is `None`. */
  datatype Body = Body(title: Option<string>, content: Option<string>, published: Option<bool>)

  /** A post together with its id, as the store returns it from a query. */
  datatype PostDoc = PostDoc(id: PostId, post: Post)

  type Store = map<PostId, Post>

  /** The HTTP status of a request and the collection it leaves behind. */
  datatype Outcome = Outcome(status: int, store: Store)

  /** The two queries the router runs: `{published: true}` and `{author: caller}`. */
  datatype Filter = PublishedOnly | AuthoredBy(user: UserId)

  const OK := 200
  const CREATED := 201
  const BAD_REQUEST := 400
  const FORBIDDEN := 403
  const NOT_FOUND := 404
  const SERVER_ERROR := 500

  /** JavaScript's `!field` for a string-valued body field: absent or the empty string. */
  predicate Falsy(field: Option<string>)
  {
    field.None? || field.value == ""
  }

  /** The ownership check shared by update and delete. */
  predicate IsAuthor(caller: UserId, post: Post)
  {
    caller == post.author
  }

  predicate Matches(f: Filter, post: Post)
  {
    match f
    case PublishedOnly => post.published
    case AuthoredBy(u) => post.author == u
  }

  /** Every entry is a stored post matching `f`, every matching stored post is listed
      exactly once, and the list is newest first. */
  ghost predicate Listing(store: Store, f: Filter, docs: seq<PostDoc>)
  {
    && (forall d :: d in docs ==> d.id in store && d.post == store[d.id] && Matches(f, d.post))
    && (forall id :: id in store && Matches(f, store[id]) ==> PostDoc(id, store[id]) in docs)
    && DistinctIds(docs)
    && NewestFirst(docs)
  }

  ghost predicate DistinctIds(docs: seq<PostDoc>)
  {
    forall i, j :: 0 <= i < j < |docs| ==> docs[i].id != docs[j].id
  }

  ghost predicate NewestFirst(docs: seq<PostDoc>)
  {
    forall i, j :: 0 <= i < j < |docs| ==> docs[i].post.createdAt >= docs[j].post.createdAt
  }

  /** Inserts `d` into a newest-first list, before the first entry that is not newer. */
  function InsertNewestFirst(docs: seq<PostDoc>, d: PostDoc): (r: seq<PostDoc>)
    ensures |r| == |docs| + 1
    ensures forall x :: x in r <==> x == d || x in docs
    ensures multiset(r) == multiset(docs) + multiset{d}
  {
    if docs == [] || docs[0].post.createdAt <= d.post.createdAt then [d] + docs
    else
      assert docs == [docs[0]] + docs[1..];
      [docs[0]] + InsertNewestFirst(docs[1..], d)
  }

  lemma {:induction false} InsertKeepsNewestFirst(docs: seq<PostDoc>, d: PostDoc)
    requires NewestFirst(docs)
    ensures NewestFirst(InsertNewestFirst(docs, d))
  {
    var r := InsertNewestFirst(docs, d);
    if docs == [] || docs[0].post.createdAt <= d.post.createdAt {
      forall j | 0 < j < |r| ensures r[0].post.createdAt >= r[j].post.createdAt {
        assert r[j] == docs[j - 1];
      }
    } else {
      var rest := InsertNewestFirst(docs[1..], d);
      InsertKeepsNewestFirst(docs[1..], d);
      assert r == [docs[0]] + rest;
      forall j | 0 < j < |r| ensures r[0].post.createdAt >= r[j].post.createdAt {
        assert r[j] in rest;
      }
    }
  }

  lemma {:induction false} InsertKeepsDistinctIds(docs: seq<PostDoc>, d: PostDoc)
    requires DistinctIds(docs)
    requires forall x :: x in docs ==> x.id != d.id
    ensures DistinctIds(InsertNewestFirst(docs, d))
  {
    var r := InsertNewestFirst(docs, d);
    if docs == [] || docs[0].post.createdAt <= d.post.createdAt {
      forall j | 0 < j < |r| ensures r[0].id != r[j].id {
        assert r[j] == docs[j - 1];
      }
    } else {
      var rest := InsertNewestFirst(docs[1..], d);
      InsertKeepsDistinctIds(docs[1..], d);
      assert r == [docs[0]] + rest;
      forall j | 0 < j < |r| ensures r[0].id != r[j].id {
        assert r[j] in rest;
      }
    }
  }

  /** The post a valid create builds: title and content must both be truthy, `published`
      defaults to false, and the author is the caller. `None` is the 400 answer. */
  function NewPost(body: Body, author: UserId, now: int): (r: Option<Post>)
    ensures r.None? <==> Falsy(body.title) || Falsy(body.content)
    ensures r.Some? ==> && r.value.title == body.title.value && r.value.content == body.content.value
                        && r.value.author == author && r.value.createdAt == now
                        && (r.value.published <==> body.published == Some(true))
  {
    if Falsy(body.title) || Falsy(body.content) then None
    else Some(Post(body.title.value, body.content.value, author, body.published.GetOr(false), now))
  }

  /** Partial update: each field present in the body overwrites the stored one, the others,
      the author and the creation time stay. A present empty string is not rejected. */
  function ApplyUpdate(post: Post, body: Body): (r: Post)
    ensures r.author == post.author && r.createdAt == post.createdAt
    ensures r.title == (if body.title.Some? then body.title.value else post.title)
    ensures r.content == (if body.content.Some? then body.content.value else post.content)
    ensures r.published == (if body.published.Some? then body.published.value else post.published)
  {
    post.(title := body.title.GetOr(post.title),
          content := body.content.GetOr(post.content),
          published := body.published.GetOr(post.published))
  }

  /** The lookup and ownership decision made before an update or a delete. */
  function MutationStatus(store: Store, caller: UserId, id: PostId): (r: int)
    ensures r == NOT_FOUND <==> id !in store
    ensures r == FORBIDDEN <==> id in store && !IsAuthor(caller, store[id])
    ensures r == OK <==> id in store && IsAuthor(caller, store[id])
  {
    if id !in store then NOT_FOUND
    else if !IsAuthor(caller, store[id]) then FORBIDDEN
    else OK
  }

  /** POST `/`: validate, then insert the new post under the id the store assigned. */
  function CreateOutcome(store: Store, caller: UserId, body: Body, id: PostId, now: int): (r: Outcome)
    ensures r.status == BAD_REQUEST <==> Falsy(body.title) || Falsy(body.content)
    ensures r.status != CREATED ==> r.store == store
    ensures r.status == CREATED <==> !Falsy(body.title) && !Falsy(body.content) && id !in store
    ensures r.status == CREATED ==>
              && r.store.Keys == store.Keys + {id}
              && (forall k :: k in store ==> r.store[k] == store[k])
              && r.store[id].author == caller
              && r.store[id].createdAt == now
              && r.store[id].title == body.title.value
              && r.store[id].content == body.content.value
              && (r.store[id].published <==> body.published == Some(true))
              && (body.published.None? ==> !r.store[id].published)
    ensures r.status == CREATED ==> NewPost(body, caller, now).Some? && r.store[id] == NewPost(body, caller, now).value
  {
    match NewPost(body, caller, now)
    case None => Outcome(BAD_REQUEST, store)
    case Some(post) =>
      // a taken id makes the store refuse the insert (a duplicate-key error)
      if id in store then Outcome(SERVER_ERROR, store)
      else Outcome(CREATED, store[id := post])
  }

  /** PUT `/:id`: 404 for a missing post, 403 for a caller who is not its author,
      otherwise the partial update of that one post. */
  function UpdateOutcome(store: Store, caller: UserId, id: PostId, body: Body): (r: Outcome)
    ensures r.status == MutationStatus(store, caller, id)
    ensures r.status != OK ==> r.store == store
    ensures r.store.Keys == store.Keys
    ensures forall k :: k in store && k != id ==> r.store[k] == store[k]
    ensures forall k :: k in store ==> r.store[k].author == store[k].author
    ensures r.status == OK ==> r.store[id] == ApplyUpdate(store[id], body)
  {
    var status := MutationStatus(store, caller, id);
    if status != OK then Outcome(status, store)
    else Outcome(OK, store[id := ApplyUpdate(store[id], body)])
  }

  /** DELETE `/:id`: 404 for a missing post, 403 for a caller who is not its author,
      otherwise that one post is removed. */
  function DeleteOutcome(store: Store, caller: UserId, id: PostId): (r: Outcome)
    ensures r.status == MutationStatus(store, caller, id)
    ensures r.status != OK ==> r.store == store
    ensures r.status == OK ==> r.store.Keys == store.Keys - {id}
    ensures forall k :: k in r.store ==> k in store && r.store[k] == store[k]
  {
    var status := MutationStatus(store, caller, id);
    if status != OK then Outcome(status, store)
    else Outcome(OK, store - {id})
  }

  /** A delete that succeeded cannot succeed again: the second one finds nothing. */
  lemma DeleteTwiceNotFound(store: Store, caller: UserId, id: PostId)
    requires DeleteOutcome(store, caller, id).status == OK
    ensures DeleteOutcome(DeleteOutcome(store, caller, id).store, caller, id).status == NOT_FOUND
  {
  }

  /** Applying the same body twice is the same as applying it once. */
  lemma UpdateIdempotent(post: Post, body: Body)
    ensures ApplyUpdate(ApplyUpdate(post, body), body) == ApplyUpdate(post, body)
  {
  }

  /** An empty body changes nothing. */
  lemma EmptyUpdateIsIdentity(post: Post)
    ensures ApplyUpdate(post, Body(None, None, None)) == post
  {
  }

  /** The body that results from sending `first` and then `second`: latest present field wins. */
  function Merge(first: Body, second: Body): (r: Body)
    ensures second.title.Some? ==> r.title == second.title
    ensures second.title.None? ==> r.title == first.title
    ensures second.content.Some? ==> r.content == second.content
    ensures second.content.None? ==> r.content == first.content
    ensures second.published.Some? ==> r.published == second.published
    ensures second.published.None? ==> r.published == first.published
  {
    Body(if second.title.Some? then second.title else first.title,
         if second.content.Some? then second.content else first.content,
         if second.published.Some? then second.published else first.published)
  }

  /** Two partial updates in a row amount to one update with the merged body. */
  lemma UpdatesCompose(post: Post, first: Body, second: Body)
    ensures ApplyUpdate(ApplyUpdate(post, first), second) == ApplyUpdate(post, Merge(first, second))
  {
  }

  /** The post collection behind the router. */
  class PostStore {
    var posts: Store

    constructor ()
      ensures posts == map[]
    {
      posts := map[];
    }

    /** The store's `find(filter).sort({createdAt: -1})`. */
    method Find(f: Filter) returns (docs: seq<PostDoc>)
      ensures Listing(posts, f, docs)
    {
      var remaining := posts.Keys;
      docs := [];
      while remaining != {}
        invariant remaining <= posts.Keys
        invariant forall d :: d in docs ==>
                    d.id in posts && d.id !in remaining && d.post == posts[d.id] && Matches(f, d.post)
        invariant forall id :: id in posts && id !in remaining && Matches(f, posts[id]) ==>
                    PostDoc(id, posts[id]) in docs
        invariant DistinctIds(docs)
        invariant NewestFirst(docs)
        decreases remaining
      {
        var id :| id in remaining;
        if Matches(f, posts[id]) {
          InsertKeepsNewestFirst(docs, PostDoc(id, posts[id]));
          InsertKeepsDistinctIds(docs, PostDoc(id, posts[id]));
          docs := InsertNewestFirst(docs, PostDoc(id, posts[id]));
        }
        remaining := remaining - {id};
      }
    }

    /** GET `/`: every published post, newest first. */
    method ListPublished() returns (status: int, docs: seq<PostDoc>)
      ensures status == OK
      ensures Listing(posts, PublishedOnly, docs)
    {
      docs := Find(PublishedOnly);
      status := OK;
    }

    /** GET `/:id`: the post, or 404. */
    method GetPost(id: PostId) returns (status: int, post: Option<Post>)
      ensures id in posts ==> status == OK && post == Some(posts[id])
      ensures id !in posts ==> status == NOT_FOUND && post == None
    {
      if id !in posts {
        return NOT_FOUND, None;
      }
      status, post := OK, Some(posts[id]);
    }

    /** GET `/user/my-posts`: every post of the caller, drafts included, newest first. */
    method ListMyPosts(caller: UserId) returns (status: int, docs: seq<PostDoc>)
      ensures status == OK
      ensures Listing(posts, AuthoredBy(caller), docs)
    {
      docs := Find(AuthoredBy(caller));
      status := OK;
    }

    /** POST `/`: `id` and `now` are the id and creation time the store assigns. */
    method CreatePost(caller: UserId, body: Body, id: PostId, now: int) returns (status: int, created: Option<PostDoc>)
      modifies this
      ensures Outcome(status, posts) == CreateOutcome(old(posts), caller, body, id, now)
      ensures created == if status == CREATED then Some(PostDoc(id, posts[id])) else None
    {
      var title, content := body.title, body.content;
      var published := body.published.GetOr(false);
      if Falsy(title) || Falsy(content) {
        return BAD_REQUEST, None;
      }
      var post := Post(title.value, content.value, caller, published, now);
      if id in posts {
        return SERVER_ERROR, None;
      }
      posts := posts[id := post];
      status, created := CREATED, Some(PostDoc(id, post));
    }

    /** PUT `/:id`: the fetched post is changed field by field, then written back. */
    method UpdatePost(caller: UserId, id: PostId, body: Body) returns (status: int, updated: Option<Post>)
      modifies this
      ensures Outcome(status, posts) == UpdateOutcome(old(posts), caller, id, body)
      ensures updated == if status == OK then Some(posts[id]) else None
    {
      var title, content, published := body.title, body.content, body.published;
      if id !in posts {
        return NOT_FOUND, None;
      }
      var post := posts[id];
      if !IsAuthor(caller, post) {
        return FORBIDDEN, None;
      }
      if title.Some? { post := post.(title := title.value); }
      if content.Some? { post := post.(content := content.value); }
      if published.Some? { post := post.(published := published.value); }
      posts := posts[id := post];
      status, updated := OK, Some(post);
    }

    /** DELETE `/:id`. */
    method DeletePost(caller: UserId, id: PostId) returns (status: int)
      modifies this
      ensures Outcome(status, posts) == DeleteOutcome(old(posts), caller, id)
    {
      if id !in posts {
        return NOT_FOUND;
      }
      if !IsAuthor(caller, posts[id]) {
        return FORBIDDEN;
      }
      posts := posts - {id};
      status := OK;
    }
  }
}
