/** The dashboard page's local list of the signed-in user's posts, and how it is
    rewritten after a delete or a publish toggle that the server accepted. */
module DashboardPage {
  import opened Wrappers
  import PostsRouter

  /** A post as the page holds it (the JSON the API returns, without the author). */
  datatype ClientPost = ClientPost(id: string, title: string, content: string, published: bool, createdAt: int)

  /** The page's copy of a stored post. */
  function View(id: PostsRouter.PostId, post: PostsRouter.Post): (r: ClientPost)
    ensures r.id == id && r.title == post.title && r.content == post.content
    ensures r.published == post.published && r.createdAt == post.createdAt
  {
    ClientPost(id, post.title, post.content, post.published, post.createdAt)
  }

  function ViewAll(docs: seq<PostsRouter.PostDoc>): (r: seq<ClientPost>)
    ensures |r| == |docs|
    ensures forall i :: 0 <= i < |docs| ==> r[i] == View(docs[i].id, docs[i].post)
  {
    seq(|docs|, i requires 0 <= i < |docs| => View(docs[i].id, docs[i].post))
  }

  /** `posts.filter(post => post._id !== postId)`. */
  function WithoutPost(posts: seq<ClientPost>, postId: string): (r: seq<ClientPost>)
    ensures |r| <= |posts|
    ensures forall p :: p in r <==> p in posts && p.id != postId
  {
    if posts == [] then []
    else (if posts[0].id == postId then [] else [posts[0]]) + WithoutPost(posts[1..], postId)
  }

  /** `posts.map(post => post._id === postId ? { ...post, published } : post)`. */
  function Toggled(posts: seq<ClientPost>, postId: string, currentStatus: bool): (r: seq<ClientPost>)
    ensures |r| == |posts|
    ensures forall i :: 0 <= i < |r| ==> posts[i].id != postId ==> r[i] == posts[i]
    ensures forall i :: 0 <= i < |r| ==> posts[i].id == postId ==>
              && r[i].published == !currentStatus
              && r[i].id == posts[i].id && r[i].title == posts[i].title
              && r[i].content == posts[i].content && r[i].createdAt == posts[i].createdAt
  {
    seq(|posts|, i requires 0 <= i < |posts| =>
      if posts[i].id == postId then posts[i].(published := !currentStatus) else posts[i])
  }

  /** With no post of that id, the filter keeps the list as it is. */
  lemma {:induction false} WithoutAbsentIsIdentity(posts: seq<ClientPost>, postId: string)
    requires forall p :: p in posts ==> p.id != postId
    ensures WithoutPost(posts, postId) == posts
  {
    if posts != [] {
      WithoutAbsentIsIdentity(posts[1..], postId);
    }
  }

  /** The filter works piecewise, so the kept posts keep their relative order. */
  lemma {:induction false} WithoutPostAppend(a: seq<ClientPost>, b: seq<ClientPost>, postId: string)
    ensures WithoutPost(a + b, postId) == WithoutPost(a, postId) + WithoutPost(b, postId)
  {
    if a != [] {
      assert (a + b)[1..] == a[1..] + b;
      WithoutPostAppend(a[1..], b, postId);
    } else {
      assert a + b == b;
    }
  }

  /** Toggling back with the new status restores the list. */
  lemma ToggleTwiceRestores(posts: seq<ClientPost>, postId: string, currentStatus: bool)
    requires forall p :: p in posts && p.id == postId ==> p.published == currentStatus
    ensures Toggled(Toggled(posts, postId, currentStatus), postId, !currentStatus) == posts
  {
  }

  /** The body the page sends for a toggle: `{ published: !currentStatus }`. */
  function TogglePatch(currentStatus: bool): (r: PostsRouter.Body)
    ensures r.title.None? && r.content.None? && r.published == Some(!currentStatus)
  {
    PostsRouter.Body(None, None, Some(!currentStatus))
  }

  /** The page's local edit of a toggled post is the server's partial update with the
      body the page sent. */
  lemma ToggleAgreesWithServer(posts: seq<ClientPost>, i: int, post: PostsRouter.Post, currentStatus: bool)
    requires 0 <= i < |posts|
    requires posts[i] == View(posts[i].id, post)
    ensures Toggled(posts, posts[i].id, currentStatus)[i]
            == View(posts[i].id, PostsRouter.ApplyUpdate(post, TogglePatch(currentStatus)))
  {
  }

  /** Every post the page shows is the server's current copy of that post. */
  ghost predicate Mirrors(posts: seq<ClientPost>, store: PostsRouter.Store)
  {
    forall p :: p in posts ==> p.id in store && p == View(p.id, store[p.id])
  }

  /** A freshly fetched list of the caller's posts mirrors the collection. */
  lemma FetchedListMirrors(store: PostsRouter.Store, caller: PostsRouter.UserId, docs: seq<PostsRouter.PostDoc>)
    requires PostsRouter.Listing(store, PostsRouter.AuthoredBy(caller), docs)
    ensures Mirrors(ViewAll(docs), store)
  {
  }

  /** After the server accepted a delete, the filtered list still mirrors the collection
      and shows no post with that id. */
  lemma DeleteKeepsMirror(posts: seq<ClientPost>, store: PostsRouter.Store, caller: PostsRouter.UserId, postId: string)
    requires Mirrors(posts, store)
    requires PostsRouter.DeleteOutcome(store, caller, postId).status == PostsRouter.OK
    ensures Mirrors(WithoutPost(posts, postId), PostsRouter.DeleteOutcome(store, caller, postId).store)
    ensures forall p :: p in WithoutPost(posts, postId) ==> p.id != postId
  {
  }

  /** After the server accepted a toggle, the toggled list still mirrors the collection. */
  lemma ToggleKeepsMirror(posts: seq<ClientPost>, store: PostsRouter.Store, caller: PostsRouter.UserId,
                          postId: string, currentStatus: bool)
    requires Mirrors(posts, store)
    requires PostsRouter.UpdateOutcome(store, caller, postId, TogglePatch(currentStatus)).status == PostsRouter.OK
    ensures Mirrors(Toggled(posts, postId, currentStatus),
                    PostsRouter.UpdateOutcome(store, caller, postId, TogglePatch(currentStatus)).store)
  {
  }

  /** The dashboard component's state. */
  class Dashboard {
    var posts: seq<ClientPost>
    var loading: bool

    constructor ()
      ensures posts == [] && loading
    {
      posts, loading := [], true;
    }

    /** `fetchUserPosts`: `response` is the fetched list, `None` when the request failed. */
    method FetchUserPosts(response: Option<seq<ClientPost>>)
      modifies this
      ensures posts == if response.Some? then response.value else old(posts)
      ensures !loading
    {
      if response.Some? {
        posts := response.value;
      }
      loading := false;
    }

    /** `handleDelete`: `confirmed` is the answer to the confirmation dialog, `succeeded`
        whether the DELETE request resolved (rather than threw). */
    method HandleDelete(postId: string, confirmed: bool, succeeded: bool)
      modifies this
      ensures posts == if confirmed && succeeded then WithoutPost(old(posts), postId) else old(posts)
      ensures forall p :: confirmed && succeeded && p in posts ==> p.id != postId
      ensures loading == old(loading)
    {
      if confirmed {
        if succeeded {
          posts := WithoutPost(posts, postId);
        }
      }
    }

    /** `togglePublished`: `succeeded` is whether the PUT request resolved. */
    method TogglePublished(postId: string, currentStatus: bool, succeeded: bool)
      modifies this
      ensures posts == if succeeded then Toggled(old(posts), postId, currentStatus) else old(posts)
      ensures loading == old(loading)
    {
      if succeeded {
        posts := Toggled(posts, postId, currentStatus);
      }
    }
  }
}
