/** Sequences of requests against the posts router, and what the ownership rules
    guarantee over any such sequence. */
module PostLifecycle {
  import opened PostsRouter

  /** One request to the router; `caller` is the authenticated principal. */
  datatype Request =
    | ListPublishedReq
    | GetPostReq(id: PostId)
    | ListMyPostsReq(caller: UserId)
    | CreatePostReq(caller: UserId, body: Body, id: PostId, now: int)
    | UpdatePostReq(caller: UserId, id: PostId, body: Body)
    | DeletePostReq(caller: UserId, id: PostId)

  predicate IsRead(req: Request)
  {
    req.ListPublishedReq? || req.GetPostReq? || req.ListMyPostsReq?
  }

  /** The request is an authenticated one made by `u`. */
  predicate IssuedBy(req: Request, u: UserId)
  {
    !req.ListPublishedReq? && !req.GetPostReq? && req.caller == u
  }

  /** The status and collection after one request. */
  function Step(store: Store, req: Request): (r: Outcome)
    ensures IsRead(req) ==> r.store == store
    ensures r.status != OK && r.status != CREATED ==> r.store == store
  {
    match req
    case ListPublishedReq => Outcome(OK, store)
    case GetPostReq(id) => Outcome(if id in store then OK else NOT_FOUND, store)
    case ListMyPostsReq(_) => Outcome(OK, store)
    case CreatePostReq(caller, body, id, now) => CreateOutcome(store, caller, body, id, now)
    case UpdatePostReq(caller, id, body) => UpdateOutcome(store, caller, id, body)
    case DeletePostReq(caller, id) => DeleteOutcome(store, caller, id)
  }

  /** The collection after the requests in order. */
  function Run(store: Store, reqs: seq<Request>): Store
  {
    if reqs == [] then store
    else Step(Run(store, reqs[..|reqs| - 1]), reqs[|reqs| - 1]).store
  }

  /** Some request of the sequence is a create of `id` by `u` that the router answered
      with 201, given the collection the earlier requests left. */
  ghost predicate CreatedBy(store: Store, reqs: seq<Request>, id: PostId, u: UserId)
  {
    exists i :: && 0 <= i < |reqs| && reqs[i].CreatePostReq? && reqs[i].id == id && reqs[i].caller == u
                && Step(Run(store, reqs[..i]), reqs[i]).status == CREATED
  }

  /** A post that existed before a request is changed or removed by it only when the
      request is its author's. */
  lemma OnlyAuthorMutates(store: Store, req: Request, id: PostId)
    requires id in store
    requires !IssuedBy(req, store[id].author)
    ensures id in Step(store, req).store && Step(store, req).store[id] == store[id]
  {
  }

  /** While a post exists its author does not change, and a post that did not exist
      before a request was created by it, with the caller as author. */
  lemma StepAuthorOrigin(store: Store, req: Request, id: PostId)
    requires id in Step(store, req).store
    ensures id in store ==> Step(store, req).store[id].author == store[id].author
    ensures id !in store ==> && req.CreatePostReq? && req.id == id && req.caller == Step(store, req).store[id].author
                             && Step(store, req).status == CREATED
  {
  }

  /** Over any sequence of requests none of which is made by a post's author, the post
      stays in the collection exactly as it was. */
  lemma {:induction false} UntouchedWithoutAuthor(store: Store, reqs: seq<Request>, id: PostId)
    requires id in store
    requires forall i :: 0 <= i < |reqs| ==> !IssuedBy(reqs[i], store[id].author)
    ensures id in Run(store, reqs) && Run(store, reqs)[id] == store[id]
  {
    if reqs != [] {
      var prefix := reqs[..|reqs| - 1];
      UntouchedWithoutAuthor(store, prefix, id);
      OnlyAuthorMutates(Run(store, prefix), reqs[|reqs| - 1], id);
    }
  }

  /** The author is set once: every post in the collection after any sequence of requests
      either was there before with the same author, or was created by its author in the
      sequence with a 201 answer. */
  lemma {:induction false} AuthorSetAtCreation(store: Store, reqs: seq<Request>, id: PostId)
    requires id in Run(store, reqs)
    ensures || (id in store && Run(store, reqs)[id].author == store[id].author)
            || CreatedBy(store, reqs, id, Run(store, reqs)[id].author)
  {
    if reqs != [] {
      var prefix, last := reqs[..|reqs| - 1], reqs[|reqs| - 1];
      var before := Run(store, prefix);
      StepAuthorOrigin(before, last, id);
      if id !in before {
        assert reqs[..|reqs| - 1] == prefix;
      } else {
        AuthorSetAtCreation(store, prefix, id);
        if CreatedBy(store, prefix, id, before[id].author) {
          var i :| && 0 <= i < |prefix| && prefix[i].CreatePostReq? && prefix[i].id == id
                   && prefix[i].caller == before[id].author
                   && Step(Run(store, prefix[..i]), prefix[i]).status == CREATED;
          assert reqs[i] == prefix[i] && reqs[..i] == prefix[..i];
        }
      }
    }
  }
}
