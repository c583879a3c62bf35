# Posts router and dashboard mirror of a Node/Next.js blog

This project models two pieces of a small blog application:

- the Express **posts router** of the API (`api/routes/posts.js`). It lists published posts, fetches one post, lists the caller's own posts, creates a post, partially updates a post and deletes a post. Update and delete have an ownership rule: only the post's author may do them.
- the **dashboard page** (`src/app/dashboard/page.tsx`). It keeps a local copy of the user's posts. After a delete or a publish toggle that the server accepted, it edits that copy in place of fetching it again.

The post collection is a Dafny `map` from post id to `Post` held in the class `PostsRouter.PostStore`. Each route is a method of that class and returns the HTTP status code. Each method that changes the collection is proved equal to a pure outcome function (`CreateOutcome`, `UpdateOutcome`, `DeleteOutcome`), and the lemmas are stated about those functions. `PostLifecycle` runs arbitrary sequences of requests through the same functions and proves the ownership guarantees over whole traces. The dashboard's list edits are the functions `WithoutPost` (its `filter`) and `Toggled` (its `map`). The component state is the class `DashboardPage.Dashboard`. Lemmas relate the local list to the server's collection.

Modelling choices:
- Post ids and user ids are strings compared by equality. This stands for the ObjectId `toString()` comparison.
- A request body is `Body(title, content, published)` whose fields are options, so an absent field (`undefined`) differs from a present empty string. JavaScript's `!title` on a string field is `Falsy`: absent, or `""`.
- The store assigns the new post's id and `createdAt`; both are parameters of `CreatePost`. If the id is already taken, the store refuses the insert and the route answers 500. This is the only 500 path modelled, and it keeps create total.
- `find(...).sort({createdAt: -1})` is the method `PostStore.Find`. Its result is specified only up to ties: it holds exactly the matching posts, each once, with `createdAt` non-increasing.
- The authenticated caller is a parameter. The dashboard's confirmation answer and whether the axios call resolved are boolean parameters.

## Model

| member | source | states |
|---|---|---|
| `PostsRouter.Falsy` | api/routes/posts.js:54 | holds exactly when a body field is absent or the empty string (JavaScript falsiness of a string) |
| `PostsRouter.IsAuthor` | api/routes/posts.js:89 | the ownership check: the caller is the post's stored author |
| `PostsRouter.Matches` | api/routes/posts.js:10 | definition of the two query filters: `{published: true}` and `{author: caller}` (line 39) |
| `PostsRouter.NewPost` | api/routes/posts.js:52-63 | rejects iff title or content is falsy; otherwise the post has the given title and content, the caller as author, the store's time, and is published only when the body says `published: true` (default false) |
| `PostsRouter.ApplyUpdate` | api/routes/posts.js:94-96 | each of title, content, published is overwritten exactly when present in the body, kept otherwise; author and createdAt never change; an empty string is accepted |
| `PostsRouter.MutationStatus` | api/routes/posts.js:84-91 | 404 iff the id is not stored, 403 iff stored but the caller is not its author, 200 iff the caller is the author |
| `PostsRouter.CreateOutcome` | api/routes/posts.js:52-71 | 400 iff title or content is falsy; any status other than 201 leaves the collection unchanged; 201 adds exactly the new id and keeps every other post; the stored post is the one `NewPost` builds: the body's title and content, the caller as author, the store's time, and `published` as given, false when omitted |
| `PostsRouter.UpdateOutcome` | api/routes/posts.js:80-104 | status is the 404/403/200 decision; on failure nothing changes; the key set and every other post are unchanged; no author ever changes; on success the post is the partial update |
| `PostsRouter.DeleteOutcome` | api/routes/posts.js:113-126 | status is the 404/403/200 decision; on failure nothing changes; on success exactly that id is removed and every remaining post is as before |
| `PostsRouter.DeleteTwiceNotFound` | api/routes/posts.js:113-124 | after a successful delete, deleting the same id again answers 404 |
| `PostsRouter.UpdateIdempotent` | api/routes/posts.js:94-96 | sending the same update body twice has the effect of sending it once |
| `PostsRouter.EmptyUpdateIsIdentity` | api/routes/posts.js:94-96 | an update body with no fields leaves the post as it is |
| `PostsRouter.UpdatesCompose` | api/routes/posts.js:94-96 | two partial updates in a row equal one update with the merged body, where the later present field wins |
| `PostsRouter.InsertNewestFirst` | api/routes/posts.js:12 | the result is the old entries plus the new one, as a multiset, so one longer and nothing lost or duplicated |
| `PostsRouter.InsertKeepsNewestFirst` | api/routes/posts.js:12 | inserting into a list ordered by createdAt non-increasing keeps it so ordered |
| `PostsRouter.InsertKeepsDistinctIds` | api/routes/posts.js:10-12 | inserting a post whose id is not yet listed keeps the ids distinct |
| `PostsRouter.PostStore.Find` | api/routes/posts.js:10-12 | the result lists every stored post matching the filter, only those, each once, as stored, newest first |
| `PostsRouter.PostStore.ListPublished` | api/routes/posts.js:10-14 | answers 200 with exactly the published posts, newest first, so never an unpublished one |
| `PostsRouter.PostStore.GetPost` | api/routes/posts.js:23-30 | answers 200 with the stored post when the id exists, 404 and no post otherwise |
| `PostsRouter.PostStore.ListMyPosts` | api/routes/posts.js:39-43 | answers 200 with exactly the caller's posts, drafts included, newest first |
| `PostsRouter.PostStore.CreatePost` | api/routes/posts.js:52-71 | status and new collection are those of `CreateOutcome`; the response carries the created post only on 201 |
| `PostsRouter.PostStore.UpdatePost` | api/routes/posts.js:80-104 | the field-by-field update yields the status and collection of `UpdateOutcome`; the response carries the updated post only on 200 |
| `PostsRouter.PostStore.DeletePost` | api/routes/posts.js:113-126 | status and new collection are those of `DeleteOutcome` |
| `PostLifecycle.Step` | api/routes/posts.js:8-130 | the three reads never change the collection, and no request that fails does |
| `PostLifecycle.OnlyAuthorMutates` | api/routes/posts.js:78-124 | a request not made by a post's author leaves that post in the collection unchanged |
| `PostLifecycle.StepAuthorOrigin` | api/routes/posts.js:58-63 | a request never changes the author of a post that exists before and after it; a post that did not exist before was made by this request, a create answered 201 whose caller is its author |
| `PostLifecycle.UntouchedWithoutAuthor` | api/routes/posts.js:78-124 | over any sequence of requests none of which is by the post's author, the post stays exactly as it was |
| `PostLifecycle.AuthorSetAtCreation` | api/routes/posts.js:58-96 | after any sequence of requests, every post's author is its original author, or the caller of a create of that id in the sequence that was answered 201 |
| `DashboardPage.View` | src/app/dashboard/page.tsx:9-16 | definition: the page's record of a stored post, with its id, title, content, published flag and creation time; what it guarantees is stated by the mirror lemmas below |
| `DashboardPage.ViewAll` | src/app/dashboard/page.tsx:30 | definition: the fetched list as records, in the server's order; `FetchedListMirrors` states what it guarantees |
| `DashboardPage.WithoutPost` | src/app/dashboard/page.tsx:42 | the list after a delete holds exactly the old posts whose id differs, so none with the deleted id |
| `DashboardPage.WithoutAbsentIsIdentity` | src/app/dashboard/page.tsx:42 | deleting an id that is not listed leaves the list unchanged |
| `DashboardPage.WithoutPostAppend` | src/app/dashboard/page.tsx:42 | the filter distributes over concatenation, so the kept posts keep their relative order |
| `DashboardPage.Toggled` | src/app/dashboard/page.tsx:55-57 | the length is kept; non-matching posts are unchanged; a matching post gets `published == !currentStatus` and keeps all other fields |
| `DashboardPage.ToggleTwiceRestores` | src/app/dashboard/page.tsx:55-57 | toggling back with the new status restores the original list |
| `DashboardPage.TogglePatch` | src/app/dashboard/page.tsx:52-54 | definition of the request body `{ published: !currentStatus }`; `ToggleAgreesWithServer` states what it guarantees |
| `DashboardPage.ToggleAgreesWithServer` | src/app/dashboard/page.tsx:52-57 | the locally toggled post equals the page's record of the server's partial update with the body sent |
| `DashboardPage.FetchedListMirrors` | src/app/dashboard/page.tsx:29-30 | a list fetched from my-posts shows every post exactly as the collection holds it |
| `DashboardPage.DeleteKeepsMirror` | src/app/dashboard/page.tsx:41-42 | after a delete the server accepted, the filtered list still matches the collection and shows no post with that id |
| `DashboardPage.ToggleKeepsMirror` | src/app/dashboard/page.tsx:52-57 | after a toggle the server accepted, the toggled list still matches the collection |
| `DashboardPage.Dashboard.constructor` | src/app/dashboard/page.tsx:19-20 | the component starts with an empty post list and loading set |
| `DashboardPage.Dashboard.FetchUserPosts` | src/app/dashboard/page.tsx:27-36 | the list becomes the fetched one, or stays as it was when the fetch failed; loading ends either way |
| `DashboardPage.Dashboard.HandleDelete` | src/app/dashboard/page.tsx:38-48 | a confirmed, successful delete filters the id out; a declined confirmation or a failed call leaves the list unchanged |
| `DashboardPage.Dashboard.TogglePublished` | src/app/dashboard/page.tsx:50-62 | a successful call toggles the list; a failed call leaves it unchanged |

## Left out

- The `authenticateToken` middleware, JWT handling and the 401 answer: the middleware is not part of this model, and the caller is a parameter.
- `populate('author', 'username')`, `save()`, and the store's `updatedAt` timestamp. The dashboard's `updatedAt` field is left out too. The local copy keeps its old `updatedAt` after a toggle, while the server's changes.
- 500 answers from store exceptions. The one exception is the duplicate-id refusal on create.
- The schema in `api/models/Post.js` is not part of this model. Its validators, such as a possible `required` on title, are not modelled, so an update to an empty title is accepted as the router code has it.
- Body fields of other JSON types: `null`, or a non-string title. Mongoose's casting of them is not modelled.
- The order among posts with equal `createdAt`: the store does not promise one.
- Concurrency and last-write-wins between simultaneous requests.
- The React closures read the `posts` value captured at render time. The model applies each edit to the current list.
- JSX rendering, date formatting, `alert`, `console.error`, `useEffect`, and the pages `src/app/page.tsx`, `src/components/Navigation.tsx` and the post view and edit pages. These only render data or navigate.
