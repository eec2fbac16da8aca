# Bloggiz post rules, modelled in Dafny

Bloggiz is a small blog. Visitors read published posts. An administrator signs in and manages posts from a dashboard. This project models the layer of rules in that system:

- **The `/api/posts` route.** `GET` lists the published posts, newest first. `POST` creates a post. It checks the administrator guard first, then the required fields, then whether the slug is taken. On success it inserts one row with `published` defaulting to false and the session's user as author.
- **The `/api/posts/admin` route.** It applies the same guard, then lists every post newest first. It only reads.
- **The dashboard page.** It redirects to `/login` or `/`, or renders with the count of published posts.
- **The client-side post-management context.** It holds the list the dashboard shows. `addPost` prepends, `removePost` filters by id, `setPosts` replaces the list, and `refreshPosts` replaces it only on an ok response.
- **The posts table.** It loads the list once. `handleDelete` removes a post only after the user confirms and the server answers ok. It also decides each row's status label and view link.
- **The seed script.** It recreates the administrator, then inserts each sample post whose slug is not stored yet.
- **`truncateContent`** on the public posts page.

The database is a `Database` class with a `User` table and a `Post` table, both held as sequences. Two counters stand in for the ids the database generates. Each handler runs on it atomically. Collaborators the code only calls are inputs:
- the session from the authentication library, as `Option<Session>` with a user id and a role string;
- the clock behind `createdAt`, as `now: nat`;
- the outcome of `fetch`, as `FetchResult` or `DeleteResult`;
- the user's answer to `confirm`, as a `bool`;
- the bcrypt hash in the seed, as a string.

Files: `common.dfy` (Option, the order-preserving `Filter` and its lemmas), `blog.dfy` (entities, guard, slug lookup, newest-first ordering, the database), `posts_route.dfy`, `admin_route.dfy`, `dashboard.dfy`, `post_management.dfy`, `posts_table.dfy`, `seed.dfy`, `posts_page.dfy`.

Two details of `POST /api/posts`:
- A slug conflict answers 400 "Slug already exists", the same status as a missing field.
- The slug check and the insert are separate database calls, so two racing creates with the same slug are not told apart by the check. The loser would hit the unique constraint on `slug` and end in the 500 answer. The model runs each handler atomically, so this race does not arise in it.

## Model

| member | source | states |
|---|---|---|
| `Blog.IsAdmin` | src/app/api/posts/route.ts:34 | the guard passes exactly when there is a session and its role is "ADMIN" |
| `Blog.FindUserById` | src/app/api/posts/route.ts:69 | the `authorId` foreign key finds a user exactly when one is stored with that id, and what it finds is that stored user |
| `Blog.FindBySlug` | src/app/api/posts/route.ts:50-55 | `findUnique({ where: { slug } })` finds a post exactly when some stored post has that slug, and what it finds is a stored post with that slug |
| `Blog.SortNewestFirst` | src/app/api/posts/route.ts:17 | `orderBy: { createdAt: 'desc' }`: the result is a permutation of the rows (same multiset) in which no post is older than one after it |
| `Blog.InsertByDate` | src/app/api/posts/admin/route.ts:25 | placing one post into a newest-first list keeps it newest first and adds exactly that post |
| `Blog.InsertFreshPost` | src/app/api/posts/route.ts:62-70 | inserting a row whose slug is free under the next id keeps slugs and ids unique |
| `PostsRoute.Get` | src/app/api/posts/route.ts:5-20 | public `GET` answers 200 with exactly the published posts (each as often as stored, no draft), newest first |
| `PostsRoute.CreateUnauthorized` | src/app/api/posts/route.ts:32-39 | with no session or a role other than "ADMIN", `POST` answers 401 "Unauthorized" whatever the body, and the store is unchanged |
| `PostsRoute.CreateMissingFields` | src/app/api/posts/route.ts:41-48 | for an administrator, an absent or empty title, content or slug answers 400 "Missing required fields" before any slug check, and the store is unchanged |
| `PostsRoute.CreateSlugConflict` | src/app/api/posts/route.ts:50-60 | for an administrator with a complete body, a stored slug answers 400 "Slug already exists", and the store is unchanged |
| `PostsRoute.CreateOutcomeOf` | src/app/api/posts/route.ts:30-89 | every answer is 201, 400, 401 or 500; every answer but 201 carries an error and leaves the table as it was; a 201 appends exactly the returned post, only for an administrator, with the session's user, a stored user, as author |
| `PostsRoute.CreateUnknownAuthor` | src/app/api/posts/route.ts:62-87 | when all three checks pass but the session's user is not a stored user, the insert violates the `author` foreign key and the `catch` answers 500 "Failed to create post", with the store unchanged |
| `PostsRoute.CreateSucceeds` | src/app/api/posts/route.ts:62-89 | 201 exactly when guard, fields and slug check all pass and the author is a stored user. Then exactly one post is appended, with the supplied title/content/excerpt/slug, the session user as author, `published` true only if true was supplied, and the new id and clock. Every other answer is 400, 401 or 500 with the store unchanged |
| `PostsRoute.CreateKeepsInvariant` | src/app/api/posts/route.ts:50-70 | any `POST` keeps slugs (and ids) unique across the store |
| `PostsRoute.CreateThenFind` | src/app/api/posts/route.ts:62-81 | after a 201 the slug looks up to the created post, which the public listing shows exactly when it was created published |
| `PostsRoute.Create` | src/app/api/posts/route.ts:30-89 | the handler run step by step against the database gives the answer and the new table of `CreateOutcomeOf`, keeps the database invariant, uses a post id only on 201, and leaves the users alone |
| `AdminPostsRoute.Get` | src/app/api/posts/admin/route.ts:5-28 | 401 "Unauthorized" exactly when the caller is not an administrator; otherwise 200 with every stored post (same multiset), newest first; the store is only read |
| `AdminPostsRoute.PublicListingWithinAdminListing` | src/app/api/posts/admin/route.ts:16-26 | for an administrator, every post of the public listing is in the admin listing, and every draft is in the admin listing but not the public one |
| `DashboardPage.CountPublished` | src/app/dashboard/page.tsx:26-28 | the database's count of published posts equals the length of the published-only filter |
| `DashboardPage.Dashboard` | src/app/dashboard/page.tsx:13-30 | no session redirects to "/login"; a role other than "ADMIN" redirects to "/"; the page renders exactly for an administrator, and its count equals the length of the public listing |
| `DashboardPage.GuardSharedByHandlers` | src/app/dashboard/page.tsx:13-23 | `POST /api/posts` and `GET /api/posts/admin` answer 401 for exactly the callers the dashboard redirects |
| `PostManagementContext.FetchAdminPosts` | src/components/post-management-context.tsx:41-44 | the admin listing fetch is ok exactly for an administrator session, and then carries every stored post, newest first |
| `PostManagementContext.WithoutId` | src/components/post-management-context.tsx:35-37 | after removing an id, no post has that id, and every post with another id is kept |
| `PostManagementContext.WithoutIdKeepsOthers` | src/components/post-management-context.tsx:36 | every post with another id is kept as often as it occurred |
| `PostManagementContext.WithoutIdKeepsOrder` | src/components/post-management-context.tsx:36 | removal keeps relative order: it distributes over concatenation |
| `PostManagementContext.WithoutAbsentId` | src/components/post-management-context.tsx:36 | removing an id no post has leaves the list unchanged |
| `PostManagementContext.WithoutIdIdempotent` | src/components/post-management-context.tsx:36 | removing the same id twice is removing it once |
| `PostManagementContext.PostManagement.constructor` | src/components/post-management-context.tsx:29 | the list starts empty |
| `PostManagementContext.PostManagement.SetPosts` | src/components/post-management-context.tsx:20 | the list is replaced wholesale |
| `PostManagementContext.PostManagement.AddPost` | src/components/post-management-context.tsx:31-33 | the new post is at index 0, the previous posts follow in order, and the length grows by one |
| `PostManagementContext.PostManagement.RemovePost` | src/components/post-management-context.tsx:35-37 | the list becomes the id-filtered list |
| `PostManagementContext.PostManagement.RefreshPosts` | src/components/post-management-context.tsx:39-49 | the list becomes the response data on an ok response, and is unchanged on a response that is not ok or on a thrown error |
| `PostManagementContext.RefreshFromServer` | src/components/post-management-context.tsx:39-49 | refreshing against the admin route loads every stored post newest first for an administrator, and leaves the list unchanged otherwise |
| `PostsTable.StatusLabel` | src/components/posts-table.tsx:79-85 | the badge reads "Published" if and only if the post is published, otherwise "Draft" |
| `PostsTable.ViewHref` | src/components/posts-table.tsx:102-108 | a view link exists if and only if the post is published, and it points at "/posts/" + slug |
| `PostsTable.Render` | src/components/posts-table.tsx:49-71 | the loading card while loading; the empty-state message for an empty list; otherwise one row per post in list order, with that post's id, label and link |
| `PostsTable.Table.constructor` | src/components/posts-table.tsx:11-12 | the table starts out loading, over the shared context |
| `PostsTable.Table.LoadPosts` | src/components/posts-table.tsx:14-20 | after the mount effect the list is refreshed as `refreshPosts` does and loading is off |
| `PostsTable.Table.HandleDelete` | src/components/posts-table.tsx:30-47 | a request is made exactly when the user confirms; only an ok response removes exactly that id; otherwise an alert is raised and the list is unchanged |
| `Seed.FindUserByEmail` | prisma/seed.ts:10-12 | a user is found exactly when one has the email, and it is a stored user with that email |
| `Seed.WithoutEmail` | prisma/seed.ts:14-16 | after the delete no user has the email and every other user is kept |
| `Seed.RecreateUser` | prisma/seed.ts:10-31 | deleting the admin email's users and appending a fresh user under it keeps emails and ids unique |
| `Seed.InsertIfAbsent` | prisma/seed.ts:96-110 | one loop step: a sample whose slug is stored changes nothing; otherwise exactly one row is appended under the next id, with the sample's fields and the administrator as author, after the untouched old rows |
| `Seed.SeedPosts` | prisma/seed.ts:95-111 | the loop adds at most one row per sample, never removes one, and uses exactly one id per added row |
| `Seed.SeedPostsKeepsInvariant` | prisma/seed.ts:95-111 | the sample loop keeps slugs and ids unique |
| `Seed.SeedPostsOnlyAppends` | prisma/seed.ts:95-111 | the loop leaves every stored post untouched, so one holding a sample slug is not overwritten; every post it adds has the administrator as author and a sample's slug |
| `Seed.SeedPostsCoversSamples` | prisma/seed.ts:95-111 | after the loop every sample slug is stored |
| `Seed.SeedDatabase` | prisma/seed.ts:6-114 | the admin user is recreated with role "ADMIN" under the next user id (which is used up) and is then the only user with admin@bloggiz.com; the posts become those of `SeedPosts`; old posts stay a prefix; every sample slug is present; the database invariant holds |
| `PostsPage.TruncateContent` | src/app/posts/page.tsx:57-60 | content of at most `maxLength` characters comes back unchanged. Longer content becomes its first `maxLength` characters followed by "...". The result never exceeds `maxLength` + 3 characters. The default `maxLength` is 150 |
| `PostsPage.TruncatedIsPrefix` | src/app/posts/page.tsx:58-59 | the result before any appended "..." is a prefix of the content |
| `PostsPage.ShortContentMayEndInEllipsis` | src/app/posts/page.tsx:57-60 | "abc..." fits the default limit and comes back whole, though it ends in "..." |
| `PostsPage.ListingExcerpt` | src/app/posts/page.tsx:180 | the listing's call with the default limit shows at most 153 characters, and text of at most 150 characters whole |
| `Common.Filter` | src/components/post-management-context.tsx:36 | `Array.prototype.filter`: keeps exactly the elements satisfying the predicate, never lengthening the list |
| `Common.FilterConcat` | src/components/post-management-context.tsx:36 | filtering distributes over concatenation, i.e. survivors keep their relative order |
| `Common.FilterCount` | src/app/api/posts/route.ts:8 | each kept element survives as often as it occurs; nothing else survives |
| `Common.FilterKeepsPairwise` | prisma/seed.ts:14-16 | a property of every two elements in order still holds of every two survivors |

The result of `truncateContent` can end in "..." without any truncation, when the content already ends in "..." and fits. So "ends in ... exactly when the content was longer" does not hold. `PostsPage.TruncateContent` states only the direction that does hold: longer content always ends in "...". `PostsPage.ShortContentMayEndInEllipsis` gives an input for which the other direction fails.

## Left out

- The 500 paths other than the create whose author is not a stored user: database outages, `request.json()` failing, the slug race described above, and the `catch` of the two `GET` handlers. Also `console` logging and `process.exit`. The seed's user delete is assumed to succeed.
- The `author: { name, email }` join that the listings and the create response include. Posts carry only `authorId`.
- The `updatedAt` column.
- Post and user ids are counters, not the database's generated strings. `createdAt` comes from a clock input.
- Listings: the database leaves the order of posts with equal `createdAt` open. The model fixes one order, and no property depends on it.
- PostsRoute.Create: JSON body values that are not strings are not modelled (numbers, `false`, `0`). Fields are absent or strings, and "falsy" means absent or empty. `published` is absent or a boolean. A truthy non-boolean `published` would pass through `published || false` to the database.
- PostsPage.TruncateContent: lengths are counted in characters. JavaScript counts UTF-16 code units. `maxLength` is a natural number; the caller only passes the default.
- The `/api/posts/{id}` GET, PUT and DELETE handlers. `src/app/api/posts/[id]/route.ts` is not part of this model. `HandleDelete` takes that route's outcome as an input.
- `formatDate`, because it depends on the runtime's `Date` parsing and locale formatting. Also left out: the rest of the rendering, the mobile menu, the login page, the logout button and the edit button, which has no handler.
- The foreign-key behaviour when the seed deletes an administrator who still has posts. The schema is not part of this model.
- Seed.SeedDatabase: every sample insert gets the same `now` for `createdAt`. The script stamps each create when it runs, so its samples get increasing times.
- The literal text of the seed's two sample posts. `SeedDatabase` takes the sample list as an input.
- `usePostManagement` throwing outside a provider.
