# A blog's client session, navigation and server rules, in Dafny

The blog has a React/TypeScript client and a Go server (gin, gorm,
Elasticsearch, Qiniu cloud storage). This project models the parts of both
that are rules rather than plumbing, and proves what those rules promise.

**Client stores and the request pipeline**
- The user store holds who is logged in, the access token and two flags, and persists three of its fields.
- The layout store is a set of boolean UI flags merged by partial updates, of which only `isCollapse` is persisted.
- The tag store is the dashboard's list of open tabs, mirrored to `localStorage`.
- The website store is a record fetched at start-up. Its flag is set only when a successful reply arrives, so until then every start-up call requests again.
- The axios interceptors attach the token, rotate it from a response header, force a re-login when the server asks, and turn transport errors into dialogs.

**Client navigation**
- Route gating by login and by administrator role.
- The dashboard side menu filtered by role.
- The breadcrumb built from the pathname.
- The front navbar's pathname-to-key mapping.
- Closing dashboard tabs.

**Client state machines**
- The hero typewriter.
- The 60-second resend countdown of the register and forgot-password forms.
- The article-create form's duplicate-free tags and required fields.
- The article page's like toggle and comment guard.
- The comment list's reply mode.
- The tag cloud's colour cycle.

**Server rules**
- Pagination defaults and offset arithmetic.
- The comment tree: creating under an existing parent, the permission-checked cascade delete, reply-tree loading, and de-duplication of a user's comments.
- Article search and list query construction, the like toggle, duplicate-title refusal and deletion.
- JWT error classification and claim construction.
- The command-line single-flag dispatch.
- Image upload validation, key and URL building, and the storage zone table.

**How outside effects are modelled**
- State that the source mutates in place is a Dafny `class` whose methods state the whole new state. This covers zustand stores, React component state, the comment table, the article index and like records.
- `localStorage` is a shared `LocalStorage.Storage` object. Every store's persist write is stated as an update of its `items` map.
- Network replies, database and search results, and SDK replies are parameters. These are the `Settled`/`Envelope` values, the `search`, `find`, `put` and `perform` functions, and the JWT library's `Verdict`.
- Navigation is returned as `Nav` values.
- Timers become one method call per tick.
- The clock, MD5 and the id generator are parameters.

## Model

| member | source | states |
|---|---|---|
| ClientTypes.IsAdmin | front/src/stores/user.ts:151-160 | an administrator (role 2) is always logged in (role other than 0) |
| UserStore.DefaultUser | front/src/stores/user.ts:43-57 | the default user record is neither logged in nor an administrator |
| UserStore.Defaults | front/src/stores/user.ts:43-63 | the initial session has a logged-out user, an empty token and both flags false |
| UserStore.PartializeIgnoresInitFlag | front/src/stores/user.ts:166-170 | `userInfoInitialized` is never persisted: sessions differing only in it are saved alike |
| UserStore.Hydrate | front/src/stores/user.ts:39-63 | start-up never has `userInfoInitialized` set, and with nothing saved it is the default session |
| UserStore.HydrateAfterSave | front/src/stores/user.ts:162-170 | saving then restoring gives back the session, except the never-saved flag, which comes back false |
| UserStore.Store.constructor | front/src/stores/user.ts:39-63 | the store starts from the session restored out of `user-storage` |
| UserStore.Store.Persist | front/src/stores/user.ts:162-170 | the persist write stores the partialized state under `user-storage` and touches no other key |
| UserStore.Store.SetAccessToken | front/src/utils/request.ts:55-57 | only the token changes, and the saved copy follows |
| UserStore.Store.Authenticate | front/src/stores/user.ts:66-97 | a code-0 reply sets user, token and `isUserLoggedInBefore` and leaves `userInfoInitialized` alone; any other reply returns false and changes nothing, in memory or in storage |
| UserStore.Store.LoginIn | front/src/stores/user.ts:66-80 | as Authenticate, for the login reply |
| UserStore.Store.RegisterIn | front/src/stores/user.ts:83-97 | as Authenticate, for the register reply |
| UserStore.Store.Reset | front/src/stores/user.ts:126-148 | the session becomes the defaults, so the user is logged out and a second reset changes nothing |
| UserStore.Store.LoginOut | front/src/stores/user.ts:100-109 | after the logout call the session is the defaults, storage is empty and the only navigation is to `/index`; a rejected call changes nothing |
| UserStore.Store.InitializeUserInfo | front/src/stores/user.ts:112-123 | the fetch happens iff logged in before and not yet initialized; code 0 stores the user and sets the flag, so the next call does not fetch |
| LocalStorage.Storage.constructor | front/src/stores/tag.ts:27 | storage starts with the given items |
| LocalStorage.Storage.SetItem | front/src/stores/tag.ts:48 | one key is written and the others are kept |
| LocalStorage.Storage.RemoveItem | front/src/stores/tag.ts:71 | one key is removed and the others are kept |
| LocalStorage.Storage.Clear | front/src/stores/user.ts:106 | every key of every store is gone |
| LayoutStore.EveryFlagListed | front/src/stores/layout.ts:7-47 | the flag list covers every field of the layout state |
| LayoutStore.InitialFlags | front/src/stores/layout.ts:63-103 | every flag is assigned and all of them start false |
| LayoutStore.Merge | front/src/stores/layout.ts:109 | exactly the flags named in the partial update change, to the given values |
| LayoutStore.MergeIdempotent | front/src/stores/layout.ts:109 | applying the same partial update twice is the same as once |
| LayoutStore.Store.constructor | front/src/stores/layout.ts:59-115 | every flag is false except `isCollapse`, which is read back from `layout-storage` |
| LayoutStore.Store.SetState | front/src/stores/layout.ts:109-115 | the flags become the merge, and only `isCollapse` is written to storage |
| LayoutStore.Store.SetIsCollapse | front/src/stores/layout.ts:106 | only `isCollapse` changes, and it is persisted |
| TagStore.InitialTags | front/src/stores/tag.ts:27-36 | the saved list when there is one, otherwise exactly the home tab |
| TagStore.WithoutName | front/src/stores/tag.ts:58 | exactly the tabs with another name remain |
| TagStore.WithoutNameAppend | front/src/stores/tag.ts:58 | removal preserves relative order, piece by piece |
| TagStore.WithoutNameIdempotent | front/src/stores/tag.ts:55-64 | removing a name twice is the same as once |
| TagStore.WithoutAbsentName | front/src/stores/tag.ts:55-64 | removing a name no tab has leaves the list unchanged |
| TagStore.Store.constructor | front/src/stores/tag.ts:25-40 | the tabs start as InitialTags of storage |
| TagStore.Store.AddTag | front/src/stores/tag.ts:43-52 | the tab is appended even if its name is present, and the saved copy equals the new list |
| TagStore.Store.RemoveTag | front/src/stores/tag.ts:55-64 | every tab of that name goes, and the saved copy equals the new list |
| TagStore.Store.ResetTags | front/src/stores/tag.ts:67-72 | no tabs and no saved copy, other keys kept |
| TagStore.Store.SetTags | front/src/components/layout/DashboardTag/DashboardTag.tsx:48-55 | `setState` replaces the list without writing storage |
| WebsiteStore.Store.constructor | front/src/stores/website.ts:19-43 | the record starts empty and not initialized |
| WebsiteStore.Store.InitializeWebsite | front/src/stores/website.ts:46-58 | code 0 stores the data and sets the flag; any other reply changes nothing |
| WebsiteStore.Store.InitializeStore | front/src/stores/website.ts:62-70 | the request is sent iff the flag is false, and the call itself changes nothing: the reply is handled later by InitializeWebsite, so a call made before it arrives requests again |
| Request.OutgoingHeaders | front/src/utils/request.ts:27-39 | the JSON content type and the token are added, and any header the caller set wins |
| Request.AttachHeaders | front/src/utils/request.ts:27-39 | the token used is the one in the store at send time |
| Request.ForceRelogin | front/src/utils/request.ts:64-75 | the session is reset, storage holds only the re-written layout entry, the login popup opens and the page goes to `/index` |
| Request.OnResponse | front/src/utils/request.ts:49-79 | the whole envelope is returned whatever its code; a reload request forces re-login and so discards a rotated token; otherwise a new token header is stored and nothing else changes |
| Request.DialogFor | front/src/utils/request.ts:84-110 | no response gives the retry dialog; statuses 500, 404 and 403, and only those, give the clear-cache dialog |
| Request.HandleSpecificError | front/src/utils/request.ts:117-160 | OK forces re-login; cancel changes nothing |
| Request.OnError | front/src/utils/request.ts:80-113 | every error rejects; the session changes only when a dialog status is confirmed |
| Paths.Split | front/src/components/layout/Breadcrumb/Breadcrumb.tsx:21 | `split('/')` gives at least one piece and no piece contains a slash |
| Paths.NonEmpty | front/src/components/layout/Breadcrumb/Breadcrumb.tsx:21 | `filter(x => x)` keeps exactly the non-empty pieces |
| Paths.JoinSplit | front/src/components/layout/Breadcrumb/Breadcrumb.tsx:21-24 | joining the split pieces with `/` gives the string back |
| Paths.SplitJoin | front/src/components/layout/Breadcrumb/Breadcrumb.tsx:21-24 | splitting slash-free parts that were joined with `/` gives the parts back |
| Paths.SplitAround | front/src/components/layout/Breadcrumb/Breadcrumb.tsx:21 | splitting at a slash splits each side |
| Paths.SplitSingle | front/src/components/layout/Breadcrumb/Breadcrumb.tsx:21 | a slash-free string splits into itself |
| Paths.NonEmptyAppend | front/src/components/layout/Breadcrumb/Breadcrumb.tsx:21 | the filter works piece by piece, in order |
| Paths.NonEmptyKeeps | front/src/components/layout/Breadcrumb/Breadcrumb.tsx:21 | a list with no empty piece is kept as it is |
| Paths.SegmentsAreSegments | front/src/components/layout/Breadcrumb/Breadcrumb.tsx:21 | every segment is non-empty and slash-free |
| Paths.SegmentsOfPath | front/src/components/layout/Breadcrumb/Breadcrumb.tsx:24 | the segments of `/` followed by joined segments are those segments |
| Paths.LeadingSlash | front/src/components/layout/Breadcrumb/Breadcrumb.tsx:21 | a leading slash adds no segment |
| Paths.TrailingSlash | front/src/components/layout/Breadcrumb/Breadcrumb.tsx:21 | a trailing slash adds no segment |
| Paths.JoinSnoc | front/src/components/layout/Breadcrumb/Breadcrumb.tsx:24 | joining one more part adds a slash and that part |
| Breadcrumb.Capitalize | front/src/components/layout/Breadcrumb/Breadcrumb.tsx:25 | the first character is upper-cased and the rest are unchanged |
| Breadcrumb.Crumbs | front/src/components/layout/Breadcrumb/Breadcrumb.tsx:21-31 | one crumb per segment plus one, the first being Home at `/` |
| Breadcrumb.CrumbLeadsToPrefix | front/src/components/layout/Breadcrumb/Breadcrumb.tsx:23-26 | crumb i is titled by segment i and leads to the first i segments |
| Breadcrumb.LastCrumbIsHere | front/src/components/layout/Breadcrumb/Breadcrumb.tsx:23-31 | the last crumb leads to the current location, with redundant slashes dropped |
| Breadcrumb.CrumbPathsNest | front/src/components/layout/Breadcrumb/Breadcrumb.tsx:24 | each crumb's path is a prefix of the next one's |
| Breadcrumb.ExtraSlashesAddNothing | front/src/components/layout/Breadcrumb/Breadcrumb.tsx:21 | doubled and trailing slashes add no crumbs |
| Breadcrumb.Items | front/src/components/layout/Breadcrumb/Breadcrumb.tsx:35-41 | every item but the last is a link to its crumb's path, and the titles are kept |
| WebNavbar.KeyForPath | front/src/components/layout/WebNavbar/WebNavbar.tsx:58-69 | `/`, `/feedback`, `/article` or an unanchored article detail, and `/friend-link` give their keys; every other path, `/index` included, keeps the current key |
| WebNavbar.RouteForKey | front/src/components/layout/WebNavbar/WebNavbar.tsx:84-99 | exactly the four page keys have a route |
| WebNavbar.KeyRouteRoundTrip | front/src/components/layout/WebNavbar/WebNavbar.tsx:60-67 | the route of a key maps back to that key, whatever was highlighted |
| WebNavbar.Navbar.constructor | front/src/components/layout/WebNavbar/WebNavbar.tsx:53 | the highlight starts at `index` |
| WebNavbar.Navbar.OnPathChange | front/src/components/layout/WebNavbar/WebNavbar.tsx:58-69 | the highlight follows KeyForPath |
| WebNavbar.Navbar.OnClick | front/src/components/layout/WebNavbar/WebNavbar.tsx:72-99 | github opens a tab and keeps the highlight; any other key is highlighted, and a page key navigates to its route |
| Router.MatchRoute | front/src/router/index.tsx:59-93 | pieces are compared with the route literals ignoring ASCII case; an unknown first piece, more than three pieces or any empty piece redirects to `/404`; only dashboard routes are guarded; administrator pages are the three-piece users/articles/images/system routes |
| Router.MatchIgnoresCase | front/src/router/index.tsx:59-93 | pieces that differ only in ASCII case select the same route under the same guards, the article id keeping its own spelling |
| Router.LowerFixes | front/src/router/index.tsx:59-93 | case folding leaves a piece without capitals unchanged, so the lower-case route paths match themselves |
| Router.DropTrailingEmpty | front/src/router/index.tsx:59-93 | only the empty pieces at the end are dropped, and what remains does not end in one |
| Router.PiecesOfPath | front/src/router/index.tsx:59-93 | the absolute path made of some segments is matched on exactly those segments |
| Router.TrailingSlashIgnored | front/src/router/index.tsx:59-93 | a trailing slash changes neither the pieces nor the route |
| Router.DoubledSlashNotFound | front/src/router/index.tsx:90 | an empty piece before a segment, as in `//dashboard` or `/article//x`, falls to the catch-all and redirects to `/404` |
| Router.Render | front/src/router/index.tsx:27-57 | for the route the pathname selects, a private page shows iff logged in, an administrator page iff administrator (both guards nested); a logged-out user gets the warning and a non-administrator the error and a step back |
| Router.LoginPathIsUnrouted | front/src/router/index.tsx:36 | the login path the warning's OK goes to is not a route, so it ends on the not-found page |
| DashboardTag.FindIndex | front/src/components/layout/DashboardTag/DashboardTag.tsx:22 | the first index of a tab with that name, or -1 iff there is none |
| DashboardTag.FallbackRoute | front/src/components/layout/DashboardTag/DashboardTag.tsx:30-37 | the previous tab's route when it has a non-empty name, else `/dashboard` |
| DashboardTag.HandleClose | front/src/components/layout/DashboardTag/DashboardTag.tsx:12-39 | a tab other than the current one is removed without navigating; a current name with no tab changes nothing; the current tab is removed and the page goes to the fallback |
| DashboardTag.TagRoute | front/src/components/layout/DashboardTag/DashboardTag.tsx:42-44 | a click goes to `/` followed by the tab name |
| DashboardTag.CloseAllTags | front/src/components/layout/DashboardTag/DashboardTag.tsx:47-57 | exactly the dashboard home tab remains and the page goes to `/dashboard` |
| DashboardTag.Render | front/src/components/layout/DashboardTag/DashboardTag.tsx:61-71 | one view per tab; closable iff not `home`; highlighted iff its name is the last path piece |
| DashboardTag.ShowsCloseAll | front/src/components/layout/DashboardTag/DashboardTag.tsx:73 | the button shows iff there is a tab |
| DashboardMenu.SubNodes | front/src/components/layout/DashboardMenu/DashboardMenu.tsx:189-197 | each sub-item becomes a leaf keyed by `/dashboard/<parent>/<sub>` |
| DashboardMenu.MenuNodes | front/src/components/layout/DashboardMenu/DashboardMenu.tsx:172-202 | exactly the shown items appear and hidden ones are dropped |
| DashboardMenu.AdminSeesAll | front/src/components/layout/DashboardMenu/DashboardMenu.tsx:172-202 | an administrator sees every item's node, in the order of the list |
| DashboardMenu.MenuNodesAppend | front/src/components/layout/DashboardMenu/DashboardMenu.tsx:172-202 | the map and filter keep the list's order, part by part |
| DashboardMenu.TwoShownThenHidden | front/src/components/layout/DashboardMenu/DashboardMenu.tsx:172-202 | two shown items followed by hidden ones give just those two nodes |
| DashboardMenu.AllHidden | front/src/components/layout/DashboardMenu/DashboardMenu.tsx:199-202 | hidden items leave nothing behind |
| DashboardMenu.NonAdminMenu | front/src/components/layout/DashboardMenu/DashboardMenu.tsx:36-136 | a non-administrator sees only home and the user centre |
| DashboardMenu.AdminMenu | front/src/components/layout/DashboardMenu/DashboardMenu.tsx:36-136 | an administrator sees exactly the six entries' nodes, in the order of the menu list |
| DashboardMenu.DefaultOpenKeys | front/src/components/layout/DashboardMenu/DashboardMenu.tsx:219-221 | the names of groups whose name occurs in the pathname |
| DashboardMenu.HandleClick | front/src/components/layout/DashboardMenu/DashboardMenu.tsx:159-169 | the tab is always appended (length grows by one), its copy saved, and the page goes to the path |
| DashboardMenu.DashboardPieces | front/src/components/layout/DashboardMenu/DashboardMenu.tsx:155-156 | a sub-item path is matched on the three pieces dashboard, parent, sub |
| DashboardMenu.MenuNames | front/src/components/layout/DashboardMenu/DashboardMenu.tsx:42-135 | every menu sub-item names a routed page, in lower case |
| DashboardMenu.MenuPagesAreRouted | front/src/components/layout/DashboardMenu/DashboardMenu.tsx:189-197 | every sub-item path is a guarded route, administrator-only iff its group is |
| DashboardMenu.HomeEntryIsRouted | front/src/components/layout/DashboardMenu/DashboardMenu.tsx:152 | the home entry's path is the dashboard index |
| ArticleCreateForm.Without | front/src/components/common/forms/ArticleCreateForm/ArticleCreateForm.tsx:42-48 | exactly the other tags remain, still without duplicates |
| ArticleCreateForm.SetField | front/src/components/common/forms/ArticleCreateForm/ArticleCreateForm.tsx:131-138 | only the named field changes |
| ArticleCreateForm.Form.constructor | front/src/components/common/forms/ArticleCreateForm/ArticleCreateForm.tsx:28-38 | title and content from the props, everything else empty, tags duplicate-free |
| ArticleCreateForm.Form.HandleClose | front/src/components/common/forms/ArticleCreateForm/ArticleCreateForm.tsx:42-48 | that tag is removed; nothing else changes |
| ArticleCreateForm.Form.ShowInput | front/src/components/common/forms/ArticleCreateForm/ArticleCreateForm.tsx:51-55 | the input shows; nothing else changes |
| ArticleCreateForm.Form.SetInputValue | front/src/components/common/forms/ArticleCreateForm/ArticleCreateForm.tsx:233 | only the input value changes |
| ArticleCreateForm.Form.HandleInputConfirm | front/src/components/common/forms/ArticleCreateForm/ArticleCreateForm.tsx:58-68 | a non-empty new value is appended, otherwise the tags are kept; the input is always hidden and cleared, and tags stay duplicate-free |
| ArticleCreateForm.Form.HandleInputChange | front/src/components/common/forms/ArticleCreateForm/ArticleCreateForm.tsx:131-138 | the form becomes SetField of the old form |
| ArticleCreateForm.Form.HandleUpload | front/src/components/common/forms/ArticleCreateForm/ArticleCreateForm.tsx:71-128 | a code-0 upload sets the cover and a single done file; no file or a failure changes nothing |
| ArticleCreateForm.Form.SubmitForm | front/src/components/common/forms/ArticleCreateForm/ArticleCreateForm.tsx:141-181 | the form is sent iff title, category, abstract and content are non-empty; code 0 empties the form and file list and hides the modal; otherwise the form is kept |
| ArticleCreateForm.Form.Cancel | front/src/components/common/forms/ArticleCreateForm/ArticleCreateForm.tsx:275 | only the modal flag is cleared, and the layout entry of storage is rewritten with `isCollapse` |
| EmailCode.Tick | front/src/components/common/forms/RegisterForm/RegisterForm.tsx:87-96 | a positive countdown drops by one, never below 0, and at 0 counting stops |
| EmailCode.TicksCount | front/src/components/common/forms/RegisterForm/RegisterForm.tsx:87-96 | after k ticks the countdown is k lower, or idle once it has run out |
| EmailCode.ResendAfterSixty | front/src/components/common/forms/RegisterForm/RegisterForm.tsx:79-96 | after a send, the resend stays blocked for exactly 60 ticks |
| EmailCode.Spread | front/src/components/common/forms/RegisterForm/RegisterForm.tsx:122-130 | the changed fields win and every other field is kept |
| RegisterForm.Form.constructor | front/src/components/common/forms/RegisterForm/RegisterForm.tsx:28-44 | empty fields, no picture, idle countdown |
| RegisterForm.Form.RefreshCaptcha | front/src/components/common/forms/RegisterForm/RegisterForm.tsx:54-61 | the picture and captcha id are taken from the reply |
| RegisterForm.Form.SendCode | front/src/components/common/forms/RegisterForm/RegisterForm.tsx:68-84 | a no-op while counting; otherwise the request held before the call is sent, the email is copied for later calls, code 0 starts 60 s, and any other code refreshes the captcha |
| RegisterForm.Form.Tick | front/src/components/common/forms/RegisterForm/RegisterForm.tsx:87-96 | the countdown takes one EmailCode.Tick; the form is unchanged |
| RegisterForm.Form.OnValuesChange | front/src/components/common/forms/RegisterForm/RegisterForm.tsx:122-134 | both records take the changes, and a new password clears the repeat |
| RegisterForm.Form.SetRepeatPassword | front/src/components/common/forms/RegisterForm/RegisterForm.tsx:149 | only the repeat password changes |
| RegisterForm.Form.SubmitForm | front/src/components/common/forms/RegisterForm/RegisterForm.tsx:98-115 | the register call is made iff the field rules of lines 46-51 hold and the passwords match; the modals close only when it returns true |
| ForgotPasswordForm.Form.constructor | front/src/components/common/forms/ForgotPasswordForm/ForgotPasswordForm.tsx:16-31 | empty fields, no picture, idle countdown |
| ForgotPasswordForm.Form.RefreshCaptcha | front/src/components/common/forms/ForgotPasswordForm/ForgotPasswordForm.tsx:40-47 | the picture and captcha id are taken from the reply |
| ForgotPasswordForm.Form.SendCode | front/src/components/common/forms/ForgotPasswordForm/ForgotPasswordForm.tsx:54-70 | a no-op while counting; code 0 starts 60 s, any other code refreshes the captcha, and a rejected call changes nothing |
| ForgotPasswordForm.Form.Tick | front/src/components/common/forms/ForgotPasswordForm/ForgotPasswordForm.tsx:73-82 | the countdown takes one EmailCode.Tick |
| ForgotPasswordForm.Form.OnValuesChange | front/src/components/common/forms/ForgotPasswordForm/ForgotPasswordForm.tsx:110-122 | both records take the changes, and a new password clears the repeat |
| ForgotPasswordForm.Form.SetRepeatPassword | front/src/components/common/forms/ForgotPasswordForm/ForgotPasswordForm.tsx:152 | only the repeat password changes |
| ForgotPasswordForm.Form.SubmitForm | front/src/components/common/forms/ForgotPasswordForm/ForgotPasswordForm.tsx:85-103 | the reset is sent iff the field rules of lines 33-37 hold and the passwords match; code 0 closes both modals |
| CommentItem.Pad2 | front/src/components/common/CommentItem/CommentItem.tsx:34 | two decimal digits |
| CommentItem.Pad2Injective | front/src/components/common/CommentItem/CommentItem.tsx:34 | different numbers pad differently |
| CommentItem.EmojiIds | front/src/components/common/CommentItem/CommentItem.tsx:34 | fifty ids |
| CommentItem.EmojiIdsDistinct | front/src/components/common/CommentItem/CommentItem.tsx:34 | the ids are two characters long and pairwise distinct |
| CommentItem.EmojiIdsEnds | front/src/components/common/CommentItem/CommentItem.tsx:34 | they run from `01` to `50` |
| CommentItem.CommentList.constructor | front/src/components/common/CommentItem/CommentItem.tsx:32-33 | no reply in progress and empty content |
| CommentItem.CommentList.AtMostOneReplying | front/src/components/common/CommentItem/CommentItem.tsx:103-119 | with distinct ids at most one item shows the reply editor |
| CommentItem.CommentList.StartReply | front/src/components/common/CommentItem/CommentItem.tsx:110 | exactly the items with that id are in reply mode |
| CommentItem.CommentList.CancelReply | front/src/components/common/CommentItem/CommentItem.tsx:106 | no item is in reply mode and the content is empty |
| CommentItem.CommentList.SetContent | front/src/components/common/CommentItem/CommentItem.tsx:124 | only the content changes |
| CommentItem.CommentList.AddEmoji | front/src/components/common/CommentItem/CommentItem.tsx:138 | the emoji's markdown image is appended to the content |
| CommentItem.CommentList.SubmitReply | front/src/components/common/CommentItem/CommentItem.tsx:41-54 | the request carries the item's article, the item as parent and the content; code 0 ends reply mode, clears the content and asks for a refresh |
| CommentItem.CommentList.HandleDelete | front/src/components/common/CommentItem/CommentItem.tsx:56-65 | the request names that one id; code 0 asks for a refresh and rewrites the layout entry of storage; any other outcome changes nothing |
| Hero.Next | front/src/pages/web/hero/hero.tsx:15-39 | keeps the text equal to the prefix up to the index; typing grows it by one, at full length deleting starts, deleting shrinks by one, at 0 typing resumes |
| Hero.TypingRun | front/src/pages/web/hero/hero.tsx:18-23 | k typing steps show k more characters |
| Hero.DeletingRun | front/src/pages/web/hero/hero.tsx:27-32 | k deleting steps remove k characters |
| Hero.StepsAdd | front/src/pages/web/hero/hero.tsx:15-39 | running a then b steps is running a + b steps |
| Hero.FullCycle | front/src/pages/web/hero/hero.tsx:15-39 | a full cycle of 2n + 2 steps returns to the start |
| Hero.Typewriter.constructor | front/src/pages/web/hero/hero.tsx:11-13 | starts empty, at index 0, typing |
| Hero.Typewriter.Step | front/src/pages/web/hero/hero.tsx:15-39 | one timer tick is one Next step |
| ArticlePage.TrimStart | front/src/pages/web/article/article.tsx:172 | a suffix of the text that does not start with whitespace, everything removed before it being whitespace |
| ArticlePage.TrimEnd | front/src/pages/web/article/article.tsx:172 | a prefix of the text that does not end with whitespace, everything removed after it being whitespace |
| ArticlePage.TrimEmptyIffBlank | front/src/pages/web/article/article.tsx:172 | trimming gives the empty string iff the text is all whitespace |
| ArticlePage.LikeStep | front/src/pages/web/article/article.tsx:163-167 | the like flag flips and the count moves by one toward it |
| ArticlePage.LikeTwiceRestores | front/src/pages/web/article/article.tsx:159-169 | two toggles restore count and flag |
| ArticlePage.Page.constructor | front/src/pages/web/article/article.tsx:98-113 | an empty article, not liked, no content, no comments |
| ArticlePage.Page.FetchArticleInfo | front/src/pages/web/article/article.tsx:123-130 | code 0 stores the article; anything else navigates to `/404` |
| ArticlePage.Page.FetchIsLikeInfo | front/src/pages/web/article/article.tsx:132-139 | the like status is asked for iff the viewer is logged in |
| ArticlePage.Page.GetArticleComments | front/src/pages/web/article/article.tsx:141-152 | code 0 replaces the comments |
| ArticlePage.Page.HandleLike | front/src/pages/web/article/article.tsx:159-169 | code 0 applies LikeStep to count and flag and leaves the rest of the article; other codes change nothing |
| ArticlePage.Page.HandleCommentSubmit | front/src/pages/web/article/article.tsx:171-192 | blank content sends nothing; otherwise a top-level comment (parent 0) is sent, and success clears the input and reloads comments |
| TagCloud.CloudArray | front/src/components/other/TagCloud/TagCloud.tsx:11-25 | same length and order, tag and number copied, type `tagTypes[i mod 5]` |
| TagCloud.ColoursCycle | front/src/components/other/TagCloud/TagCloud.tsx:11-24 | neighbours differ in colour and colours repeat every five |
| TagCloud.Cloud.constructor | front/src/components/other/TagCloud/TagCloud.tsx:14 | the cloud starts empty |
| TagCloud.Cloud.GetTagCloudArray | front/src/components/other/TagCloud/TagCloud.tsx:17-28 | code 0 stores CloudArray of the data; other codes change nothing |
| Pagination.DefaultedPage | server/utils/pagination.go:15-17 | at least 1, and a valid page is unchanged |
| Pagination.DefaultedSize | server/utils/pagination.go:18-20 | at least 1, a valid size unchanged, an invalid one 10 |
| Pagination.OffsetProperties | server/utils/pagination.go:62-96 | after defaulting the offset is non-negative and page p+1 starts one page size after page p |
| Pagination.MySQLPagination | server/utils/pagination.go:13-83 | a count error gives no list, total 0 and the error; otherwise the query uses the defaulted order, limit = size and offset = (page-1)·size, and a data error gives no list and total 0 |
| Pagination.EsPagination | server/utils/pagination.go:86-114 | Size = defaulted size ≥ 1 and From = (page-1)·size ≥ 0; an error gives no list and total 0 |
| Pagination.PageOf | server/utils/pagination.go:62-65 | a page holds at most `limit` rows |
| Pagination.PagesTile | server/utils/pagination.go:62-65 | the first k pages laid end to end are the first k·size rows: pages neither overlap nor skip |
| CommentService.Bound | server/service/comment.go:245-252 | every id in the table is below the bound |
| CommentService.ChildRows | server/service/comment.go:188-193 | exactly the rows whose parent is the comment, all with larger ids |
| CommentService.Children | server/service/comment.go:212-215 | the ids of exactly the comment's direct replies |
| CommentService.DescUnfold | server/service/comment.go:237-242 | a descendant is a child or a descendant of a child |
| CommentService.DescAbove | server/service/comment.go:228-242 | descendants have larger ids than their ancestor |
| CommentService.DescTrans | server/service/comment.go:228-242 | a descendant of a descendant is a descendant |
| CommentService.SubtreeClosed | server/service/comment.go:210-225 | a comment with its descendants is closed under replies |
| CommentService.WithoutIds | server/service/comment.go:224 | exactly the rows outside the removed ids remain, and replies still follow their parents |
| CommentService.WithoutTwice | server/service/comment.go:210-225 | two deletions are one deletion of the union |
| CommentService.DescWithout | server/service/comment.go:210-225 | removing a reply-closed set leaves the other comments' descendants otherwise intact |
| CommentService.Take | server/service/comment.go:110 | the row with that id, or none iff no row has it |
| CommentService.ClosureClosed | server/service/comment.go:107-125 | the set a batch delete removes is closed under replies |
| CommentService.DeleteAllRemovesClosure | server/service/comment.go:107-125 | a successful batch removes exactly the listed comments and their descendants |
| CommentService.DeleteAllAuthorised | server/service/comment.go:114-118 | for a non-administrator, a successful batch means every listed comment existed and was theirs |
| CommentService.ParentThenReplyFails | server/service/comment.go:107-125 | listing a comment and then one of its replies fails on the reply, which the cascade already removed |
| CommentService.DeleteStep | server/service/comment.go:217-221 | deleting the next child's subtree extends the deleted set by that subtree |
| CommentService.Load | server/service/comment.go:183-207 | a loaded node's children are exactly the comment's reply rows, in table order |
| CommentService.LoadDesc | server/service/comment.go:183-207 | the ids below a loaded node are exactly the comment's descendants |
| CommentService.LoadKids | server/service/comment.go:199-205 | the first i loaded children cover the descendants through the first i replies |
| CommentService.TraverseChildren | server/service/comment.go:237-242 | the map gains exactly the ids below the node, not the node itself |
| CommentService.FindChildCommentIds | server/service/comment.go:228-234 | the ids below every given node |
| CommentService.LoadAll | server/service/comment.go:141-145 | each raw comment is loaded, in order |
| CommentService.LoadAllDesc | server/service/comment.go:147-149 | the ids below the loaded list are the descendants of the raw comments |
| CommentService.DescAllMember | server/service/comment.go:147-149 | an id is collected iff it is below one of the raw comments |
| CommentService.KeepOutside | server/service/comment.go:150-154 | exactly the comments whose id was not collected, in order |
| CommentService.UserRows | server/service/comment.go:131-136 | exactly the rows of that user |
| CommentService.TopLevel | server/service/comment.go:26-30 | exactly the article's rows with no parent |
| CommentService.KeptIffNotBelowOwn | server/service/comment.go:147-155 | a user's comment is kept iff it is not below another of their own comments |
| CommentService.SelfNotBelow | server/service/comment.go:147-155 | no comment is below itself, so a root of the user's own is never dropped |
| CommentService.Store.constructor | server/service/comment.go:80-99 | the table with its next auto-increment id |
| CommentService.Store.CommentCreate | server/service/comment.go:80-99 | a positive parent id naming no comment is refused and nothing is created; otherwise one row is appended, with the parent only when the id is positive |
| CommentService.Store.DeleteCommentAndChildren | server/service/comment.go:210-225 | exactly the comment and its descendants are removed |
| CommentService.Store.CommentDelete | server/service/comment.go:102-126 | empty ids change nothing; a missing or foreign comment returns the error with the table rolled back; otherwise the table is the batch result |
| CommentService.Store.CommentInfoByArticleID | server/service/comment.go:20-63 | the article's top-level comments, each loaded with its replies |
| CommentService.Store.CommentInfo | server/service/comment.go:129-156 | the user's comments loaded, without those that are below another of theirs |
| ArticleService.TextMatches | server/service/article.go:46-56 | four match clauses on title, keyword, abstract and content, all for the query |
| ArticleService.SortField | server/service/article.go:86-105 | time, view, comment and like map to their fields, anything else to created_at |
| ArticleService.SortKey | server/service/article.go:86-105 | every sort field has a key |
| ArticleService.SortKeyRoundTrip | server/service/article.go:86-105 | the key and field mappings are inverse on the four sorts |
| ArticleService.OrderOf | server/service/article.go:106-110 | ascending iff the order is `asc` |
| ArticleService.ArticleSearch | server/service/article.go:35-130 | MatchAll iff no query, tag or category; otherwise should/must/filter hold exactly the given conditions; a sort iff one is asked for; paging as EsPagination |
| ArticleService.ArticleList | server/service/article.go:377-425 | MatchAll sorted by created_at desc iff no filter; with filters, the title and abstract matches and the category term, with no sort |
| ArticleService.Toggle | server/service/article.go:148-171 | on an existing article the record flips and likes move by one accordingly; nothing else changes |
| ArticleService.ToggleTwice | server/service/article.go:148-171 | two likes restore the records and the count |
| ArticleService.NewArticle | server/service/article.go:221-232 | keyword equals title, created equals updated equals now, counts zero, request fields copied |
| ArticleService.Create | server/service/article.go:213-258 | refused iff the title exists; otherwise the new id is added |
| ArticleService.CreateKeepsTitlesUnique | server/service/article.go:213-258 | creation keeps titles unique |
| ArticleService.CreateTwiceRefused | server/service/article.go:214-220 | creating the same title twice is refused the second time |
| ArticleService.FirstMissing | server/service/article.go:266-270 | none iff every id exists; otherwise the first id of the batch that does not, the one whose lookup fails first |
| ArticleService.Delete | server/service/article.go:260-309 | empty ids are a no-op; a missing id is an error; otherwise exactly those articles are removed |
| ArticleService.DeleteKeepsTitlesUnique | server/service/article.go:260-309 | deletion keeps titles unique |
| ArticleService.Service.constructor | server/service/article.go:148-176 | the records and articles given |
| ArticleService.Service.ArticleLike | server/service/article.go:148-172 | the state becomes Toggle of the old state; a missing document is an error with the transaction rolled back |
| ArticleService.Service.ArticleIsLike | server/service/article.go:174-176 | true iff a like record exists |
| ArticleService.Service.ArticleCreate | server/service/article.go:213-258 | the index becomes Create's result, or is unchanged with its error |
| ArticleService.Service.ArticleDelete | server/service/article.go:260-309 | the index becomes Delete's result, or is unchanged with its error |
| Jwt.Message | server/utils/jwt.go:17-22 | each error has a non-empty text |
| Jwt.MessageInjective | server/utils/jwt.go:17-22 | the text identifies the error |
| Jwt.Classify | server/utils/jwt.go:102-113 | malformed first, then expired, then not yet valid, anything else invalid |
| Jwt.ClassifyOnlyThreeBits | server/utils/jwt.go:102-113 | only the three tested bits matter; without them the error is invalid |
| Jwt.ClassifyPriority | server/utils/jwt.go:102-113 | malformed wins over everything, expired over not yet valid |
| Jwt.ParseToken | server/utils/jwt.go:97-121 | claims iff parsed and valid; a validation error is classified; any other failure is invalid |
| Jwt.Registered | server/utils/jwt.go:37-41 | audience TAP, the issuer, expiry after the lifetime |
| Jwt.CreateAccessClaims | server/utils/jwt.go:33-44 | the whole base claims, audience TAP, issuer, expiry |
| Jwt.CreateRefreshClaims | server/utils/jwt.go:53-64 | the user id only, with the same registered claims |
| Jwt.RefreshCarriesOnlyUserId | server/utils/jwt.go:55-57 | refresh claims are equal iff the user ids are |
| Jwt.AccessAndRefreshAgree | server/utils/jwt.go:33-64 | both tokens share the audience and differ in expiry by the lifetime difference |
| Jwt.ParsePair | server/utils/jwt.go:73-94 | exactly one of claims and error |
| Jwt.ParseAccessToken | server/utils/jwt.go:73-82 | exactly one of claims and error; claims iff the token is valid |
| Jwt.ParseRefreshToken | server/utils/jwt.go:85-94 | exactly one of claims and error; claims iff the token is valid |
| CliFlag.OrderComplete | server/flag/enter.go:66-136 | every flag is tested once and the names are distinct |
| CliFlag.Choose | server/flag/enter.go:66-142 | the first present flag in the order; none iff no flag is present |
| CliFlag.SinglePresentChosen | server/flag/enter.go:66-136 | a lone present flag is the one that runs |
| CliFlag.ActionOf | server/flag/enter.go:86-121 | the import actions get the flag's string as path |
| CliFlag.JoinedRoundTrip | server/flag/enter.go:88-94 | the joined SQL-import errors read back line by line |
| CliFlag.CombineErrors | server/flag/enter.go:90-93 | the loop builds the joined text, each error followed by a newline |
| CliFlag.Report | server/flag/enter.go:66-142 | an error line iff the action failed, with the joined text for the SQL import; the ES import logs its count |
| CliFlag.Run | server/flag/enter.go:54-143 | more than one flag stops everything; no known flag is unknown command; otherwise the chosen action runs and its log follows its errors |
| CliFlag.InitFlag | server/flag/enter.go:168-189 | with at most one argument nothing happens; otherwise the process exits, 1 on a library error or too many flags, else 0, with the help note only after a help flag |
| Qiniu.Ext | server/utils/upload/qiniu.go:28 | a suffix that is empty or a dot with no further dot or slash |
| Qiniu.Stem | server/utils/upload/qiniu.go:29 | the stem followed by the extension is the file name |
| Qiniu.FileKey | server/utils/upload/qiniu.go:44 | digest, dash, time, extension |
| Qiniu.KeyKeepsExtension | server/utils/upload/qiniu.go:44 | the key has the file's extension |
| Qiniu.LimitIsExclusive | server/utils/upload/qiniu.go:22-25 | a file exactly at the limit is refused and one byte less is not |
| Qiniu.UploadImage | server/utils/upload/qiniu.go:20-62 | too large first, then a non-whitelisted extension, then the open error, then the storage error; success iff both checks pass, the file opens and the storage accepts the key, and then the result is image path + stored key with that key |
| Qiniu.UploadedUrl | server/utils/upload/qiniu.go:44-61 | the URL is the image path followed by the key, which ends in the extension |
| Qiniu.ZoneOf | server/utils/upload/qiniu.go:76-89 | a zone iff the name is one of the eleven listed |
| Qiniu.ZoneTable | server/utils/upload/qiniu.go:76-89 | a name selects a zone iff it is that zone's short code or long name |
| Qiniu.QiniuConfig | server/utils/upload/qiniu.go:71-91 | the two flags copied; the zone is one the name belongs to, or unset when it belongs to none |

## Left out

- Network, database, search and SDK I/O are parameters: axios replies, gorm queries, the Elasticsearch client and the Qiniu SDK.
- The clock is a parameter or left out: `new Date()` timestamps, `time.Now` and its formatting.
- MD5 and the document id generator are parameters. The generator is any id not yet in the index.
- Random captcha and verification codes are left out.
- HMAC signing and signature checking (section 3.2 of RFC 7518) stay in the JWT library; its verdict enters as `Jwt.Verdict`.
- `ParseDuration` is a parameter: the `lifetime` in seconds.
- The NumericDate truncation to whole seconds is not modelled: `expiresAt` is an integer second count.
- Timers are one call per tick. The 200 ms, 3000 ms, 100 ms and 1000 ms delays are not modelled.
- Concurrency is modelled sequentially:
  - the goroutine fan-out of `CommentInfoByArticleID` is a loop;
  - the async view counter of `ArticleInfoByID` is left out;
  - upload cancellation tokens are left out;
  - an interleaving of two `initializeUserInfo` calls is left out.
- Database and search errors inside `loadChildren`, `commentExists`, `deleteCommentAndChildren` and the index helpers are not modelled. Only the errors the service itself raises are.
- CommentService.Store.CommentInfo: the `created_at desc` order of the raw rows is not modelled; table order is used.
- CommentService: the `idMap` of `traverseChildren` is threaded as a set value rather than a shared map.
- CommentService: `appTypes` is not part of this model. The administrator role is 2, as the client's `isAdmin` reads it.
- Go's fixed-width integers are unbounded here. The pagination offset cannot overflow in the model.
- Qiniu.UploadImage: the size in megabytes is a float division in the source. It is modelled as the exact integer comparison `size >= limit * 1048576`.
- Qiniu: `WhiteImageList` is not part of this model; the whitelist is a configuration parameter.
- Qiniu: `DeleteImage` is a single SDK call and is left out.
- ArticleService.Service.ArticleDelete: the comment cascade and the category, tag and image side tables are not modelled.
- ArticleService: `ArticleCreate`'s category, tag and image table updates are not modelled.
- ArticleService: `ArticleUpdate`, `ArticleInfoByID`, `ArticleCategory`, `ArticleTags` and `ArticleLikesList` are not modelled.
- ArticleService: the `Exits`, `Get`, `Create` and `Delete` index helpers are not part of this model; they are map operations.
- Jwt: the request types' `BaseClaims` are not part of this model. Only `UserID` is read, and the other claims are an opaque map.
- CliFlag: the logger and `os.Exit` are returned values. The actions `SQL`, `SQLExport` and the rest are the `perform` parameter.
- CliFlag: `NewApp`'s flag registration and the library's own parsing are the `AppRun` parameter.
- RegisterForm.Form.SubmitForm: antd's email-format check is the `emailOk` parameter. Length rules are stated exactly, in characters.
- ForgotPasswordForm.Form.SubmitForm: antd's email-format check is the `emailOk` parameter.
- Breadcrumb.Capitalize: `toUpperCase` is modelled for ASCII letters only. Unicode case mapping is left out.
- Router.Route: percent-encoded characters in the pathname are matched as written. React Router decodes them before matching.
- ArticlePage.Page.GetArticleComments: the `Date` conversion of timestamps is left out.
- CommentItem: the recursive rendering of children and the `toLocaleString` times are rendering only.
- Request: `message` toasts, `console` logging and modal texts are left out. React's rule against calling `useNavigate` outside a component is not reasoned about; navigation is a returned value.
- All rendering, styling and animation beyond the predicates listed above are left out.
