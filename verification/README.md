# iArchive core, modelled in Dafny

iArchive is the web front end of an institutional digital archive. Visitors browse and
search a collection of archive items. Signed-in users keep a list of saved items. Staff use an
administration panel to manage users, materials and categories and to decide on requests for
restricted material. This project models the logic behind those screens as pure Dafny
functions over immutable data and proves what that logic guarantees.

The modules follow the program's structure:

- `Storage`: the browser's key-value storage as the data provider uses it. It covers
  `loadFromStorage` with its fallback rule and the write of a serialised value.
- `Catalog`: the data provider. It holds the seed lists of users, materials and categories
  and the add / update / delete operations, where new ids are one more than the largest id.
  It also holds the initial load from storage and the write-back of every list.
- `Auth`: the authentication provider. It covers the session record built by `login`,
  `logout`, the "authenticated" flag, the restore at start-up and the saved-items toggle.
- `Collections`: the browse page's pipeline. Search, category filter, date sort and
  pagination run in that order, six items per page. The module also reads the URL's query
  parameters and rewrites them.
- `CollectionsScenarios`: concrete runs of that pipeline on the page's eight items.
- `Login` and `Signup`: the two forms' validation and decisions. `Signup` also has the
  password-strength meter and its label.
- `Zoom`: the document viewer's zoom stepper.
- `AccessRequests`: the approve / deny table for access requests.
- `AdminFilters`: the search boxes of the three administration tables.
- `Wrappers`, `Seqs` and `Text` are shared helpers:
  - `Wrappers` defines `Option` and `Outcome`.
  - `Seqs` defines an order-preserving filter, subsequences and a conditional map.
  - `Text` defines ASCII case mapping, substring search and decimal numerals.

Serialisation (`JSON.stringify` / `JSON.parse`) is passed in as functions. A parse that
throws is a parse that returns `None`. Dates are ISO dates `YYYY-MM-DD` written as the number
`YYYYMMDD`, which orders them the same way as their timestamps.

## Model

| member | source | states |
|---|---|---|
| `Storage.LoadFromStorage` | src/contexts/DataContext.tsx:77-84 | When the key holds non-empty text that parses, the result is the parsed value. A missing key, empty text or a failed parse all give the fallback. |
| `Storage.Save` | src/contexts/DataContext.tsx:93-95 | After a write, the key holds the serialised value. Every other key is unchanged, and no other key appears. |
| `Storage.SaveThenLoad` | src/contexts/DataContext.tsx:77-95 | A value written and read back under the same key is the value, when the codec round-trips it to non-empty text. |
| `Storage.SaveOtherKey` | src/contexts/DataContext.tsx:77-95 | A write under one key does not change what is read under another. |
| `Catalog.NextId` | src/contexts/DataContext.tsx:99 | A new id exceeds every id present. It is 1 for an empty list, and otherwise one more than some existing id. |
| `Catalog.AddUser` | src/contexts/DataContext.tsx:98-101 | The old users stay in place. One user is appended with the given data and an id above all existing ids (1 when the list is empty). |
| `Catalog.UpdateUser` | src/contexts/DataContext.tsx:102-104 | Users with another id are unchanged. Users with the id take each field the patch supplies and keep their id and the fields it leaves out. |
| `Catalog.DeleteUser` | src/contexts/DataContext.tsx:105-107 | What remains is exactly the users whose id differs, each as often as before. |
| `Catalog.AddUserKeepsIdsDistinct` | src/contexts/DataContext.tsx:98-101 | Adding a user keeps user ids pairwise distinct. |
| `Catalog.UpdateUserFrame` | src/contexts/DataContext.tsx:102-104 | Updating an absent id changes nothing. Repeating an update has no further effect. Ids, and their distinctness, are preserved. |
| `Catalog.DeleteUserFrame` | src/contexts/DataContext.tsx:105-107 | Delete keeps the survivors in order and is idempotent. It is a no-op for an absent id and preserves distinct ids. |
| `Catalog.NextMaterialId` | src/contexts/DataContext.tsx:111 | The new material id is a decimal numeral without a leading zero. Its value is one more than the largest existing id's numeric value, so it exceeds every one of them ("1" for an empty list). This matches the source while the value stays below 2^53. |
| `Catalog.AddMaterial` | src/contexts/DataContext.tsx:110-113 | Appends one material with the given data and the id `NextMaterialId` computes, leaving the others in place. |
| `Catalog.UpdateMaterial` | src/contexts/DataContext.tsx:114-116 | Like `UpdateUser`, for materials keyed by string id. |
| `Catalog.DeleteMaterial` | src/contexts/DataContext.tsx:117-119 | What remains is exactly the materials whose id differs, each as often as before. |
| `Catalog.AddMaterialKeepsIdsDistinct` | src/contexts/DataContext.tsx:110-113 | Adding a material keeps ids numeric and pairwise distinct. |
| `Catalog.UpdateMaterialFrame` | src/contexts/DataContext.tsx:114-116 | Updating a material is a no-op for an absent id and idempotent, and it preserves ids. |
| `Catalog.DeleteMaterialFrame` | src/contexts/DataContext.tsx:117-119 | Deleting a material keeps order, is idempotent, is a no-op for an absent id and preserves distinct ids. |
| `Catalog.AddCategory` | src/contexts/DataContext.tsx:122-125 | Appends one category with the given data and an id above all existing ids. |
| `Catalog.UpdateCategory` | src/contexts/DataContext.tsx:126-128 | Like `UpdateUser`, for categories. |
| `Catalog.DeleteCategory` | src/contexts/DataContext.tsx:129-131 | What remains is exactly the categories whose id differs, each as often as before. |
| `Catalog.AddCategoryKeepsIdsDistinct` | src/contexts/DataContext.tsx:122-125 | Adding a category keeps category ids pairwise distinct. |
| `Catalog.UpdateCategoryFrame` | src/contexts/DataContext.tsx:126-128 | Updating a category is a no-op for an absent id and idempotent, and it preserves ids. |
| `Catalog.DeleteCategoryFrame` | src/contexts/DataContext.tsx:129-131 | Deleting a category keeps order, is idempotent, is a no-op for an absent id and preserves distinct ids. |
| `Catalog.LoadCatalog` | src/contexts/DataContext.tsx:77-90 | Each list starts as the parsed stored value when its key holds non-empty text that parses. Otherwise it starts as its seed list: for a missing key, empty text or a failed parse. |
| `Catalog.PersistCatalog` | src/contexts/DataContext.tsx:93-95 | Each list is stored, serialised, under its own key. Every other key keeps its value, and no other key is added. |
| `Catalog.PersistThenLoad` | src/contexts/DataContext.tsx:88-95 | Reloading after persisting restores users, materials and categories exactly, given codecs that round-trip. |
| `Catalog.SeedIdsDistinct` | src/contexts/DataContext.tsx:31-54 | The seed lists satisfy the id invariants the operations preserve. |
| `Auth.LocalPart` | src/contexts/AuthContext.tsx:37 | `email.split("@")[0]` is a prefix of the email with no '@', and it is followed by '@' whenever it is shorter than the email. |
| `Auth.Capitalize` | src/contexts/AuthContext.tsx:37 | Only the first character's case may change, and it ends up not lowercase. |
| `Auth.NewUser` | src/contexts/AuthContext.tsx:35-42 | The login record has id "u123", the given email and role, and an empty saved list. Its avatar is seeded by the email. Its name is the email's local part with the first character upper-cased and the rest unchanged. It has no '@'. |
| `Auth.Login` | src/contexts/AuthContext.tsx:34-45 | After login the new record is the session, the user is authenticated and the record is stored under "iarchive_user". Every other stored key keeps its value, and no other key is added. |
| `Auth.Logout` | src/contexts/AuthContext.tsx:47-50 | After logout nobody is authenticated and the stored record is gone. Every other stored key is kept, and no key is added. |
| `Auth.Restore` | src/contexts/AuthContext.tsx:27-32 | At start-up a session exists exactly when storage holds non-empty text that parses to a record (the text "null" does not). The session is that parsed record, and storage is untouched. |
| `Auth.LoginSurvivesReload` | src/contexts/AuthContext.tsx:27-50 | A reload after login restores the same user, and a reload after logout restores nobody. |
| `Auth.LoginNameExample` | src/contexts/AuthContext.tsx:37 | "maria@email.com" is shown as "Maria". |
| `Auth.ToggleSaved` | src/contexts/AuthContext.tsx:55-60 | The item is in the result exactly when it was not saved before, and other items are neither added nor lost. An unsaved item is appended. A saved item is removed with every copy, which leaves a shorter subsequence in which every other item occurs as often as before. |
| `Auth.ToggleSave` | src/contexts/AuthContext.tsx:52-65 | Without a session nothing changes. Otherwise only the saved list changes, to the toggled list, and the updated record is stored. Every other stored key keeps its value, and no other key is added. |
| `Auth.AuthenticationFollowsSession` | src/contexts/AuthContext.tsx:34-68 | `isAuthenticated` (`!!user`) holds after login, fails after logout and is unchanged by a toggle. |
| `Auth.ToggleTwiceUnsaved` | src/contexts/AuthContext.tsx:55-60 | Toggling an unsaved item twice restores the list. |
| `Auth.ToggleTwiceSaved` | src/contexts/AuthContext.tsx:55-60 | Toggling a saved item twice moves it to the end. When the list has no repeats, the same items remain. |
| `Auth.ToggleTwiceReorders` | src/contexts/AuthContext.tsx:55-60 | Toggling twice is not the identity: ["a","b"] becomes ["b","a"]. |
| `Auth.ToggleKeepsDistinct` | src/contexts/AuthContext.tsx:55-60 | Toggling keeps the saved list free of repeats. |
| `Collections.SearchStage` | src/pages/Collections.tsx:133-141 | An empty query keeps all items. Otherwise the result is exactly the items, in order, whose lowercased title, description or some subject includes the lowercased query. |
| `Collections.SearchStageFilters` | src/pages/Collections.tsx:133-141 | A non-empty query filters the items on the lowercased query. |
| `Collections.EmptySearchMatchesAll` | src/pages/Collections.tsx:133-141 | The empty-query guard changes nothing, because the empty query is included in every title. |
| `Collections.SearchIgnoresQueryCase` | src/pages/Collections.tsx:134 | The query and its lowercase form select the same items. |
| `Collections.CategoryStage` | src/pages/Collections.tsx:144-146 | "All" keeps all items. Any other value keeps exactly the items, in order, whose category equals it, case included. |
| `Collections.LowercaseCategoryLinksMatchNothing` | src/components/layout/Footer.tsx:45-54 | The footer's lowercase category values select no item of the page. |
| `Collections.LowercaseLinksAreNotOptions` | src/pages/Collections.tsx:115 | Every item's category is one of the page's category choices other than "All", and none of the footer's lowercase values is a choice. |
| `Collections.SortByDate` | src/pages/Collections.tsx:149-153 | The insertion sort returns a permutation of its input, sorted on the date key in the requested direction. |
| `Collections.SortStage` | src/pages/Collections.tsx:149-153 | The sort permutes its input: newest gives non-increasing dates, anything else non-decreasing. |
| `Collections.SortIsStable` | src/pages/Collections.tsx:149-153 | Items with equal dates keep their input order. |
| `Collections.SortByDateIsTheSortedArrangement` | src/pages/Collections.tsx:149-153 | With distinct dates, the sort's result is the one sorted arrangement of the items. |
| `Collections.TotalPages` | src/pages/Collections.tsx:158 | `Math.ceil(n / 6)`: the smallest page count whose pages hold n items. |
| `Collections.Slice` | src/pages/Collections.tsx:159-162 | `slice` never returns more than the list or the index gap. In range it is the plain subsequence. |
| `Collections.PaginatedItems` | src/pages/Collections.tsx:159-162 | Page p of 1..TotalPages is items (p-1)*6 up to min(p*6, n). Later pages and page 0 are empty. No page holds more than six items. |
| `Collections.PagesPartitionList` | src/pages/Collections.tsx:158-162 | Pages 1 to TotalPages, concatenated, are the whole list. |
| `Collections.NegativePageCountsFromEnd` | src/pages/Collections.tsx:159-162 | Page -1 of eight items is their first two items, as `slice` reads negative indices. |
| `Collections.PrevPage` | src/pages/Collections.tsx:459 | `Math.max(1, current - 1)`: the least value that is at least 1 and at least current - 1. |
| `Collections.NextPage` | src/pages/Collections.tsx:476 | `Math.min(totalPages, current + 1)`: the greatest value that is at most totalPages and at most current + 1. |
| `Collections.PageStepsStayInRange` | src/pages/Collections.tsx:459-476 | From a page in range, "previous" and "next" stay within 1..totalPages and move by at most one. They stand still exactly at the first and last page. |
| `Collections.StepsFromOutOfRangePage` | src/pages/Collections.tsx:459-476 | The page is read unchecked. Beyond the last page, "next" gives the last page, and "previous" steps down by one and can stay out of range. Below 1, "previous" gives 1. With eight items, `?page=10` shows nothing, with "previous" 9 and "next" 2. |
| `Collections.UpdateSearchParams` | src/pages/Collections.tsx:164-175 | The key is set to a value other than "" and "All" and deleted otherwise. Any key but "page" also drops "page". Every other parameter is kept. |
| `Collections.GetOr` | src/pages/Collections.tsx:122-125 | An absent or empty parameter reads as the fallback. |
| `Collections.ReadQuery` | src/pages/Collections.tsx:122-125 | Search, category, sort and page read as their parameters, with the defaults "", "All", "newest" and 1. A present page reads as the integer its numeral denotes. |
| `Collections.UpdateThenRead` | src/pages/Collections.tsx:122-125 | Writing a filter control and reading the URL back gives the written value (or the default it clears to). The other controls are unchanged and the page resets to 1. |
| `Collections.UpdatePageThenRead` | src/pages/Collections.tsx:164-175 | Writing a page number and reading it back gives that page, with the filters unchanged. |
| `Collections.Browse` | src/pages/Collections.tsx:122-162 | The rendered page is the requested page of the filtered list and holds at most six items. The count is the filtered list's length and never exceeds the item list. The page count is `ceil(count / 6)`. |
| `Collections.FilteredItems` | src/pages/Collections.tsx:129-156 | The filtered list holds exactly the items that match both the search and the category, each as often as in the input. Its dates are in the order the sort asks for. |
| `Collections.StageCounts` | src/pages/Collections.tsx:133-146 | After search and category, a matching item occurs as often as in the input and any other item not at all. |
| `Collections.FilteredItemsSpec` | src/pages/Collections.tsx:129-156 | The filtered list holds exactly the items that match both the search and the category, as a permutation of their input order. |
| `CollectionsScenarios.SearchYearbookScenario` | src/pages/Collections.tsx:32-156 | Searching "yearbook" gives items 1 and 5, newest first. |
| `CollectionsScenarios.DocumentsScenario` | src/pages/Collections.tsx:32-156 | The Documents category gives items 8 and 4, newest first. |
| `CollectionsScenarios.OldestScenario` | src/pages/Collections.tsx:32-156 | Sorting "oldest" orders the eight items from 1950 to 2023. |
| `CollectionsScenarios.OldestPages` | src/pages/Collections.tsx:158-162 | Those eight items make two pages, of six and two, and page 3 is empty. |
| `Signup.ValidateForm` | src/pages/Signup.tsx:32-45 | A form passes exactly when every check holds. Each error is reported exactly when its check is the first to fail: required fields, then '@', then length 8, then the match. |
| `Signup.EarlierChecksIgnoreConfirmation` | src/pages/Signup.tsx:32-41 | The first three checks do not depend on the confirmation field. |
| `Signup.PasswordStrength` | src/pages/Signup.tsx:72-80 | A non-empty password scores 25 for each criterion it meets (length, upper case, digit, symbol), and an empty one scores 0. So the strength is one of 0, 25, 50, 75 and 100. It is 100 exactly when all four criteria hold, and 0 exactly for a short, all-lowercase password. |
| `Signup.StrengthGrowsWithExtension` | src/pages/Signup.tsx:72-80 | Typing more characters never lowers the strength. |
| `Signup.AcceptedPasswordScores` | src/pages/Signup.tsx:39-41 | A password that passes validation scores at least 25. |
| `Signup.Label` | src/pages/Signup.tsx:215-217 | The label thresholds: Weak up to 25, Fair up to 50, Good up to 75, Very Strong above. |
| `Signup.LabelMonotone` | src/pages/Signup.tsx:215-217 | A higher strength never gets a lower label. |
| `Signup.LabelsOfScores` | src/pages/Signup.tsx:215-217 | Scores 0 and 25 show "Weak", 50 "Fair", 75 "Good" and 100 "Very Strong". |
| `Login.Decide` | src/pages/Login.tsx:31-55 | Empty fields are reported first, then a missing '@'. Any other input is accepted. Only the fixed admin pair gets the admin role and "/admin"; everyone else gets student and "/". |
| `Login.Submit` | src/pages/Login.tsx:31-55 | A rejected input leaves the session alone. An accepted one is exactly `Auth.Login` with the email and the decided role. |
| `Login.RejectionMessages` | src/pages/Login.tsx:31-37 | An empty field is reported as "Please fill in all fields", and an email without '@' as "Please enter a valid email address". |
| `Login.EmptyCheckedBeforeAt` | src/pages/Login.tsx:31-37 | The empty-field check comes first: an empty password is reported as such whatever the email. |
| `Login.PasswordIgnoredForOthers` | src/pages/Login.tsx:31-55 | For any email but the admin's, the password's content is never examined. |
| `Login.WrongAdminPasswordIsStudent` | src/pages/Login.tsx:39-52 | The admin email with another password logs in as a student. |
| `Zoom.HandleZoom` | src/pages/MaterialView.tsx:96-102 | "in" adds 25 exactly below 200, and "out" removes 25 exactly above 50. Otherwise the zoom stays. |
| `Zoom.EnabledIffEffective` | src/pages/MaterialView.tsx:161-167 | A zoom button is enabled exactly when pressing it changes the zoom. |
| `Zoom.ReachableZoomsAreValid` | src/pages/MaterialView.tsx:88-102 | Every zoom reachable from 100 is a multiple of 25 in [50, 200]. |
| `Zoom.ValidZoomsAreReachable` | src/pages/MaterialView.tsx:88-102 | Every such zoom is reachable from 100. |
| `Zoom.InThenOut` | src/pages/MaterialView.tsx:96-102 | Below the maximum, zooming in then out is a round trip. |
| `Zoom.OutThenIn` | src/pages/MaterialView.tsx:96-102 | Above the minimum, zooming out then in is a round trip. |
| `Zoom.BoundsAreFixed` | src/pages/MaterialView.tsx:96-102 | At 200 zooming in, and at 50 zooming out, leaves the zoom where it is. |
| `AccessRequests.HandleAction` | src/pages/admin/AccessRequests.tsx:28-31 | Requests with the id take the decided status, and nothing else changes. |
| `AccessRequests.UnknownIdIsNoOp` | src/pages/admin/AccessRequests.tsx:28-31 | An id not in the table changes nothing. |
| `AccessRequests.HandleActionIdempotent` | src/pages/admin/AccessRequests.tsx:28-31 | Taking the same decision twice is taking it once. |
| `AccessRequests.LaterDecisionWins` | src/pages/admin/AccessRequests.tsx:28-31 | Of two decisions on one id, the later one stands. |
| `AccessRequests.OfferedDecisions` | src/pages/admin/AccessRequests.tsx:97-121 | Decision buttons appear exactly on pending requests. |
| `AccessRequests.DecidedRequestsOfferNothing` | src/pages/admin/AccessRequests.tsx:97-121 | Once decided, a request offers no further decision. |
| `AccessRequests.PendingCount` | src/pages/admin/AccessRequests.tsx:97 | The number of requests still awaiting a decision (status "Pending", the rows that show the buttons) is the length of the table filtered to them. |
| `AccessRequests.DecisionReducesPending` | src/pages/admin/AccessRequests.tsx:28-31 | A decision never adds pending requests, and it removes one when a pending request has the id. |
| `AccessRequests.ApproveFirstRequest` | src/pages/admin/AccessRequests.tsx:17-31 | Approving request 1 of the seed table leaves one pending request. |
| `AdminFilters.FilterMaterials` | src/pages/admin/Materials.tsx:35-38 | The result is exactly the rows, in order, whose lowercased title or category includes the lowercased term, each as often as in the table. |
| `AdminFilters.FilterUsers` | src/pages/admin/Users.tsx:36-39 | The result is exactly the rows, in order, whose lowercased name or email includes the lowercased term, each as often as in the table. |
| `AdminFilters.FilterCategories` | src/pages/admin/Categories.tsx:34-36 | The result is exactly the rows, in order, whose lowercased name includes the lowercased term, each as often as in the table. |
| `AdminFilters.EmptyTermShowsAllMaterials` | src/pages/admin/Materials.tsx:35-38 | An empty term shows every material. |
| `AdminFilters.EmptyTermShowsAllUsers` | src/pages/admin/Users.tsx:36-39 | An empty term shows every user. |
| `AdminFilters.EmptyTermShowsAllCategories` | src/pages/admin/Categories.tsx:34-36 | An empty term shows every category. |
| `AdminFilters.MaterialFilterIgnoresCase` | src/pages/admin/Materials.tsx:35-38 | The term's case does not matter. |
| `AdminFilters.UserFilterIgnoresCase` | src/pages/admin/Users.tsx:36-39 | The term's case does not matter. |
| `AdminFilters.CategoryFilterIgnoresCase` | src/pages/admin/Categories.tsx:34-36 | The term's case does not matter. |
| `AdminFilters.ItemsTextNotSearched` | src/pages/admin/Categories.tsx:34-36 | A category whose name lacks the term is dropped, whatever its items description. |
| `AdminFilters.MatchIgnoresItems` | src/pages/admin/Categories.tsx:34-36 | Changing a row's items description never changes whether that row matches the search. |
| `AdminFilters.ItemsTextIrrelevant` | src/pages/admin/Categories.tsx:34-36 | The items description is never searched: rewriting it on every row and then searching keeps the same rows as searching first and then rewriting. |
| `AdminFilters.RecordsFindsNoCategory` | src/pages/admin/Categories.tsx:23-36 | "records" finds no seed category, although the Documents items text contains it. |

## Left out

- `Storage.LoadFromStorage` (and so `Catalog.LoadCatalog`) takes a parse that either yields a value of the list type or fails, and a failure gives the fallback. In the source, `JSON.parse` can also succeed with a value of another shape, such as `null`, `{}` or `5` for stored text "null", "{}" or "5". `loadFromStorage` then returns that value as the list state without any fallback, and the next use of `.length` or `.map` on it throws. That path is not modelled.
- Browser storage is a map from key to text, and `JSON.stringify` / `JSON.parse` are parameters. A `JSON.parse` that throws during the authentication provider's start-up effect (an uncaught error in the source) is not modelled: `Auth.Restore` takes a parse that returns a record, or nothing where `JSON.parse` yields `null`.
- React state, effects and re-rendering are modelled as functions from old state to new state. The persistence effects are modelled as the explicit writes `Catalog.PersistCatalog` and the storage updates inside `Auth.Login`, `Auth.Logout` and `Auth.ToggleSave`.
- Routing, toasts, timers (the simulated network delays) and every visual detail are not modelled. That covers layout, badge colours, view modes, the access-request dialog and the sample document in the viewer. These do not decide any value the core computes.
- `Catalog.AddMaterial` and `Catalog.NextMaterialId` require every material id to be a decimal numeral. Ids outside that requirement are not modelled. `parseInt` reads a numeric prefix of such an id ("12abc" gives 12), reads a hex prefix ("0x1A" gives 26), or gives `NaN`, which yields the id "NaN".
- `Catalog.NextMaterialId`: the model computes with unbounded integers, so its promise (the canonical numeral of the largest value plus one) matches the source only while that value is below 2^53. The source computes with doubles. Above 2^53 `parseInt` rounds: for the id "9007199254740993" the source gives "9007199254740992", which may be an id already in use, while the model gives "9007199254740994". From 1e21 up, `toString` writes the exponent form ("1e+21"), which is not a decimal numeral.
- `Catalog.NextId` uses unbounded integers. The engine's limits are not modelled: the spread argument limit of `Math.max` and floating-point precision above 2^53.
- `Collections.ReadQuery` and `Collections.Browse` require a "page" parameter, when present and non-empty, to be an optionally negative decimal numeral. `parseInt` on other text (a `NaN` page, trailing junk, signs such as "+") is not modelled.
- Dates are numbers YYYYMMDD, not JavaScript `Date` timestamps. An unparsable date (a `NaN` comparator result) is not modelled.
- `Collections.SortStage` is modelled as a stable insertion sort. `Array.prototype.sort` is stable as well, so the result is the same for every input.
- Case mapping covers ASCII letters only, and lengths count characters rather than UTF-16 code units. The page data and the fixed credentials are ASCII.
- Patches model each field as present or absent. An explicit `undefined` value inside a patch object is not modelled.
- URL parameters are a map with one value per key. Repeated keys and parameter order are not modelled.
- `clearFilters` (which replaces the parameters with an empty set) is not modelled. It is the empty map that `Collections.ReadQuery` reads as the defaults.
- The access-request form on the viewer page only shows a toast, so it is not modelled. So are the profile page, the dashboard, settings, activity logs and the home-page sections.
- The administration tables search their own copies of the seed lists. These are equal to the data provider's seeds, so `AdminFilters` uses `Catalog.InitialMaterials`, `Catalog.InitialUsers` and `Catalog.InitialCategories`. Only the searched fields are modelled.
- `Auth.ToggleTwiceSaved`: the code does not make toggling twice restore every list without repeats. Toggling a saved item twice restores the same items, but the item moves to the end, so the order comes back only when it was already last (`Auth.ToggleTwiceReorders` shows this for ["a","b"]). The model proves exact restoration only for an unsaved item (`Auth.ToggleTwiceUnsaved`), and only the multiset for a saved one.
