# Vtex-Foulder: a verified model of the component library's core

Vtex-Foulder is a CRUD application for a library of UI components. The
backend is Express with Mongoose over MongoDB: categories, components, and a
collection of authentication metrics recorded around a password login and
TOTP two-factor authentication. The client is a React app that lists,
searches, shows, adds and edits components.

This project models the decision logic of both halves as pure Dafny
functions over immutable data, and proves what each part promises.

- **Documents and schemas** (`CategorySchema`, `ComponentSchema`,
  `AuthMetricsSchema`, `UserModel`). These cover field defaults, trimming
  setters, the hexadecimal colour validator, and the `fileType` and
  `authType` enums.
- **Store** (`Database`). The two collections the CRUD controllers use are
  maps from ObjectId to document. The invariants the controllers keep are
  valid documents, unique trimmed category names and references to existing
  categories.
- **Controllers** (`CategoryController`, `ComponentController`,
  `MetricsController`, `AuthController`). Each handler is a transition from
  a store or session to an answer and a new store. Guards are checked in the
  source's order (404, then 403, then 400). An id that is not an ObjectId
  makes the lookup throw before any guard, answered with 500. A refused
  request changes nothing. Status codes are modelled in `Http`.
- **Metrics service** (`MetricsService`). Each aggregation pipeline is a fold
  over the sequence of metric records: match, count, rate, min/mean/max, and
  the per-period grouping with its sort and limits.
- **Authentication plumbing** (`AuthMiddleware`, `AuthRoutes`, `Express`).
  This covers the session clean-up after ten minutes, the client-address
  fallback chain, the `authenticateJWT` decision table and the middleware
  order of the routes.
- **Seeding scripts** (`Seeding`). Both scripts seed the five default
  categories, and only into an empty collection when a user exists.
- **Client** (`ComponentForm`, `ViewComponent`, `ComponentsPage`,
  `ComponentCard`, `SearchBar`, `ComponentApi`, `ApiClient`,
  `SessionContext`). This covers:
  - the add/edit form's file-list editor and tag text codec;
  - the default tab and language map of the detail page;
  - filter state and pagination;
  - the card's fallbacks and truncation;
  - the query string;
  - the Bearer interceptor;
  - the session state.

  The detail page's category badge and "last edited" line follow the same
  rules as the card's (`ComponentCard.CategoryBadge` and
  `ComponentCard.ShowsEdited`; ViewComponentPage.jsx lines 194-201 and
  211-218).
- **JavaScript semantics** (`Js`, `JsObject`, `Text`). Only what the code
  relies on is modelled:
  - truthiness and `||` on strings;
  - objects as ordered key/value lists, so that spread and `URLSearchParams`
    keep insertion order;
  - `trim`, `split`, `join` and `parseInt`;
  - `Number` and `parseInt` on decimal text;
  - the code-point order of a database sort on strings.

Cryptography (bcrypt, TOTP, JWT signing and verification, QR encoding), the
clock, the database's full-text search and its calendar operators are
parameters of the functions that use them. The proofs hold for every
behaviour of these parameters.

## Model

| member | source | states |
|---|---|---|
| CategorySchema.MatchColor | Backend/src/models/category.js:14-22 | The scan accepts a colour exactly when `ValidColor` holds: a `#` and then exactly six or exactly three hex digits, with nothing after them. |
| CategorySchema.DefaultColorIsValid | Backend/src/models/category.js:16-19 | The default colour `#8B5CF6` passes the colour validator. |
| CategorySchema.NewCategory | Backend/src/models/category.js:3-36 | The name is trimmed and so has no whitespace at either end. A given description is trimmed. An omitted colour, icon or `isDefault` takes `#8B5CF6`, `folder` or false. Id and owner are kept. |
| CategorySchema.DefaultsSave | Backend/src/models/category.js:4-22 | A category built from a non-blank name with every other field defaulted passes validation. |
| ComponentSchema.ParseFileType | Backend/src/models/component.js:12-16 | Casting into the `fileType` enum accepts only one of the eight names, and an accepted value prints back as the same string. |
| ComponentSchema.FileTypeRoundTrip | Backend/src/models/component.js:15 | Every enum member's name is accepted and casts back to that member. |
| ComponentSchema.FileTypeAcceptedIffNamed | Backend/src/models/component.js:15 | A string is accepted exactly when it is the name of some member: both directions. |
| ComponentSchema.CastFile | Backend/src/models/component.js:3-21 | A file casts exactly when filename and content are present and non-empty and `fileType` is in the enum. It keeps those fields, and `isMain` holds only when it was given as true (default false). |
| ComponentSchema.CastFiles | Backend/src/models/component.js:43 | The `files` array casts exactly when every element casts, and the result is the element-wise cast, so a single bad file fails the save. |
| ComponentSchema.CastKeepsMainFlags | Backend/src/models/component.js:17-20 | The schema does not limit how many files are main: the cast array has a main file exactly when the request marked one. |
| ComponentSchema.TrimAll | Backend/src/models/component.js:39-42 | Every tag is trimmed, and count and order are kept. |
| ComponentSchema.BuildComponent | Backend/src/models/component.js:23-63 | Saves exactly when name and description are present and not blank and every file casts. The stored document is valid, with trimmed name, description and tags. It gets version `1.0.0`, `isPublic` true, and the given category, owner, files and dependencies. |
| AuthMetricsSchema.ParseAuthType | Backend/src/models/authMetrics.js:14-18 | Only the three enum names are accepted, and an accepted value prints back as the same string. |
| AuthMetricsSchema.AuthTypeRoundTrip | Backend/src/models/authMetrics.js:16 | Each of `login`, `2fa_verify` and `login_attempt` casts back to its own member. |
| AuthMetricsSchema.CastMetric | Backend/src/models/authMetrics.js:3-51 | A metric saves exactly when `userId`, a non-empty `username` and `success` are present and `authType` is in the enum. The optional fields are stored as given, and the timestamp defaults to the current time. |
| Database.ComponentCountZeroIff | Backend/src/controllers/categoryController.js:181-182 | `countDocuments({ category })` is zero exactly when no component references the category. |
| CategoryController.SavePreservesValid | Backend/src/models/category.js:4-22 | Storing a document that passes the validators and the unique name index keeps every category valid, stored under its own id, and uniquely named. |
| CategoryController.InsertByName | Backend/src/controllers/categoryController.js:7-9 | The result is the old list plus the new category, as a multiset, and one longer. |
| CategoryController.InsertByNameSorted | Backend/src/controllers/categoryController.js:9 | Inserting into a list sorted by name keeps it sorted. |
| CategoryController.ListCategories | Backend/src/controllers/categoryController.js:5-22 | The listing is sorted by name ascending (code-point order). It has one entry per stored category: every category appears and nothing else does. |
| CategoryController.GetCategoryById | Backend/src/controllers/categoryController.js:25-54 | An existing id gives the stored category and its component count, which is zero exactly when no component uses it. A missing id gives 404. |
| CategoryController.GetCategoryAt | Backend/src/controllers/categoryController.js:25-54 | A path id that is not an ObjectId makes the lookup throw (500); a well-formed one gets the by-id answer. |
| CategoryController.Draft | Backend/src/controllers/categoryController.js:70-76 | The new document has a trimmed name and is owned by the requester. It is not a default. Colour and icon fall back to `#8B5CF6` and `folder` unless given and non-empty (the `||` fallback). |
| CategoryController.CreateCategory | Backend/src/controllers/categoryController.js:57-93 | A missing name throws (500). An existing category with the trimmed name gives 400. Otherwise the result is 201 exactly when the name is not blank and the resulting colour is valid, and only then is the draft stored under the new id. Every other outcome leaves the store unchanged. |
| CategoryController.CreateCategoryPreservesValid | Backend/src/controllers/categoryController.js:57-93 | Whatever the body, a create keeps ids, validity, unique names and component references intact. |
| CategoryController.Patched | Backend/src/controllers/categoryController.js:131-134 | Name, colour and icon change only when the new value is truthy, and the name is trimmed. An undefined description is kept, null clears it, and a string is trimmed. Id, owner and `isDefault` never change. |
| CategoryController.UpdateCategory | Backend/src/controllers/categoryController.js:96-151 | The guards run in order: 404, then 403 for a non-owner, then 400 exactly when a truthy trimmed new name differs from the current one and another category has it. Success (200) is exactly when the guards pass and the patched document saves, and only then is the store changed. |
| CategoryController.UpdateCategoryAt | Backend/src/controllers/categoryController.js:96-151 | A path id that is not an ObjectId makes the lookup throw (500) and nothing changes; a well-formed one gets the update's answer. |
| CategoryController.SameNameNeverDuplicate | Backend/src/controllers/categoryController.js:117 | Re-sending the category's own name, even with surrounding whitespace, is never refused as a duplicate. |
| CategoryController.UpdateCategoryPreservesValid | Backend/src/controllers/categoryController.js:96-151 | An update keeps ids, validity, unique names and component references intact. |
| CategoryController.DeleteCategory | Backend/src/controllers/categoryController.js:154-202 | The guards run in order: 404, then 403 for a non-owner, then 400 for a default category, then 400 carrying the count while components use it. The delete succeeds exactly when none of these applies, and removes exactly that category. |
| CategoryController.DeleteCategoryAt | Backend/src/controllers/categoryController.js:154-202 | A path id that is not an ObjectId makes the lookup throw (500) and nothing is deleted; a well-formed one gets the delete's answer, and a 200 means the category is gone. |
| CategoryController.DefaultCategoryNeverDeleted | Backend/src/controllers/categoryController.js:173-178 | No delete request, from any user, removes a default category. |
| CategoryController.DeleteCategoryPreservesValid | Backend/src/controllers/categoryController.js:180-189 | A delete never leaves a component pointing at a missing category. |
| CategoryController.InsertByCount | Backend/src/controllers/categoryController.js:234-236 | Inserting into a list sorted by descending count keeps it sorted. Its members are the old ones plus the new entry. |
| CategoryController.InsertByCountKeepsDistinct | Backend/src/controllers/categoryController.js:209-212 | Inserting an entry with a new category id keeps one entry per category. |
| CategoryController.GetCategoryStats | Backend/src/controllers/categoryController.js:205-250 | There is exactly one entry for each existing category that has components. It carries the category's name, colour, icon and count, and the most used come first. Groups whose category is missing disappear at `$unwind`. |
| ComponentController.TagFilterList | Backend/src/controllers/componentController.js:32 | One entry per comma-separated piece, in order and including empty pieces. Each entry is the trimmed piece and holds no comma. |
| ComponentController.BuildFilter | Backend/src/controllers/componentController.js:18-34 | A text condition exactly when `search` is truthy, a category condition exactly when `category` is truthy (any ObjectId, or non-empty text) and then the category as sent, and a tag condition exactly when `tags` is truthy (the trimmed pieces). |
| ComponentController.SortOf | Backend/src/controllers/componentController.js:11-50 | Sorts on `sortBy`, default `createdAt`. Descending exactly when `sortOrder` is missing (default `desc`) or equal to `desc`; any other value is ascending. |
| ComponentController.Select | Backend/src/controllers/componentController.js:47 | `find(filter)`: exactly the components that satisfy every condition present, in the database's order. |
| ComponentController.SelectOne | Backend/src/controllers/componentController.js:47 | A single component is kept exactly when it satisfies the filter. |
| ComponentController.SelectAppend | Backend/src/controllers/componentController.js:47-50 | Selection keeps the database's order: selecting from two consecutive runs of the sorted collection is selecting from each and concatenating. |
| ComponentController.CeilDiv | Backend/src/controllers/componentController.js:61 | `Math.ceil(total / limit)`: the least page count whose pages cover the total. |
| ComponentController.CeilQuotient | Backend/src/controllers/componentController.js:61 | `Math.ceil(total / limit)` for a limit of either sign: the least integer at or above the quotient, stated by multiplying back (the inequalities flip for a negative limit). |
| ComponentController.PageNumber | Backend/src/controllers/componentController.js:11-52 | The page `page - 1` computes with: the number 1 when absent, otherwise what `Number` reads from the query text. |
| ComponentController.LimitNumber | Backend/src/controllers/componentController.js:12-61 | The limit `limit * 1` and `total / limit` compute with: the number 10 when absent, otherwise what `Number` reads from the query text. |
| ComponentController.PageOf | Backend/src/controllers/componentController.js:51-52 | `skip` then `limit` over the matches: at most `limit` of them, the ones starting at match `skip`, and a full page whenever more matches follow |
| ComponentController.PageOfIsPagedAnswer | Backend/src/controllers/componentController.js:51-63 | The page that `skip` and `limit` cut, with the total and `ceil(total / limit)`, is the answer the listing promises, for a limit of either sign. |
| ComponentController.GetComponents | Backend/src/controllers/componentController.js:5-72 | 500 exactly when the category is text that is not an ObjectId or the skip `(page-1)*limit` is negative. Otherwise the matches from position skip on: at most `\|limit\|` of them (a negative limit is one batch of that many, 0 is no limit), and a full page whenever more matches follow. With them come the total, `pages = ceil(total/limit)` (null for a limit of 0) and `current`, the page text as sent or the number 1 when none was. |
| ComponentController.GetComponentById | Backend/src/controllers/componentController.js:75-99 | 500 when the path id is not an ObjectId; otherwise the stored component when the id exists, and 404 when it does not. |
| ComponentController.InsertIsInserted | Backend/src/controllers/componentController.js:134 | Storing under a fresh id adds exactly that key and leaves categories and every other component unchanged. |
| ComponentController.CreateComponent | Backend/src/controllers/componentController.js:102-150 | The guards run in order. A missing category, or an ObjectId no category has, gives 400; other category text, the empty string included, makes the lookup throw (500). Then 400 when no file is main (a missing `files` throws, 500), then the schema (500). The result is 201 exactly when all pass, and only then is the document added. |
| ComponentController.CreatedComponentShape | Backend/src/controllers/componentController.js:124-132 | A created component is valid and owned by the requester, in the requested category. It is version `1.0.0` and public, has a main file, and gets `[]` for omitted tags and dependencies. |
| ComponentController.ApplyUpdate | Backend/src/controllers/componentController.js:196-201 | Each field is overwritten only when the body carries a truthy value. Name, description and tags are trimmed by their setters, and the files are cast. The update fails to cast exactly when given files fail the file schema or a truthy category is not an ObjectId. Id, owner, version and visibility never change. |
| ComponentController.UpdateComponent | Backend/src/controllers/componentController.js:153-219 | The guards run in order: 500 for a path id that is not an ObjectId, 404, 403 for a non-owner, then for a truthy category 500 when it is not an ObjectId and 400 when no category has it, then 400 for given files without a main one. The answer is 200 exactly when every guard passes and the updated document casts and validates; then only the target document changes, to the update applied. Any other answer leaves the store unchanged. |
| ComponentController.EmptyUpdateChangesNothing | Backend/src/controllers/componentController.js:196-203 | An update by the owner with an empty body succeeds and leaves the store exactly as it was. |
| ComponentController.DeleteComponent | Backend/src/controllers/componentController.js:222-253 | 500 for a path id that is not an ObjectId, 404 when missing, 403 for a non-owner; none of these changes the store. Otherwise it removes exactly that component and touches nothing else. |
| ComponentController.GetTags | Backend/src/controllers/componentController.js:256-262 | Every returned tag appears on some component and is not blank. Every non-blank tag of every component is returned. |
| ComponentController.CreateComponentPreservesIntegrity | Backend/src/controllers/componentController.js:102-150 | A create keeps every document under its own id and every component's category reference valid. |
| ComponentController.UpdateComponentPreservesIntegrity | Backend/src/controllers/componentController.js:153-219 | So does an update, because a new category is checked before it is assigned. |
| Seeding.SaveEach | Backend/src/scripts/initializeCategories.js:69-76 | The seeding loop only ever touches the category collection; components stay as they are. |
| Seeding.SaveEachKeeps | Backend/src/scripts/initializeCategories.js:69-76 | The loop only adds: every category stored before it ran is still there, unchanged. |
| Seeding.SaveEachKeys | Backend/src/scripts/initializeCategories.js:69-76 | When every seed saves, the loop adds exactly the seeds' ids to the collection. |
| Seeding.SaveEachSeeded | Backend/src/scripts/initializeCategories.js:69-76 | When every seed saves, each seed's id holds the category built from that seed. |
| Seeding.SaveEachAll | Backend/src/scripts/initializeCategories.js:69-76 | When every seed saves, the loop adds exactly the seeds' ids, each holding the category built from its seed. |
| Seeding.SeedCategoryFields | Backend/src/scripts/initializeCategories.js:70-73 | A seed with an already-trimmed name becomes a category with that name, colour and icon. It is marked default and owned by the given user. |
| Seeding.DefaultsWellFormed | Backend/src/scripts/initializeCategories.js:8-44 | The five default names are non-empty, trimmed and pairwise distinct, and their colours all pass the validator. |
| Seeding.SeedIntoEmpty | Backend/src/scripts/initializeCategories.js:69-76 | Seeding well-formed seeds into an empty collection stores each seed under its id, and nothing else. |
| Seeding.SeedDefaults | Backend/src/scripts/initializeCategories.js:8-76 | Seeding the five defaults into an empty collection stores each under its id, and nothing else. |
| Seeding.InitializeCategories | Backend/src/scripts/initializeCategories.js:46-85 | Without a user, or with any category present, nothing changes. Otherwise exactly the five defaults are created, owned by the oldest user. Components are never touched. |
| Seeding.SeededDefaults | Backend/src/scripts/initializeCategories.js:8-76 | A successful run leaves exactly five categories, each with its default name, colour and icon, marked default and owned by the oldest user. |
| Seeding.CheckCategories | Backend/src/scripts/checkCategories.js:8-96 | With categories present, or without users, nothing changes. Otherwise the same five defaults are created, owned by the first user found. |
| Seeding.ScriptsAgree | Backend/src/scripts/checkCategories.js:15-72 | Given the same users, `checkCategories` in the order the database returns them and `initializeCategories` oldest first, the two scripts build the same store exactly when nothing is seeded or both orders start with the same user; otherwise the defaults get different owners. |
| Seeding.FirstSeedOwner | Backend/src/scripts/initializeCategories.js:70-72 | The first seeded category is owned by the creator it was seeded with. |
| Seeding.SeedingIdempotent | Backend/src/scripts/initializeCategories.js:61-66 | Running either script again after a run changes nothing. |
| Seeding.SeededKey | Backend/src/scripts/initializeCategories.js:69-76 | A seeded id holds a valid default category owned by the creator, with that seed's name. |
| Seeding.SeededMapValid | Backend/src/scripts/initializeCategories.js:69-76 | A collection holding only seeded ids, each with its seed's category, has valid defaults under their own ids and no two of them share a name. |
| Seeding.SeededStoreValid | Backend/src/scripts/initializeCategories.js:69-76 | Every category seeded into an empty collection sits under its own id, saves, is a default owned by the creator, and has a unique name. |
| Seeding.SeededStoreValidAndUndeletable | Backend/src/controllers/categoryController.js:164-178 | The seeded store is valid, and no delete request removes a seeded category: its creator gets 400 (default category) and anyone else gets 403. |
| AuthController.Register | Backend/src/controllers/authController.js:7-21 | The result is 201 exactly when a password is given and the schema accepts the new user. The new user has the hashed password, the given name, and MFA off with no secret. Other users are untouched. Any failure is 500 and saves nothing. |
| AuthController.Login | Backend/src/controllers/authController.js:22-59 | A login with a user appends exactly one successful `login` metric stamped `now`. It sets the session's `loginStartTime` to `now` and issues the 24-hour token with id, name and MFA flag. A failure to record is 500 and changes nothing. |
| AuthController.LoginCountsOnce | Backend/src/controllers/authController.js:25-33 | A successful login adds one to both the successes and the attempts of every metrics scope that contains it. |
| AuthController.AuthStatus | Backend/src/controllers/authController.js:60-70 | 200 with the user's name and MFA flag exactly when a user is present; otherwise 401 with no body. |
| AuthController.Logout | Backend/src/controllers/authController.js:71-88 | 401 without a user. The result is 200, and the session is destroyed, exactly when both the passport logout and the session destruction succeed. Otherwise 500. |
| AuthController.Setup2FA | Backend/src/controllers/authController.js:89-110 | A successful save stores the generated secret with MFA on, even when the QR step then fails (500). The secret is returned only with a 200. |
| AuthController.Reset2FA | Backend/src/controllers/authController.js:190-200 | On a successful save the secret becomes `""` and MFA is off (200). A failed save is 500 and leaves the users as they were. |
| AuthController.MfaTransitionsKeepUsersValid | Backend/src/controllers/authController.js:7-200 | Register, setup and reset each keep every user's MFA flag in agreement with whether a secret is set. |
| AuthController.SetupThenReset | Backend/src/controllers/authController.js:89-200 | Setup followed by reset leaves the user without MFA, with an empty secret and the same name and password. |
| AuthController.ResponseTime | Backend/src/controllers/authController.js:124-127 | The response time is present exactly when the session's login time is truthy, and then it equals `now` minus that time. |
| AuthController.SystemError | Backend/src/controllers/authController.js:168-188 | Always 500. With a user it records one failed `2fa_verify` with `system_error` and no response time. A failure to record is swallowed. |
| AuthController.Verify2FA | Backend/src/controllers/authController.js:111-189 | A valid code gives 200: one successful metric carrying the response time, `loginStartTime` cleared, and a one-hour token. An invalid code gives 400: one failed metric with `invalid_token`, and the session is kept. Anything that throws takes the `system_error` path. |
| AuthController.InvalidCodeKeepsLoginTime | Backend/src/controllers/authController.js:124-149 | After a login, an invalid code is refused and the session still holds the login time. |
| AuthController.ResponseTimeSpansRetries | Backend/src/controllers/authController.js:36-149 | Login, then an invalid code, then a valid one: the recorded response time runs from the login instant, and the login time is cleared afterwards. |
| AuthController.InvalidCodeCountsAsFalsePositive | Backend/src/controllers/authController.js:153-166 | Each invalid code adds one to both the failed and the total 2FA attempts of every scope that contains it. |
| Express.MetricAddress | Backend/src/controllers/authController.js:31 | `req.ip \|\| req.connection.remoteAddress`: the ip when it is truthy, otherwise the connection's address. |
| AuthMiddleware.CaptureLoginAttempts | Backend/src/middleware/authMetricsMiddleware.js:5-9 | Passes the request on unchanged. |
| AuthMiddleware.CaptureRequestInfo | Backend/src/middleware/authMetricsMiddleware.js:12-21 | Only `clientIP` changes. It is the first truthy of the four addresses, or the last operand when none is truthy, and it is truthy exactly when one of them is. |
| AuthMiddleware.CleanupExpiredSessions | Backend/src/middleware/authMetricsMiddleware.js:24-37 | The session changes exactly when a truthy login time is more than 600000 ms old, and then only that time is deleted. |
| AuthMiddleware.CleanupIdempotent | Backend/src/middleware/authMetricsMiddleware.js:24-37 | Cleaning up twice at the same instant is the same as cleaning up once. |
| AuthMiddleware.ExpiryMonotone | Backend/src/middleware/authMetricsMiddleware.js:28-31 | A login time that has expired stays expired at every later instant. |
| AuthMiddleware.Expired | Backend/src/middleware/authMetricsMiddleware.js:28-31 | a truthy login time more than 600000 ms before `now` has expired; a falsy one never does |
| AuthRoutes.ExtractToken | Backend/src/routes/authRoutes.js:27-30 | A missing or empty header gives no token. A token found is non-empty and space-free, and it is the second space-separated word of the header: the header is either exactly `scheme token`, or starts with `scheme token ` followed by more. |
| AuthRoutes.ExtractTokenFindsSecondWord | Backend/src/routes/authRoutes.js:27-30 | The converse: whenever the header is `scheme token`, or starts with `scheme token ` and goes on, with a space-free scheme and a non-empty space-free token, that token is extracted. |
| AuthRoutes.SecondWord | Backend/src/routes/authRoutes.js:30 | In both header shapes, `split(' ')[1]` is the token. |
| AuthRoutes.SecondWordLast | Backend/src/routes/authRoutes.js:30 | `scheme token` splits into at least two words, the second being the token. |
| AuthRoutes.SecondWordFollowed | Backend/src/routes/authRoutes.js:30 | `scheme token more` splits so that the second word is the token, whatever follows the second space. |
| AuthRoutes.SplitPrefix | Backend/src/routes/authRoutes.js:30 | Joining the split pieces again: the first two pieces and their separator begin the header. |
| AuthRoutes.BearerRoundTrip | Backend/src/routes/authRoutes.js:30 | A header `Bearer <token>` built from a non-empty, space-free token yields that same token. |
| AuthRoutes.AuthenticateJwt | Backend/src/routes/authRoutes.js:23-62 | Without a token, the request goes on exactly when the session already carries a user, and gets 401 otherwise. With a token, it goes on exactly when the token verifies and its `userId` names a stored user, who becomes `req.user`; every other case is 401. |
| AuthRoutes.TokenAcceptance | Backend/src/routes/authRoutes.js:46-53 | The token issued after 2FA carries no `userId` and so is always refused with 401. The login token of a stored user is accepted. |
| AuthController.LoginToken | Backend/src/controllers/authController.js:39-47 | the login token carries the user's id, name and MFA flag and lasts 24 hours |
| AuthController.VerifiedToken | Backend/src/controllers/authController.js:142-146 | the token after 2FA carries the user name only and lasts one hour |
| AuthRoutes.Common | Backend/src/routes/authRoutes.js:65-66 | Every auth route first runs the request-info and cleanup middlewares. Only `clientIP` and the session change, as those two define. |
| AuthRoutes.LoginRoute | Backend/src/routes/authRoutes.js:72 | The local strategy's refusal is 401 with nothing recorded. Otherwise the route is the login handler on the request after the middlewares. |
| AuthRoutes.VerifyRoute | Backend/src/routes/authRoutes.js:84 | A refusal by the JWT middleware is 401 with nothing recorded. Otherwise the route is the verify handler on the authenticated request. |
| AuthRoutes.StaleLoginHasNoResponseTime | Backend/src/routes/authRoutes.js:66-84 | A valid code sent through the session more than ten minutes after login is recorded without a response time, because the cleanup middleware dropped the login time. Within ten minutes the response time is the time since login. |
| MetricsService.RecordAuthMetric | Backend/src/services/metricsService.js:5-35 | an event is stored iff the schema accepts it (user, username, outcome and a known type present); the stored record is appended last, stamped with the current time and carries the given type, outcome, response time and error type; a refused event leaves the collection as it was |
| MetricsService.UserFilterAsWrittenSelectsNothing | Backend/src/services/metricsService.js:51-53 | as written, a request for one user's metrics matches no record at all, while the intended filter keeps every record of that user that the window keeps |
| MetricsService.InScope | Backend/src/services/metricsService.js:44-53 | the corrected scope: the window applies only when both bounds are given, inclusive at both ends, and the user filter compares with the stored user id as an id (see Findings) |
| MetricsService.InScopeAsWritten | Backend/src/services/metricsService.js:44-53 | the scope as written: the query's user id stays text inside `$match` and is compared with the stored ObjectId, values of two different types |
| MetricsService.StoredUserId | Backend/src/services/metricsService.js:51-52 | a record's user id as the aggregation sees it: an ObjectId, never text |
| MetricsService.Select | Backend/src/services/metricsService.js:55-56 | a `$match` stage keeps exactly the records satisfying every condition and never adds records |
| MetricsService.SelectAppend | Backend/src/services/metricsService.js:55-56 | matching distributes over concatenation of the collection, so a newly recorded event only affects the aggregates through its own match |
| MetricsService.SelectNarrower | Backend/src/services/metricsService.js:61-63 | a stricter match condition selects no more records, so failures never outnumber attempts |
| MetricsService.Percent | Backend/src/services/metricsService.js:70-75 | the rate is 0 when there are no attempts and otherwise part/total*100, always within 0..100 |
| MetricsService.FalsePositiveRate | Backend/src/services/metricsService.js:38-86 | counts the in-scope `2fa_verify` records and the failed ones among them, failed <= total, the rate is their percentage, and the default document (all zero) answers an empty selection (user filter corrected, see Findings) |
| MetricsService.AuthSuccessRate | Backend/src/services/metricsService.js:89-137 | counts the in-scope `login` and `2fa_verify` records and the successful ones among them, successful <= total, the rate is their percentage within 0..100 (user filter corrected, see Findings) |
| MetricsService.LoginAttemptsNeverCount | Backend/src/services/metricsService.js:40-92 | recording a `login_attempt` event changes neither the success rate nor the false-positive rate |
| MetricsService.FailedVerifyCounts | Backend/src/services/metricsService.js:41-63 | recording a failed in-scope 2FA verification raises both the attempt count and the failure count by exactly one (user filter corrected, see Findings) |
| MetricsService.Times | Backend/src/services/metricsService.js:143 | the response times taken are no more than the records, one per record when every record carries a time, and a value is taken exactly when some record carries it as its time |
| MetricsService.TimesAppend | Backend/src/services/metricsService.js:143 | taking the times distributes over concatenation of the records, so their order follows the records' order |
| MetricsService.MinOf | Backend/src/services/metricsService.js:164 | `$min` returns a member of the values that is below or equal to every value |
| MetricsService.MaxOf | Backend/src/services/metricsService.js:165 | `$max` returns a member of the values that is above or equal to every value |
| MetricsService.Mean | Backend/src/services/metricsService.js:163 | `$avg` is the sum divided by the count and lies between the minimum and the maximum |
| MetricsService.AverageResponseTime | Backend/src/services/metricsService.js:140-181 | over the successful timed in-scope records: the count, a minimum and maximum that occur and bound every time, a mean between them; all zero when nothing is selected (user filter corrected, see Findings) |
| MetricsService.CompleteMetrics | Backend/src/services/metricsService.js:184-202 | the three aggregates are computed over one and the same scope and stamped with the generation time |
| MetricsService.PeriodOf | Backend/src/services/metricsService.js:208-242 | any period name other than hourly, weekly or monthly falls back to the daily grouping |
| MetricsService.KeyOf | Backend/src/services/metricsService.js:208-242 | the group key always has the year; the hour only for hourly, the week only for weekly, the day for hourly and daily, the month for every period but weekly |
| MetricsService.UnknownPeriodIsDaily | Backend/src/services/metricsService.js:236-241 | an unknown period name groups every timestamp exactly as `daily` does |
| MetricsService.WeeklyGroupsUnordered | Backend/src/services/metricsService.js:276 | as written, two different weekly groups of one year (and two hourly groups of one day) share a sort key, so neither sorts before the other |
| MetricsService.SortKeyAsWritten | Backend/src/services/metricsService.js:276 | the `$sort` stage as written orders on year, month and day only |
| MetricsService.SortKey | Backend/src/services/metricsService.js:276 | the corrected sort key has one entry per group-key field |
| MetricsService.SortKeyInjective | Backend/src/services/metricsService.js:276-277 | under the corrected sort, any two different groups are strictly ordered one way or the other |
| MetricsService.WithKey | Backend/src/services/metricsService.js:248-249 | a group holds exactly the records whose timestamp falls under its key |
| MetricsService.WithOutcome | Backend/src/services/metricsService.js:251-256 | the records with one outcome are exactly those of the group with that `success` value |
| MetricsService.OutcomesPartition | Backend/src/services/metricsService.js:250-256 | every record of a group is counted as successful or as failed, never both, so successful + failed = total |
| MetricsService.GroupOf | Backend/src/services/metricsService.js:247-275 | a group document carries its key, counts its records and its successes, has successful + failed = total, a success rate that is their percentage, and a null average exactly when no record has a response time |
| MetricsService.KeysIn | Backend/src/services/metricsService.js:248-249 | the group keys are pairwise distinct and are exactly the keys of the considered records |
| MetricsService.InsertGroup | Backend/src/services/metricsService.js:276 | inserting a group adds exactly that group: one longer, and the members are the old groups and the new one |
| MetricsService.InsertGroupNewestFirst | Backend/src/services/metricsService.js:276 | inserting a group whose period key is new into a newest-first sequence keeps it newest first |
| MetricsService.SortGroups | Backend/src/services/metricsService.js:276 | the sorted groups are newest first and are a rearrangement of the input groups |
| MetricsService.Recent | Backend/src/services/metricsService.js:245-246 | keeps the newest `limit * 100` records, a prefix of the newest-first collection, and all of it when it is shorter |
| MetricsService.RecentAreNewest | Backend/src/services/metricsService.js:245-246 | over a view that is the collection sorted newest first, the records kept by `$limit` all come from the collection and none is older than a record left out |
| MetricsService.GroupsOf | Backend/src/services/metricsService.js:247-275 | one group document per distinct key, each the aggregate of its key |
| MetricsService.Take | Backend/src/services/metricsService.js:277 | `$limit` keeps a prefix of at most `limit` groups, and everything when fewer are there |
| MetricsService.MetricsByPeriod | Backend/src/services/metricsService.js:205-285 | fails exactly when the limit is missing or not positive; otherwise at most `limit` groups, newest first, each the exact non-empty aggregate of its key, and the key of a considered record is missing only when `limit` newer groups filled the answer |
| MetricsService.GroupsExact | Backend/src/services/metricsService.js:247-275 | every group kept equals the aggregate of its own key over the considered records and is non-empty |
| MetricsService.PrefixKeepsNewest | Backend/src/services/metricsService.js:276-277 | a group dropped by `$limit` is older than every group kept, and the answer is then full |
| MetricsService.KeysCovered | Backend/src/services/metricsService.js:244-278 | the key of every considered record is answered, or `limit` newer groups were answered instead |
| MetricsService.TakeKeepsNewestFirst | Backend/src/services/metricsService.js:276-277 | `$limit` on newest-first groups keeps them newest first and only keeps groups it was given |
| MetricsService.GroupedIsNewest | Backend/src/services/metricsService.js:247-277 | the grouped, sorted and limited answer meets the full by-period promise |
| MetricsController.Respond | Backend/src/controllers/metricsController.js:14-24 | a service result is answered 200 with its data, a thrown error 500 without data; the `success` flag holds exactly on 2xx |
| MetricsController.Call | Backend/src/controllers/metricsController.js:8-12 | the service call yields its value unless the store fails while it runs |
| MetricsController.GetMetrics | Backend/src/controllers/metricsController.js:4-26 | 200 unless the store fails; the data are the three aggregates over exactly the query's window and user (user filter corrected, see Findings) |
| MetricsController.GetFalsePositiveRate | Backend/src/controllers/metricsController.js:29-51 | 200 with the false-positive statistics of the query's scope, or 500 (user filter corrected, see Findings) |
| MetricsController.GetSuccessRate | Backend/src/controllers/metricsController.js:54-76 | 200 with the success-rate statistics of the query's scope, or 500 (user filter corrected, see Findings) |
| MetricsController.GetResponseTime | Backend/src/controllers/metricsController.js:79-101 | 200 with the response-time statistics of the query's scope, or 500 (user filter corrected, see Findings) |
| MetricsController.GetMetricsByPeriod | Backend/src/controllers/metricsController.js:104-125 | period defaults to daily and limit to 30; the answer is 200 exactly when the limit parses to a positive integer, and then carries the newest-first groups the service promises; otherwise 500 without data |
| MetricsController.LastDays | Backend/src/controllers/metricsController.js:130-133 | the window starts the given number of days of milliseconds before `now`, ends at `now` and covers every user |
| MetricsController.GetDashboardMetrics | Backend/src/controllers/metricsController.js:128-165 | 200 unless the store fails, with the complete metrics of the last 24 hours, 7 days and 30 days ending at one `now`, and the daily breakdown of at most 7 newest groups, computed from the same collection read newest first |
| MetricsController.DashboardWindowsNested | Backend/src/controllers/metricsController.js:131-143 | the three windows are nested, so attempt counts over 24 hours <= 7 days <= 30 days |
| Js.OrStr | Backend/src/middleware/authMetricsMiddleware.js:14-17 | `a \|\| b` on strings: the left operand when it is present and non-empty, the right one otherwise |
| Js.Overflow | client/src/components/ComponentCard.jsx:56-68 | the shown items are a prefix of at most `limit` items, the "+k" count appears exactly when items are hidden, and shown plus hidden is the whole list |
| JsObject.Keys | client/src/service/componentApi.js:45-51 | the keys of an object, one per entry, in insertion order |
| JsObject.LookupFindsEntry | client/src/components/SearchBar.jsx:29 | reading a property gives undefined exactly when no entry has the key, and otherwise the value of an entry with that key |
| JsObject.Put | client/src/components/SearchBar.jsx:29 | `{ ...o, [k]: v }` reads `v` at `k` and changes no other property |
| JsObject.PutKeys | client/src/components/SearchBar.jsx:29 | an existing key keeps its place and a new one is appended |
| JsObject.PutKeepsDistinct | client/src/components/SearchBar.jsx:29 | setting a property never duplicates a key |
| JsObject.Spread | client/src/pages/ComponentsPage.jsx:69 | `{ ...a, ...b }` reads every key from `b` when `b` has it and from `a` otherwise |
| JsObject.SpreadKeepsDistinct | client/src/pages/ComponentsPage.jsx:69 | spreading one object over another never duplicates a key |
| Text.TrimStart | Backend/src/controllers/componentController.js:32 | the leading part of `trim`: no longer than the input and, when not empty, not starting with whitespace |
| Text.TrimStartIsSuffix | Backend/src/controllers/componentController.js:32 | what remains after dropping leading whitespace is a suffix of the input |
| Text.TrimStartDropsSpace | Backend/src/controllers/componentController.js:32 | everything dropped from the front is whitespace |
| Text.TrimEnd | Backend/src/controllers/componentController.js:32 | the trailing part of `trim`: no longer than the input and, when not empty, not ending with whitespace |
| Text.TrimEndIsPrefix | Backend/src/controllers/componentController.js:32 | what remains after dropping trailing whitespace is a prefix of the input |
| Text.TrimEndDropsSpace | Backend/src/controllers/componentController.js:32 | everything dropped from the end is whitespace |
| Text.Trim | Backend/src/controllers/categoryController.js:62 | `s.trim()` has whitespace at neither end and is no longer than `s` |
| Text.TrimIsSlice | Backend/src/controllers/categoryController.js:71 | the trimmed name is a contiguous slice of the input and only whitespace is cut on either side |
| Text.TrimOfTrimmed | Backend/src/models/category.js:8 | trimming a stored (already trimmed) name changes nothing, so the schema's trim and the controller's trim agree |
| Text.TrimAfterSpace | client/src/components/SearchBar.jsx:173-175 | the leading space that joining with ", " puts before a trimmed tag is removed by trimming again |
| Text.TrimEmptyIffBlank | Backend/src/controllers/componentController.js:261 | a tag trims to the empty string exactly when it is all whitespace |
| Text.TrimKeepsAbsent | Backend/src/controllers/componentController.js:32 | trimming removes characters only, so a comma absent from a piece stays absent |
| Text.Split | Backend/src/controllers/componentController.js:32 | `s.split(',')` yields at least one piece, no piece contains the separator, and joining the pieces with it gives `s` back |
| Text.SplitNoSeparator | Backend/src/controllers/componentController.js:32 | a string without the separator splits into itself alone |
| Text.SplitAtSeparator | Backend/src/controllers/componentController.js:32 | splitting at a separator yields the part before it followed by the split of the rest |
| Text.SplitJoin | client/src/components/SearchBar.jsx:173-175 | splitting a join of separator-free pieces recovers the pieces |
| Text.StrLeTotal | Backend/src/controllers/categoryController.js:9 | any two names are comparable in the sort order |
| Text.StrLeTransitive | Backend/src/controllers/categoryController.js:9 | the sort order is transitive |
| Text.StrLeAntisymmetric | Backend/src/controllers/categoryController.js:9 | two names that sort both ways are equal, so the order by name is determined |
| Text.PluralSuffix | client/src/pages/ComponentsPage.jsx:179 | the plural suffix is empty exactly for a count of one and "s" otherwise |
| Text.DigitRun | Backend/src/controllers/componentController.js:38-39 | `parseInt` reads the longest run of digits at the start, stopping at the first non-digit |
| Text.NatToString | client/src/pages/ComponentsPage.jsx:179 | a count is printed as a non-empty string of digits whose decimal value is the count |
| Text.ParseIntOfIntToString | Backend/src/controllers/metricsController.js:110 | `parseInt` of a printed integer gives that integer back, so a numeric query value survives the round trip |
| Text.ParseInt | Backend/src/controllers/metricsController.js:110 | `parseInt`: leading whitespace skipped, an optional sign, then the longest digit run; NaN without digits |
| Text.NumberOf | Backend/src/controllers/componentController.js:51-61 | `Number` on query text: blank text is 0, a sign and digits and nothing else is that integer, anything else is NaN |
| Text.NumberOfIntToString | Backend/src/controllers/componentController.js:51-61 | reading a printed integer with `Number` gives it back, so a page the client sends reaches the arithmetic unchanged |
| Text.NumberOfAgreesWithParseInt | Backend/src/controllers/componentController.js:38-52 | where `Number` reads an integer from non-blank text, `parseInt` reads the same one |
| Text.IntToStringShape | client/src/pages/ComponentsPage.jsx:220 | an integer's text has no surrounding whitespace, an optional '-' and then the digits of its magnitude |
| SearchBar.DefaultFilters | client/src/components/SearchBar.jsx:5-11 | the bar starts with empty search, category and tags, sorted by creation date, newest first, with distinct keys and no page |
| SearchBar.InitialFilters | client/src/components/SearchBar.jsx:5-11 | filters handed in by the page win; otherwise the defaults |
| SearchBar.DecodeEncodeSort | client/src/components/SearchBar.jsx:100-104 | splitting the displayed "field-order" option at '-' gives back field and order when neither contains '-' |
| SearchBar.SelectSort | client/src/components/SearchBar.jsx:101-105 | choosing a sort option sets `sortBy` and `sortOrder` to its two halves and leaves every other filter as it was |
| SearchBar.SortOptionsRoundTrip | client/src/components/SearchBar.jsx:100-112 | after choosing any offered option the selector displays that same option again |
| SearchBar.CurrentTags | client/src/components/SearchBar.jsx:173 | the current tags are none for an empty tag string and otherwise trimmed comma-free pieces |
| SearchBar.AddTag | client/src/components/SearchBar.jsx:172-177 | clicking a suggested tag changes nothing exactly when it is already among the current tags |
| SearchBar.AddTagAppends | client/src/components/SearchBar.jsx:172-177 | a new tag lands after the current tags, which keep their order, and the server's tag filter reads exactly that list |
| SearchBar.Suggestions | client/src/components/SearchBar.jsx:169-186 | at most the first ten tags are offered, and "+k más" appears exactly when more exist, with k the number left out |
| SearchBar.Step | client/src/components/SearchBar.jsx:28-52 | a field change sets that field only; a tag click appends a new tag or changes nothing; clearing resets to the defaults and searches with them; the search button and Enter search with the current filters; nothing else searches; keys stay distinct |
| ComponentsPage.InitialFilters | client/src/pages/ComponentsPage.jsx:20-26 | the page's filters start equal to the search bar's defaults and without a page |
| ComponentsPage.HandleSearch | client/src/pages/ComponentsPage.jsx:68-70 | a search keeps earlier filters, overrides them with the bar's, and returns to page 1 |
| ComponentsPage.SearchReplacesBarFields | client/src/pages/ComponentsPage.jsx:68-70 | after a search every field the bar owns holds the bar's value, whatever the page held before |
| ComponentsPage.PageClick | client/src/pages/ComponentsPage.jsx:220 | clicking a page button sets the page and nothing else |
| ComponentsPage.RequestedPage | client/src/pages/ComponentsPage.jsx:58-70 | the request that follows a search asks for page 1, and the one after a page click asks for that page |
| ComponentsPage.PageButtons | client/src/pages/ComponentsPage.jsx:214-226 | the corrected bar: no buttons for a single page; otherwise one button per page numbered 1..pages, highlighted exactly when `Number(current)` is that page (see Findings) |
| ComponentsPage.PageButtonsAsWritten | client/src/pages/ComponentsPage.jsx:214-226 | the bar as written: the same buttons, highlighted exactly when `current` is that page as a number, so never for a `current` sent back as text |
| ComponentsPage.CurrentNumber | client/src/pages/ComponentsPage.jsx:222 | `Number(current)`: the number itself, text read by `Number`, 0 for null, NaN for undefined |
| ComponentsPage.ButtonsAgreeOnNumbers | client/src/pages/ComponentsPage.jsx:222 | the two bars agree whenever `current` is a number |
| ComponentsPage.SentPageHighlight | client/src/pages/ComponentsPage.jsx:214-226 | once the list request carries page p, the server echoes p as text: the bar as written highlights no button, the corrected bar exactly button p |
| ComponentsPage.OneButtonPerPage | client/src/pages/ComponentsPage.jsx:217-222 | every page number has exactly one button, highlighted exactly when `Number(current)` is that page |
| ComponentsPage.ResultCount | client/src/pages/ComponentsPage.jsx:179 | the line starts with the printed total and reads "componente encontrado" for one, "componentes encontrados" otherwise |
| ComponentApi.Kept | client/src/service/componentApi.js:7-11 | only parameters that are not undefined, null or empty are sent; the query is empty exactly when none qualifies |
| ComponentApi.KeptLookup | client/src/service/componentApi.js:7-11 | a parameter reaches the query exactly when the object has it with a value worth sending, and then with that value |
| ComponentApi.Pair | client/src/service/componentApi.js:9 | each query entry is a key=value pair |
| ComponentApi.QueryString | client/src/service/componentApi.js:13 | the query string is empty exactly when there are no entries |
| ComponentApi.ComponentsUrl | client/src/service/componentApi.js:4-17 | the bare list path exactly when no parameter is sent, otherwise the path with '?' and the query |
| ComponentApi.SearchParams | client/src/service/componentApi.js:45-51 | `search` is the filters' own search when they have one and the given term otherwise; every other filter passes unchanged |
| ComponentApi.PerComponentCallsShareThePath | client/src/service/componentApi.js:20-37 | reading, updating and deleting a component address the same path, and the path determines the id |
| ComponentApi.GetComponentById | client/src/service/componentApi.js:20-22 | `GET /components/<id>` |
| ComponentApi.CreateComponent | client/src/service/componentApi.js:25-27 | `POST /components` |
| ComponentApi.UpdateComponent | client/src/service/componentApi.js:30-32 | `PUT /components/<id>` |
| ComponentApi.DeleteComponent | client/src/service/componentApi.js:35-37 | `DELETE /components/<id>` |
| ComponentApi.GetTags | client/src/service/componentApi.js:40-42 | `GET /components/tags` |
| ApiClient.OnRequest | client/src/service/api.js:19-30 | a stored non-empty token adds `Authorization: Bearer <token>`; without one the request is unchanged; the URL and every other header are kept |
| ApiClient.OnResponse | client/src/service/api.js:34 | a successful response passes through untouched |
| ApiClient.OnResponseError | client/src/service/api.js:35-41 | every error is rejected again; a 401 removes the stored token, any other status leaves storage as it was; other stored keys never change |
| ApiClient.NoBearerAfterUnauthorized | client/src/service/api.js:19-41 | after a 401 the next request goes out without a new Authorization header |
| ApiClient.SentTokenReachesServer | client/src/service/api.js:21-23 | the header the client builds is read back by the server's token extraction as the stored token |
| SessionContext.Initial | client/src/context/SessionContext.jsx:8-10 | the session starts logged out, loading, with no user |
| SessionContext.Restore | client/src/context/SessionContext.jsx:12-19 | loading ends; a stored user logs the session in as that user, and without one the session is unchanged |
| SessionContext.Login | client/src/context/SessionContext.jsx:21-25 | logging in sets the user, marks the session logged in and stores the user |
| SessionContext.Logout | client/src/context/SessionContext.jsx:27-31 | logging out clears the user, marks the session logged out and removes the stored user |
| SessionContext.TransitionsKeepConsistent | client/src/context/SessionContext.jsx:8-31 | logged in exactly when a user is set, before and after every transition |
| SessionContext.ReloadAfterLogin | client/src/context/SessionContext.jsx:12-25 | a reload after logging in comes back logged in as the same user |
| SessionContext.LogoutForgetsUser | client/src/context/SessionContext.jsx:12-31 | logging out after logging in leaves no user behind, and a reload stays logged out |
| ComponentCard.FirstMain | client/src/components/ComponentCard.jsx:13 | `find(file => file.isMain)` finds nothing exactly when no file is main, and otherwise a main file |
| ComponentCard.MainFile | client/src/components/ComponentCard.jsx:12-14 | the previewed file is absent exactly when there are no files; it is a main file when one exists, and the first file otherwise |
| ComponentCard.Preview | client/src/components/ComponentCard.jsx:81-82 | the preview is a prefix of the content of at most 200 characters, and the ellipsis appears exactly when something was cut, which happens only at 200 |
| ComponentCard.CategoryBadge | client/src/components/ComponentCard.jsx:34-47 | the badge takes the category's colour and name when they are non-empty, and falls back to "#8B5CF6" and "Sin categoría" otherwise |
| ComponentCard.TagBadges | client/src/components/ComponentCard.jsx:54-68 | no badges without tags; otherwise the first three tags, with a "+k" badge exactly when more exist |
| ComponentCard.FileCountLabel | client/src/components/ComponentCard.jsx:50 | "1 archivo" for one file, "0 archivos" without a file list, and "<n> archivos" for any other count |
| ComponentCard.ShowsEdited | client/src/components/ComponentCard.jsx:94-96 | the edit date is shown exactly when it differs from the creation date |
| ViewComponent.DefaultTab | client/src/pages/ViewComponentPage.jsx:29-30 | the page opens on the first main file, or on the first tab when no file is main |
| ViewComponent.ActiveFile | client/src/pages/ViewComponentPage.jsx:272-308 | the shown file is the file at the selected tab, and nothing for a tab outside the list |
| ViewComponent.DefaultTabShowsCardFile | client/src/pages/ViewComponentPage.jsx:29-30 | the page opens on the same file the card previews |
| ViewComponent.DefaultTabFollowsMainFile | client/src/pages/ViewComponentPage.jsx:29-30 | after a file is marked main in the form, the page opens on that file |
| ViewComponent.FileLanguageCoversSchema | client/src/pages/ViewComponentPage.jsx:82-94 | a file type gets a language other than "text" exactly when the schema accepts it; jsx and js map to javascript, tsx and ts to typescript |
| ViewComponent.FileLanguage | client/src/pages/ViewComponentPage.jsx:82-94 | the highlighter language of a file type, "text" for any type outside the table |
| ComponentForm.InitialForm | client/src/pages/AddComponentPage.jsx:17-40 | the add form starts with empty fields, no category and a single main file `Component.jsx` of type jsx |
| ComponentForm.HandleFileChange | client/src/pages/AddComponentPage.jsx:59-66 | only the edited field of the edited file changes; the list keeps its length and every other file |
| ComponentForm.AddFile | client/src/pages/AddComponentPage.jsx:68-81 | a new non-main `NewFile.css` is appended after the unchanged files |
| ComponentForm.AddFileKeepsMain | client/src/pages/AddComponentPage.jsx:68-81 | adding a file neither creates nor removes a main file |
| ComponentForm.RemoveFile | client/src/pages/AddComponentPage.jsx:83-90 | the last remaining file cannot be removed; otherwise exactly the file at the index is dropped, keeping the order of the rest |
| ComponentForm.SetMainFile | client/src/pages/AddComponentPage.jsx:92-100 | marking a file main changes only the main flags: the chosen file is main and every other file is not |
| ComponentForm.SetMainFileSingleMain | client/src/pages/AddComponentPage.jsx:92-100 | afterwards exactly one file is main when the index is in the list, and none otherwise |
| ComponentForm.NonEmpty | client/src/pages/AddComponentPage.jsx:121 | `filter(tag => tag)` keeps exactly the non-empty tags |
| ComponentForm.ParseTags | client/src/pages/AddComponentPage.jsx:121 | an empty tag text gives no tags; otherwise every tag is non-empty, trimmed and comma-free |
| ComponentForm.SplitJoinedTags | client/src/pages/EditComponentPage.jsx:51-129 | splitting tags joined with ", " at ',' yields the tags, all but the first preceded by one space |
| ComponentForm.JoinTags | client/src/pages/EditComponentPage.jsx:51 | the edit page shows the tags joined with ", " |
| ComponentForm.TrimPieces | client/src/pages/EditComponentPage.jsx:129 | trimming those pieces recovers the trimmed tags |
| ComponentForm.ParseJoinTags | client/src/pages/EditComponentPage.jsx:51-129 | parsing the joined text of non-empty, trimmed, comma-free tags gives the same tags back |
| ComponentForm.LoadForm | client/src/pages/EditComponentPage.jsx:47-53 | the edit form holds the stored name, description, category id, the tags joined with ", " and the files one for one |
| ComponentForm.Submit | client/src/pages/AddComponentPage.jsx:102-133 | a blank name or description or a missing category is refused first, then a file list without a main file, and otherwise the form is sent with its tags parsed |
| ComponentForm.Body | client/src/pages/AddComponentPage.jsx:119-124 | the request body carries every form file, one for one |
| ComponentForm.SentBodyPassesMainFileGuard | client/src/pages/EditComponentPage.jsx:113-132 | whatever the form sends has a main file and a non-blank name and description, so the server's checks accept it |
| ComponentForm.EditRoundTrip | client/src/pages/EditComponentPage.jsx:47-130 | loading a stored component and submitting it unchanged is accepted and sends the stored tags back |

## Left out

- React rendering, routing, navigation, toasts and confirm dialogs are not modelled, nor are the pages without decision logic (login, 2FA setup and verification screens, home page, metrics table). Only the state and the values the pages compute are modelled.
- Network and database I/O are not modelled. Every call is modelled as an immediate result. A failing store is a boolean `fault` parameter or a save verdict.
- Mongoose `populate` is left out. Components reference their category and owner by id.
- MongoDB `$text` search semantics are a `textMatch` parameter. The collection order a `sort` produces is supplied by the caller: `ComponentController.GetComponents` receives the components already ordered. For the category listing, the order is the code-point order on names (`Text.StrLe`).
- The calendar operators `$year`, `$month`, `$week`, `$dayOfMonth` and `$hour` are a `cal` parameter, and dates are integers (milliseconds since the epoch). Parsing date strings from the query (`new Date(startDate)`) is not modelled: the window bounds arrive already converted, or as `None`.
- Floating-point arithmetic is not modelled. Rates, means and averages are exact rationals (`real`). The `$round` to two decimals of the by-period average is left out.
- `MetricsService.GroupOf`: the average response time of a group is stated only as present-or-null. Its value (the mean of the set times) is not stated, because of the rounding above.
- bcrypt, speakeasy TOTP, JWT signing and verification, and QR generation are oracles passed in as parameters. A token is represented by its payload and lifetime. Token expiry is decided by the verification oracle.
- The user schema and the passport configuration are not part of this model. The user fields the authentication flow reads and writes are modelled in `UserModel`, and the verdict of a user save is a parameter.
- `Promise.all` in `getCompleteMetrics` and in the dashboard handler runs its calls concurrently. The model runs them one after the other at a single instant `now`. The source also stamps `generatedAt` with its own `new Date()` per call, which differs from `now` by the time the queries take.
- `Text.IsSpace` covers the ASCII and Latin-1 whitespace and the BOM, not every Unicode space separator that `String.prototype.trim` removes.
- `Text.ParseInt` reads decimal text only. Hexadecimal prefixes and radix arguments are not modelled.
- `Text.NumberOf` reads blank text and signed decimal integers only. Fractions, exponents, hexadecimal and `Infinity` give `None`, which stands for NaN and for these unmodelled forms alike.
- Strings are sequences of Unicode scalar values (Dafny's `char`). JavaScript strings are sequences of UTF-16 code units, so the two differ for characters outside the Basic Multilingual Plane. No normalisation or case folding is modelled.
- ComponentCard.Preview: counts Unicode scalar values. The source's `length` and `substring(0, 200)` count UTF-16 code units, so for content with characters outside the Basic Multilingual Plane the cut can fall at a different place, and the source can split a surrogate pair.
- `URLSearchParams` percent-encoding is left out. The query string is modelled as the raw `key=value` pairs joined with `&`.
- ComponentController.GetComponents: requires `page` and `limit` text that `Number` reads as an integer (`NumericQuery`). Fractional text, and text that coerces to NaN, lead to database behaviour that is not modelled. A query value repeated into an array is not modelled either. The single batch a negative limit asks for is not capped by the database's batch size.
- ComponentsPage.PageButtons: takes `pages` as a number. A null `pages` (a limit of 0) is not above 1 and shows no buttons, like 0.
- The session user is stored in `sessionStorage` as the user value itself. JSON serialisation is assumed to round-trip.
- The route tables of categories, components and metrics, CORS, cookies, express-session internals and the server start-up are not modelled.
- The thin client services for authentication, categories and metrics are not modelled.
- Logging (`console.log`, `console.error`) is not modelled.

## Findings

| source | as written | input that shows it | evidently intended | confidence | as-written member | corrected member |
|---|---|---|---|---|---|---|
| Backend/src/services/metricsService.js:276 | The groups are sorted on year, month and day only, so weekly groups (no month or day) and hourly groups of one day share a sort key. Their order, and which of them `$limit` keeps, is left to the database. | `period=weekly`, two records of 2024 in weeks 1 and 2: both groups sort as (2024, null, null) | newest first on every part of the group key (year, month, week, day, hour), so that `$limit` keeps the newest groups | medium, not executed | MetricsService.SortKeyAsWritten, MetricsService.WeeklyGroupsUnordered | MetricsService.SortKey, MetricsService.SortKeyInjective |
| client/src/pages/ComponentsPage.jsx:222 | The highlighted page button is chosen with `page === pagination.current`. The server echoes `current` from the query string (componentController.js line 60), so it is text whenever the request carried a page, and strict equality between a number and text is false. | click page 2 (or search, which sends page 1): the answer has `current: "2"` and no button is highlighted | the button of the current page is highlighted, whether the page came back as a number or as text | high, not executed | ComponentsPage.PageButtonsAsWritten, ComponentsPage.SentPageHighlight | ComponentsPage.PageButtons, ComponentsPage.OneButtonPerPage |
| Backend/src/services/metricsService.js:51-53 | The `userId` query parameter goes into an aggregation `$match` as a string (here and at lines 102-104 and 154-156). Aggregations are not cast by the ODM, and a string never equals the stored ObjectId, so any user filter matches no record. | `GET /metrics?userId=<an existing user's id>`: every count is 0 | only the given user's records are kept | medium, not executed | MetricsService.InScopeAsWritten, MetricsService.UserFilterAsWrittenSelectsNothing | MetricsService.InScope, MetricsService.FalsePositiveRate |
