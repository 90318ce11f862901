# KYC dashboard: a Dafny model

This project models the core of the KYC dashboard. The server is an Express
API over MongoDB with JWT authentication. The client is a React dashboard for
transactions, audit logs and users. Every part is written as immutable
datatypes and pure functions, and the properties are proved with Dafny.

- **Server.**
  - The `authenticate` and `authorize` middleware.
  - The auth, transactions and audit controllers, together with the routes
    that wire them to the middleware.
  - The User, Transaction and AuditLog schemas, as validation of a document.
  - The Redis reconnection back-off.
- **Client.**
  - The Redux `authSlice`, including what it writes to browser storage.
  - The three tables: transactions, audit logs and users. This covers their
    filters, filter options, chips, labels, page navigation and padding rows.
  - The user-management page that loads users and statistics and filters them.
  - The "Add New Transaction" dialog and the sign-in form.
  - The charts: status pie, transactions-by-region bars, top senders, the
    audit-action pie, the audit statistics cards and the users-by-region bars.

How the model stands in for the parts it cannot see:
- A handler takes the request, the store (`Domain.Store`: users,
  transactions, audit records and the next id), and one `Option<string>` per
  database call that may fail. It returns `Http.Handled(response, state)`.
- JWT signing and verification (`AuthMiddleware.Jwt`) are parameters, given
  as records of functions. So are the password hashing and comparison
  (`AuthController.Crypto`), and the clock (`now`). Ghost predicates
  (`Sound`, `SoundCrypto`) say when these behave as the libraries promise.
- The client reads records (`ClientRows.TxRow`, `AuditLogsTable.LogRow`,
  `UsersTable.UserRow`) in which every field the code treats as optional is
  an `Option`.
- A JavaScript `reduce` into an object followed by `Object.entries` is
  `Seqs.Tally`: one bucket per distinct key, in order of first appearance.
- `Array.prototype.sort` is the stable `Sorting.SortDesc`.

The proofs also record how the components work together:
- The dialog's POST body never carries `conversionRate`, `receiver` or
  `region`, so every submit is rejected and stores nothing
  (`AddTransactionDialog.SubmitAlwaysRejected`).
- The dialog reads its sender from a `userId` key that the session never
  writes (`AddTransactionDialog.SenderIdNeverStored`).
- The server names its error text `error`, but the client reads `message`.
  So a failed submit always shows the dialog's fallback text
  (`AddTransactionDialog.RejectionShowsFallback`). A failed sign-in shows the
  HTTP client's own text (`LoginForm.RejectedSignInShowsClientText`).
- A caller in region "global" gets each audit log with its `user`
  populated by the schema's pre-find hook. The table then shows the owner's
  name, and "Active Users" counts the distinct owners
  (`AuditLogsTable.GlobalLogsShowOwner`,
  `AuditLogsStats.GlobalActiveUsersCountOwners`). Any other caller gets logs
  from an aggregate that projects `user` away. Every such log reads "System",
  and "Active Users" shows 1 whenever there is a log
  (`AuditLogsTable.RegionalLogsHaveNoUser`,
  `AuditLogsStats.RegionalLogsShowOneActiveUser`).
- The chart counts equal what the matching table filter shows: the status
  slices, the region bars (for region names that are not members of
  `Object.prototype`, see "Left out") and the action slices
  (`StatusPieChart.SliceMatchesStatusFilter`,
  `TxRegionBarChart.BarMatchesRegionFilter`,
  `AuditLogsChart.SliceMatchesActionFilter`).
- The role distribution equals the role filter's count
  (`UserManagement.RoleFilterMatchesDistribution`).
- The users table keeps its page when its list shrinks, and then shows an
  empty page (`UsersTable.StalePageShowsNothing`).
- The sign-in form checks trimmed fields but sends them untrimmed
  (`LoginForm.PaddedNameIsSent`).
- The transactions list is not scoped by region
  (`TransactionsController.RegionalAdminSeesOtherRegions`).
- Audit scoping follows the caller's region, not their role
  (`AuditController.GlobalAdminOutsideGlobalRegionIsScoped`).

The code behaves as follows where one might expect otherwise:
- The transactions list is not filtered by the caller's region.
- A transaction amount of zero or less is accepted by the schema.
- The audit logs are scoped by the caller's region alone, not by role.
- A failed audit write after a saved transaction answers 400, and the
  transaction stays stored.
- A duplicate username at registration answers 400, like every other
  registration failure.
- The top-senders chart shows up to eight senders, as `slice(0, 8)` says,
  not the five its comment mentions.

## Model

| member | source | states |
|---|---|---|
| AuthMiddleware.BearerToken | server/src/middleware/auth.js:6-10 | The token is the second space-separated part of the header. There is none without a header or without a space, and a found token is never empty. |
| AuthMiddleware.BearerTokenOfScheme | server/src/middleware/auth.js:6 | `"<scheme> <token>"` yields exactly the token. |
| AuthMiddleware.DoubleSpaceHasNoToken | server/src/middleware/auth.js:6-10 | Two spaces after the scheme leave an empty second part, so there is no token. |
| AuthMiddleware.Authenticate | server/src/middleware/auth.js:4-30 | Every rejection is 401. A missing token gives "No token provided". A failed verify gives "Invalid or expired token". A passing caller is the stored user whose id the token names, with that user's role and region. |
| AuthMiddleware.MissingUserRejected | server/src/middleware/auth.js:13-17 | A valid token whose user no longer exists gives 401 "Invalid token - user not found". |
| AuthMiddleware.ClaimsOtherThanUserIgnored | server/src/middleware/auth.js:12-23 | Two tokens naming the same user id authenticate identically, whatever role or region they claim. |
| AuthMiddleware.IssuedTokenAuthenticates | server/src/middleware/auth.js:12-23 | With a sound verifier, a token signed for a stored user authenticates as that user. |
| AuthMiddleware.Authorize | server/src/middleware/auth.js:32-37 | A caller passes if and only if their role is listed. Otherwise the answer is 403 "Unauthorized". |
| RedisRetry.RetryDelay | server/src/config/redis.js:8-11 | The delay is `times * 50` ms, capped at 2000 ms. It never exceeds either bound and always equals one of them. |
| RedisRetry.RetryDelayMonotone | server/src/config/redis.js:9 | A later attempt never waits less than an earlier one. |
| RedisRetry.RetryDelayShape | server/src/config/redis.js:9 | The delay grows linearly up to attempt 40 and stays at 2000 ms from then on. |
| Domain.ParseRole | server/src/models/User.js:7-16 | A parsed role prints back as the same text. A rejected text is no role's name. |
| Domain.RoleNameRoundTrip | server/src/models/User.js:7-16 | Parsing a role's name gives that role back. |
| Domain.ParseStatus | server/src/models/Transaction.js:20-24 | A parsed status prints back as the same text. A rejected text is not one of the three statuses. |
| Domain.FindUserById | server/src/middleware/auth.js:13 | A found user is stored and has the id. Nothing is found exactly when no stored user has it. |
| Domain.FindUserByUsername | server/src/controllers/auth.js:35 | A found user is stored and has the name. Nothing is found exactly when no stored user has it. |
| Domain.FindUserByIdUnique | server/src/middleware/auth.js:13 | With unique ids, looking up a stored user's id finds that user. |
| Domain.FindUserByUsernameUnique | server/src/models/User.js:5 | With unique names, looking up a stored user's name finds that user. |
| UserSchema.Errors | server/src/models/User.js:3-20 | There are no errors exactly when every required field is given and the role is one of the four. |
| UserSchema.ErrorsNameFields | server/src/models/User.js:5-17 | Each of the four required fields is reported exactly when it is missing or empty. |
| UserSchema.ErrorsNameRole | server/src/models/User.js:7-16 | A role is reported as outside the enum exactly when it is given but is not one of the four. |
| UserSchema.Validate | server/src/models/User.js:3-20 | A document validates if and only if it has no errors, and a failure carries them. A valid user has the document's fields, the given id and the timestamp. |
| UserSchema.AnyRegionAccepted | server/src/models/User.js:17 | Any non-empty region text is accepted, since the region is not an enum. |
| UserSchema.Insert | server/src/models/User.js:5 | Insertion succeeds if and only if the name is new, and it appends the user. Otherwise it is a duplicate-key error. Unique names stay unique. |
| TransactionSchema.Errors | server/src/models/Transaction.js:3-31 | There are no errors exactly when all required fields are present and any given status is valid. |
| TransactionSchema.ErrorsNameAmounts | server/src/models/Transaction.js:5-8 | Amount and conversion rate are each reported exactly when missing. |
| TransactionSchema.ErrorsNameParties | server/src/models/Transaction.js:9-18 | Sender and receiver are each reported exactly when missing. |
| TransactionSchema.ErrorsNameRegionAndStatus | server/src/models/Transaction.js:19-24 | Region is reported exactly when missing or empty. A status is reported exactly when it is given and outside the enum. |
| TransactionSchema.Validate | server/src/models/Transaction.js:3-31 | A document validates if and only if it has no errors. The currencies default to USD and USDC, and the status defaults to pending. |
| TransactionSchema.NonPositiveAmountAccepted | server/src/models/Transaction.js:5 | An amount of zero or less is stored, since the schema has no minimum. |
| TransactionSchema.MissingRequiredRejected | server/src/models/Transaction.js:5-19 | A document missing amount, conversion rate, sender, receiver or region is rejected. |
| AuditLogSchema.Errors | server/src/models/AuditLog.js:3-18 | A missing action or user id is reported. There are no errors exactly when both are given. |
| AuditLogSchema.Validate | server/src/models/AuditLog.js:3-18 | A record validates if and only if it has no errors, and keeps the action, user id and details. |
| AuditLogSchema.DetailsOptional | server/src/models/AuditLog.js:11 | A record without details is valid. |
| AuditLogSchema.UserOf | server/src/models/AuditLog.js:21-26 | The `user` virtual is the stored user with the record's id, and is absent exactly when no such user exists. |
| AuthController.Register | server/src/controllers/auth.js:5-29 | The answer is 201 if and only if the body is registrable. It appends one user with the hashed password and the next id, and returns a token signed for that user. Every failure is 400 and stores nothing. The store stays well formed. |
| AuthController.EmptyPasswordRegisters | server/src/controllers/auth.js:7-17 | An empty password is hashed and accepted like any other. |
| AuthController.LoginCandidate | server/src/controllers/auth.js:33-35 | The user `findOne` returns: the first user with the given name, or the first stored user when the body has no name. |
| AuthController.Login | server/src/controllers/auth.js:31-51 | An unknown name, an empty store or a wrong password gives 401 "Invalid credentials". A lookup failure gives 400. Success is 200 with a token for the stored user whose password matches: the user of that name, or the first stored user when no name was sent. |
| AuthController.MissingUsernameSignsInFirstUser | server/src/controllers/auth.js:33-47 | A body with no name and the first stored user's password gets that user's token. |
| AuthController.LoginWithRightPassword | server/src/controllers/auth.js:35-47 | A stored user with a matching password gets 200 and a token for themselves. |
| AuthController.WrongPasswordLooksLikeUnknownUser | server/src/controllers/auth.js:37-38 | A wrong password gets the same answer as a name that does not exist. |
| AuthController.RegisterThenLogin | server/src/controllers/auth.js:5-51 | After a successful registration, signing in with the same name and password returns the token the registration returned. |
| AuthController.RegisterThenAuthenticate | server/src/controllers/auth.js:19-25 | The token from a registration authenticates as the new user, with their id, role and region. |
| AuthController.GetMe | server/src/controllers/auth.js:52-73 | No caller gives 401. A lookup failure gives 500. A missing user gives 404. Success returns the caller's stored user without the password. |
| AuthController.MeAfterAuthenticate | server/src/controllers/auth.js:55-68 | Behind `authenticate`, `/me` returns the caller's own stored user. |
| AuthController.GetAllUsers | server/src/controllers/auth.js:76-83 | Success returns every stored user, in order, without passwords. A failure is 500. |
| AuthController.UsersRoute | server/src/routes/auth.js:16 | An unauthenticated request is 401. Any authenticated caller gets exactly what `getAllUsers` answers, failure included. |
| AuthController.EveryCallerSeesAllUsers | server/src/routes/auth.js:16 | Every authenticated caller, of any role, receives the whole user list. |
| AuthController.GetUserStats | server/src/controllers/auth.js:86-135 | `totalUsers` is the number of users. The role and region distributions have one entry per distinct value in order of first appearance. Each entry counts that value's users, and the counts sum to the total. A failure is 500. |
| AuthController.RoleDistributionBounded | server/src/controllers/auth.js:88-109 | The role distribution has at most four entries, each counting at least one user. |
| AuthController.RoleDistributionIsTally | server/src/controllers/auth.js:88-109 | The role distribution is the grouped count of the users' role names. |
| TransactionsController.CreateTransaction | server/src/controllers/transactions.js:4-20 | The answer is 201 with the saved transaction if and only if the body validates, the save succeeds, and the audit record is written. A failure is 400. A failed audit write leaves the transaction stored without an audit record. Users never change, and the store stays well formed. |
| TransactionsController.GetTransactions | server/src/controllers/transactions.js:22-29 | Success returns every stored transaction, in order. A failure is 500. |
| TransactionsController.ListRoute | server/src/routes/transactions.js:10-11 | An unauthenticated request is 401. Otherwise the answer is the list. |
| TransactionsController.CreateRoute | server/src/routes/transactions.js:10-12 | An unauthenticated request is 401 and stores nothing. Otherwise the transaction is created with the authenticated caller. |
| TransactionsController.AuthenticatedCreateSucceeds | server/src/controllers/transactions.js:4-16 | Behind `authenticate`, a valid body is stored and answered with 201 unless a database write fails. |
| TransactionsController.CreatedThenListed | server/src/controllers/transactions.js:4-29 | A created transaction appears in the list after those stored before it. |
| TransactionsController.ListIgnoresCaller | server/src/controllers/transactions.js:22-29 | Every authenticated caller gets the same full list. |
| TransactionsController.RegionalAdminSeesOtherRegions | server/src/controllers/transactions.js:24 | A regional admin of one region is sent another region's transaction. |
| AuditController.Populate | server/src/controllers/audit.js:8-10 | A log's `userId` is populated with the stored user's id and region, and its `user` virtual with the whole stored user, as the pre-find hook of server/src/models/AuditLog.js:29-35 asks. Both are `null` exactly when no user has the id. |
| AuditController.Joined | server/src/controllers/audit.js:14-24 | `$lookup` with `$unwind` and `$match` keeps a log only when a stored user in the region owns it. |
| AuditController.InRegion | server/src/controllers/audit.js:14-24 | Every kept log is a stored log owned by a user of the region. |
| AuditController.JoinedNone | server/src/controllers/audit.js:23 | A log whose user does not exist is dropped by `$unwind`. |
| AuditController.JoinedUnique | server/src/controllers/audit.js:14-24 | With unique ids, a log is kept once if its owner is in the region, and dropped otherwise. |
| AuditController.InRegionIsFilter | server/src/controllers/audit.js:14-24 | With unique ids, the region pipeline is the filter "owned by a user of the region". |
| AuditController.GlobalLogs | server/src/controllers/audit.js:8-11 | Every stored log, newest first, each with its populated user. |
| AuditController.RegionRecords | server/src/controllers/audit.js:14-25 | The region's logs, newest first, as a permutation of the filtered logs. |
| AuditController.RegionLogs | server/src/controllers/audit.js:14-26 | The region's logs, newest first, with `userId` left as the id and no `user`. |
| AuditController.GetAuditLogs | server/src/controllers/audit.js:3-39 | Region "global" gets every log, each with its populated users. Any other region gets exactly the logs owned by its users, without `user`. Either answer is newest first. A failure is 500 "Failed to fetch audit logs", with the cause only in development. |
| AuditController.ScopeIgnoresRole | server/src/controllers/audit.js:7 | Two callers of the same region get the same answer, whatever their roles. |
| AuditController.OrphanLog | server/src/controllers/audit.js:7-24 | A log whose user is gone is dropped for a regional caller, and shown with `null` for `userId` and `user` to a global one. |
| AuditController.AuditRoute | server/src/routes/audit.js:7-9 | An unauthenticated request is 401. A role other than the two admin roles is 403. Otherwise the answer is the audit logs. |
| AuditController.PartnersForbidden | server/src/routes/audit.js:8 | Sending and receiving partners always get 403. |
| AuditController.GlobalAdminOutsideGlobalRegionIsScoped | server/src/controllers/audit.js:7-27 | A global admin whose region is not "global" sees only their region's logs. |
| AuthSlice.Initial | client/src/store/slices/authSlice.jsx:4-10 | The token is the stored one when that is non-empty. The user starts signed out, with no user, role, loading flag or error. |
| AuthSlice.Login | client/src/store/slices/authSlice.jsx:16-22 | Sets the token, the user, the user's role, and the signed-in flag. Writes exactly "token" and "role" to storage and leaves every other key alone. |
| AuthSlice.UpdateUserState | client/src/store/slices/authSlice.jsx:27-33 | Merges the payload over the user. Rewrites the stored "role" only when the payload has a truthy `roleId.type`. |
| AuthSlice.UpdateUserStateIdempotent | client/src/store/slices/authSlice.jsx:28 | Applying the same update twice is the same as applying it once. |
| AuthSlice.SetLoading | client/src/store/slices/authSlice.jsx:34-36 | Only the loading flag changes. |
| AuthSlice.ClearError | client/src/store/slices/authSlice.jsx:37-39 | Only the error is cleared. |
| AuthSlice.Logout | client/src/store/slices/authSlice.jsx:42-56 | Sets the token to "", empties the user and signs out, but keeps the role in state. Removes exactly "token" and "role" from storage. |
| AuthSlice.LoginSurvivesReload | client/src/store/slices/authSlice.jsx:4-22 | After a sign-in, a reload starts with the same token. |
| AuthSlice.LogoutSurvivesReload | client/src/store/slices/authSlice.jsx:4-57 | After a sign-out, a reload starts with no token. |
| AuthSlice.LogoutKeepsRole | client/src/store/slices/authSlice.jsx:42-46 | After a sign-in and a sign-out, the state still holds the old role, while storage no longer does. |
| TransactionsTable.Filtered | client/src/components/transactions/TransactionsTable.jsx:135-158 | Exactly the rows that match search, status and region are kept, in their order. |
| TransactionsTable.KeptRowsMatchSelects | client/src/components/transactions/TransactionsTable.jsx:148-154 | A kept row has the chosen status and region, unless that filter is "all". |
| TransactionsTable.NoFiltersKeepAll | client/src/components/transactions/TransactionsTable.jsx:135-158 | With no filter set, every row is kept. |
| TransactionsTable.NameSearchIgnoresCase | client/src/components/transactions/TransactionsTable.jsx:138-145 | A term found in the sender's name in any letter case matches, in either case. |
| TransactionsTable.AmountSearch | client/src/components/transactions/TransactionsTable.jsx:146 | A row matches a search for its own amount text. |
| TransactionsTable.Step | client/src/components/transactions/TransactionsTable.jsx:112-170 | A page change sets only the page. Every other event sets its own piece of state and returns to page 0. |
| TransactionsTable.ClearFiltersRestoresAll | client/src/components/transactions/TransactionsTable.jsx:165-170 | Without the chip the table is unfiltered. After "Clear filters" the chip is gone and every row is back, from page 0. |
| TransactionsTable.StepKeepsRowsPerPageOption | client/src/components/transactions/TransactionsTable.jsx:116-119 | The page size stays one of the offered options. |
| TransactionsTable.UniqueRegions | client/src/components/transactions/TransactionsTable.jsx:122-126 | Each region option is a distinct, non-empty region of some row. Every row's non-empty region is offered. |
| TransactionsTable.UniqueStatuses | client/src/components/transactions/TransactionsTable.jsx:128-132 | Each status option is a distinct, non-empty status of some row. Every row's non-empty status is offered. |
| TransactionsTable.OfferedRegionNonEmpty | client/src/components/transactions/TransactionsTable.jsx:122-158 | Choosing an offered region keeps at least one row. |
| TransactionsTable.RegionLabel | client/src/components/transactions/TransactionsTable.jsx:352 | A missing or empty region shows "N/A". Otherwise only the first underscore becomes a space. |
| TransactionsTable.RegionLabelKeepsLaterUnderscores | client/src/components/transactions/TransactionsTable.jsx:352 | A region with two underscores keeps the second one in its label. |
| TransactionsTable.PartyLabel | client/src/components/transactions/TransactionsTable.jsx:332 | A party cell shows the populated username, or "N/A". |
| TransactionsTable.StatusTone | client/src/components/transactions/TransactionsTable.jsx:369-380 | The badge is success exactly for completed and danger exactly for rejected. Anything else is warning. |
| TransactionsTable.VisibleRows | client/src/components/transactions/TransactionsTable.jsx:304-309 | The shown rows are at most one page, and all of them match the filters. |
| TransactionsTable.FilterChangeShowsFirstPage | client/src/components/transactions/TransactionsTable.jsx:194-197 | After a filter change, the table shows the first page of the new result. |
| TransactionsTable.AllRowsOption | client/src/components/transactions/TransactionsTable.jsx:424 | With "All", every filtered row is shown, there is no padding, and forward navigation is disabled. |
| Pagination.LastPage | client/src/components/transactions/TransactionsTable.jsx:52-54 | The last page holds the last row. It is 0 for an empty list or the "All" size. |
| Pagination.DisabledButtons | client/src/components/transactions/TransactionsTable.jsx:58-97 | First and back are disabled exactly on page 0. Next and last are disabled exactly when no row lies past the current page. |
| Pagination.ButtonTargets | client/src/components/transactions/TransactionsTable.jsx:40-54 | The four buttons go to page 0, the page before, the page after and the last page. |
| Pagination.EnabledButtonsStayInRange | client/src/components/transactions/TransactionsTable.jsx:44-92 | An enabled back or next button leads to a page that exists. |
| Pagination.PageRows | client/src/components/transactions/TransactionsTable.jsx:304-309 | A page is the slice of at most `rowsPerPage` rows starting at `page * rowsPerPage`. A size of zero or less shows every row. |
| Pagination.RowOnItsPage | client/src/components/transactions/TransactionsTable.jsx:304-309 | Row i appears on page `i / rowsPerPage`, at position `i % rowsPerPage`. |
| Pagination.PagesDisjoint | client/src/components/transactions/TransactionsTable.jsx:304-309 | Different pages show different rows. |
| Pagination.EmptyRows | client/src/components/transactions/TransactionsTable.jsx:160-163 | There is no padding on page 0 or with "All". Otherwise the padding is what the page lacks. |
| Pagination.PaddingFillsPage | client/src/components/transactions/TransactionsTable.jsx:160-163 | On a page that starts inside the list, the shown rows plus the padding make a full page. |
| AuditLogsTable.Filtered | client/src/components/audit/AuditLogsTable.jsx:116-128 | Exactly the logs that match the search and the action filter are kept, in their order. |
| AuditLogsTable.ShowingCount | client/src/components/audit/AuditLogsTable.jsx:264 | "Showing X of Y": X is at most Y, and is Y with no filter. |
| AuditLogsTable.KeptActionMatches | client/src/components/audit/AuditLogsTable.jsx:125 | A kept log has the chosen action. |
| AuditLogsTable.UniqueActions | client/src/components/audit/AuditLogsTable.jsx:113 | Each action appears once, and exactly the actions of the logs are offered. |
| AuditLogsTable.UniqueActionsInFirstOrder | client/src/components/audit/AuditLogsTable.jsx:113 | The options are in order of each action's first appearance. |
| AuditLogsTable.Step | client/src/components/audit/AuditLogsTable.jsx:130-162 | Every event except a page change returns to page 0. Removing a chip clears only the filter it names. |
| AuditLogsTable.Chips | client/src/components/audit/AuditLogsTable.jsx:165-172 | There is a search chip exactly when searching, and an action chip exactly when an action is chosen, each with its label. There are no other chips, and the search chip comes first. |
| AuditLogsTable.RemoveDropsOnlyThatChip | client/src/components/audit/AuditLogsTable.jsx:155-172 | Deleting a chip removes that chip and keeps the other. |
| AuditLogsTable.ClearAllShowsEverything | client/src/components/audit/AuditLogsTable.jsx:149-153 | After "Clear All" there are no chips and every log is shown. |
| AuditLogsTable.UserLabel | client/src/components/audit/AuditLogsTable.jsx:329 | The user cell shows the user's name, or "System". |
| AuditLogsTable.RowOfView | server/src/controllers/audit.js:7-27 | A served log reaches the table with its id, action, details and time. It carries a user object exactly when its `user` was populated, with that user's id and name. |
| AuditLogsTable.UserlessRow | client/src/components/audit/AuditLogsTable.jsx:119-123 | A log served without `user` shows "System", and only its action and details can match a search. |
| AuditLogsTable.RegionalLogsHaveNoUser | server/src/controllers/audit.js:12-27 | Every log a regional caller gets shows "System", and the user-name part of the search never matches it. |
| AuditLogsTable.GlobalLogsShowOwner | server/src/controllers/audit.js:7-11 | A log a global caller gets shows its owner's name, and a search for that name finds it. It shows "System" only when the owner is gone or has an empty name. |
| AuditLogsTable.VisibleRows | client/src/components/audit/AuditLogsTable.jsx:287-292 | The shown logs are at most one page, and all of them match the filters. |
| UsersTable.RoleColor | client/src/components/users/UsersTable.jsx:57-65 | Each role gets its colour from the table. Anything else gets "default". |
| UsersTable.RoleColorsDistinct | client/src/components/users/UsersTable.jsx:58-63 | The four roles get four different colours, none of them "default". |
| UsersTable.RoleText | client/src/components/users/UsersTable.jsx:198 | Every underscore becomes a space, and every other character is kept. |
| UsersTable.RoleTextInjective | client/src/components/users/UsersTable.jsx:198 | Role spellings without spaces keep different chip texts. |
| UsersTable.Step | client/src/components/users/UsersTable.jsx:138-145 | A page change keeps the size. A size change returns to page 0. |
| UsersTable.VisibleRows | client/src/components/users/UsersTable.jsx:179-185 | The shown users are at most one page and come from the list. With "All", the whole list is shown. |
| UsersTable.StalePageShowsNothing | client/src/components/users/UsersTable.jsx:147-148 | A page past a shrunken list shows no user and at least a full page of padding. "No users found" stays hidden. |
| UsersTable.PageSizeChangeShowsFirstRows | client/src/components/users/UsersTable.jsx:142-145 | After a size change, the first rows are shown. |
| UserManagement.FilteredUsers | client/src/components/users/AllUserManagementComponents.jsx:70-86 | Exactly the users that match role, region and search are kept, in their order. |
| UserManagement.NoFiltersKeepAll | client/src/components/users/AllUserManagementComponents.jsx:70-86 | With no filter set, every user is listed. |
| UserManagement.SearchFindsOwnName | client/src/components/users/AllUserManagementComponents.jsx:79-84 | Searching for a user's own name finds them, in any case. |
| UserManagement.RoleFilterCount | client/src/components/users/AllUserManagementComponents.jsx:73 | The role filter lists as many users as hold the role. |
| UserManagement.RoleFilterMatchesDistribution | client/src/components/users/AllUserManagementComponents.jsx:128 | Each role count in the statistics equals the number of users the role filter lists. |
| UserManagement.RegionOptions | client/src/components/users/AllUserManagementComponents.jsx:188 | Each region appears once, including an empty region, and exactly the users' regions are offered. |
| UserManagement.RegionOptionSelectsItsUsers | client/src/components/users/AllUserManagementComponents.jsx:188 | Choosing a region option lists exactly that region's users. |
| UserManagement.Fetch | client/src/components/users/AllUserManagementComponents.jsx:31-68 | Without a token nothing loads. The page takes both answers or neither, and loading ends either way. |
| UserManagement.TotalUsersShown | client/src/components/users/AllUserManagementComponents.jsx:112 | The card shows `totalUsers`, or 0 before any statistics arrive. |
| UserManagement.TotalMatchesList | client/src/components/users/AllUserManagementComponents.jsx:112 | After a successful load, the card equals both the number of stored users and the number of rows. |
| UserManagement.StatsFailureHidesUsers | client/src/components/users/AllUserManagementComponents.jsx:41-57 | A failed statistics request leaves the user list empty too. |
| LoginForm.Submit | client/src/components/login/LoginForm.jsx:34-45 | A field that trims to nothing blocks the submit with the blank-field error. `trim()` strips all of JavaScript's white space and line terminators, the Unicode ones included. Otherwise the untrimmed fields are sent, with the error cleared and loading on. |
| LoginForm.BlankFieldsNeverSent | client/src/components/login/LoginForm.jsx:36-39 | An all-white-space password never reaches the server. |
| LoginForm.UnicodeBlankPasswordNeverSent | client/src/components/login/LoginForm.jsx:36-39 | A password made only of no-break spaces or byte-order marks is blocked too. |
| LoginForm.PaddedNameIsSent | client/src/components/login/LoginForm.jsx:36-45 | A name with a trailing space is sent as typed, and the server answers "Invalid credentials". |
| LoginForm.ErrorText | client/src/components/login/LoginForm.jsx:48-52 | The alert shows `data.message`, else the client's message, else the fallback. It is never empty. |
| LoginForm.Settle | client/src/components/login/LoginForm.jsx:44-56 | Success signs in. A failure shows the error text. Loading ends either way. |
| LoginForm.RejectedSignInShowsClientText | client/src/components/login/LoginForm.jsx:47-52 | A server rejection shows the HTTP client's text, or the fallback, and never the server's own text. |
| LoginForm.CorrectCredentialsSignIn | client/src/components/login/LoginForm.jsx:44-46 | A stored user's exact name and password are sent and accepted. |
| LoginForm.TogglePassword | client/src/components/login/LoginForm.jsx:59-61 | Only the visibility flips. |
| LoginForm.PasswordFieldType | client/src/components/login/LoginForm.jsx:138 | The field is "text" exactly while shown, and "password" otherwise. |
| LoginForm.ToggleTwice | client/src/components/login/LoginForm.jsx:59-61 | Toggling twice restores the form. One toggle changes the field type. |
| LoginForm.ButtonText | client/src/components/login/LoginForm.jsx:183 | The button reads "Signing in..." while loading, and "Sign In" otherwise. |
| LoginForm.SubmitDisablesUntilSettled | client/src/components/login/LoginForm.jsx:171 | A sent submit shows the loading label until it settles. |
| AddTransactionDialog.SetField | client/src/components/transactions/AddTransactionDialog.jsx:40-46 | Only the named field changes. |
| AddTransactionDialog.Reverse | client/src/components/transactions/AddTransactionDialog.jsx:48-54 | The two currencies swap, and nothing else changes. |
| AddTransactionDialog.ReverseTwice | client/src/components/transactions/AddTransactionDialog.jsx:48-54 | Swapping twice restores the form. |
| AddTransactionDialog.DisabledCurrencies | client/src/components/transactions/AddTransactionDialog.jsx:56-61 | Each select disables the currency that the other select holds. |
| AddTransactionDialog.CurrencyStep | client/src/components/transactions/AddTransactionDialog.jsx:134-140 | Picking a disabled option does nothing. Picking another option sets it. Swap reverses. |
| AddTransactionDialog.CurrencyStepKeepsValid | client/src/components/transactions/AddTransactionDialog.jsx:56-61 | Two different offered currencies stay different and offered. |
| AddTransactionDialog.CurrenciesAlwaysValid | client/src/components/transactions/AddTransactionDialog.jsx:29-61 | From the initial form, any sequence of picks and swaps keeps two different currencies. |
| AddTransactionDialog.SubmitDisabled | client/src/components/transactions/AddTransactionDialog.jsx:199-205 | Submit is enabled exactly when every field is filled and nothing is loading. |
| AddTransactionDialog.PostedDoc | client/src/components/transactions/AddTransactionDialog.jsx:71-76 | The posted document has the form's amount, currencies and status and the stored sender. It has no conversion rate, receiver or region. |
| AddTransactionDialog.SubmitAlwaysRejected | client/src/components/transactions/AddTransactionDialog.jsx:69-76 | Whatever the form, caller and database, the server rejects the dialog's transaction and stores nothing. |
| AddTransactionDialog.SenderIdNeverStored | client/src/components/transactions/AddTransactionDialog.jsx:69 | Signing in and out never writes the "userId" key that the sender is read from. |
| AddTransactionDialog.ErrorText | client/src/components/transactions/AddTransactionDialog.jsx:94 | The alert shows `data.message`, or "Failed to create transaction". |
| AddTransactionDialog.Settle | client/src/components/transactions/AddTransactionDialog.jsx:63-99 | Success resets the form and closes the dialog. A failure keeps the form and shows the error. Loading ends either way. |
| AddTransactionDialog.RejectionShowsFallback | client/src/components/transactions/AddTransactionDialog.jsx:92-95 | A server rejection always shows the fallback text. |
| StatusPieChart.StatusColor | client/src/components/transactions/TransactionCharts/StatusPieChart.jsx:10-21 | Green, amber or red for the three statuses. Grey for anything else. |
| StatusPieChart.PieData | client/src/components/transactions/TransactionCharts/StatusPieChart.jsx:46-55 | One slice per distinct status, in order of first appearance. Each slice holds its status's count, at least 1, and that status's colour. |
| StatusPieChart.PieCoversAll | client/src/components/transactions/TransactionCharts/StatusPieChart.jsx:46-49 | The slices add up to the number of transactions. |
| StatusPieChart.SliceMatchesStatusFilter | client/src/components/transactions/TransactionCharts/StatusPieChart.jsx:46-55 | Choosing a slice's status in the table keeps as many rows as the slice counts. |
| TxRegionBarChart.BarData | client/src/components/transactions/TransactionCharts/RegionBarChart.jsx:15-23 | One bar per distinct region, in order of first appearance, each with its count. The bars add up to the number of transactions, and there are none exactly when there are no transactions. |
| TxRegionBarChart.MissingRegionCountedAsUndefined | client/src/components/transactions/TransactionCharts/RegionBarChart.jsx:16 | A row without a region is counted under "undefined". |
| TxRegionBarChart.BarMatchesRegionFilter | client/src/components/transactions/TransactionCharts/RegionBarChart.jsx:15-23 | Choosing a bar's region in the table keeps as many rows as the bar counts. |
| TopSendersChart.SenderKey | client/src/components/transactions/TransactionCharts/TopSendersChart.jsx:17-18 | A missing sender is skipped. A bare id is its own key. A populated sender's key is its id, or "[object Object]" when the id is empty. |
| TopSendersChart.Senders | client/src/components/transactions/TransactionCharts/TopSendersChart.jsx:16-17 | Exactly the transactions with a sender are counted. |
| TopSendersChart.GroupsOf | client/src/components/transactions/TransactionCharts/TopSendersChart.jsx:19-23 | One group per distinct key, in order of first appearance. Each group has its count and the first sender seen with the key. |
| TopSendersChart.GroupsCountSenders | client/src/components/transactions/TransactionCharts/TopSendersChart.jsx:16-26 | The groups together count every transaction that has a sender, and no other. |
| TopSendersChart.GroupKeysDistinct | client/src/components/transactions/TransactionCharts/TopSendersChart.jsx:19 | Different groups have different keys. |
| TopSendersChart.TopGroups | client/src/components/transactions/TransactionCharts/TopSendersChart.jsx:28-30 | At most eight groups, largest first. No group left out is larger than a shown one. |
| TopSendersChart.SortKeepsTieOrder | client/src/components/transactions/TransactionCharts/TopSendersChart.jsx:29 | Groups of equal size keep their order. |
| TopSendersChart.Avatar | client/src/components/transactions/TransactionCharts/TopSendersChart.jsx:34 | The upper-cased first letter of the name. Empty for an empty name, and none without a name. |
| TopSendersChart.SenderData | client/src/components/transactions/TransactionCharts/TopSendersChart.jsx:28-36 | At most eight bars, one per shown group, with that group's sender name, count, avatar and role. |
| TopSendersChart.BarsCountTransactions | client/src/components/transactions/TransactionCharts/TopSendersChart.jsx:19-33 | Each bar counts between 1 and the number of transactions. |
| TopSendersChart.IdlessSendersShareAGroup | client/src/components/transactions/TransactionCharts/TopSendersChart.jsx:18 | Populated senders without an id all fall into the one group "[object Object]". |
| TopSendersChart.BareIdBarIsBlank | client/src/components/transactions/TransactionCharts/TopSendersChart.jsx:32-35 | A sender that arrived as a bare id gets a bar with no name, avatar or role. |
| AuditLogsChart.ActionColor | client/src/components/audit/AuditLogsChart.jsx:12-14 | The palette colour of the lower-cased action, or grey when there is none or it is empty. |
| AuditLogsChart.PieData | client/src/components/audit/AuditLogsChart.jsx:39-48 | One slice per distinct action, in order of first appearance, with its count and colour. The slices add up to the number of logs, and there are none exactly when there are no logs. |
| AuditLogsChart.PlaceholderIffNoLogs | client/src/components/audit/AuditLogsChart.jsx:50-56 | "No audit logs available" shows exactly when there is no log. Otherwise the pie covers every log. |
| AuditLogsChart.SlicesAreActionOptions | client/src/components/audit/AuditLogsChart.jsx:39-48 | The slices name the same actions, in the same order, as the table's action filter. |
| AuditLogsChart.SliceMatchesActionFilter | client/src/components/audit/AuditLogsChart.jsx:39-48 | Choosing a slice's action in the table shows as many logs as the slice counts. |
| AuditLogsChart.LegendText | client/src/components/audit/AuditLogsChart.jsx:82 | Every underscore becomes a space, and every other character is kept. |
| AuditLogsChart.LegendTextInjective | client/src/components/audit/AuditLogsChart.jsx:82 | Actions without spaces keep different legend entries. |
| AuditLogsStats.StatsOf | client/src/components/audit/AuditLogsStats.jsx:4-6 | The total is the number of logs. Active users is the number of distinct user ids, counting a missing id once. It is 0 exactly when there are no logs and never exceeds the total. Last activity is the first log's time, or none without logs. |
| AuditLogsStats.LastActivityText | client/src/components/audit/AuditLogsStats.jsx:15 | The formatted time, or "N/A". |
| AuditLogsStats.ServedRows | client/src/pages/AuditLogs.jsx:26 | The page shows the served logs one for one, or none after a failure. |
| AuditLogsStats.UserlessLogsCountOnce | client/src/components/audit/AuditLogsStats.jsx:5 | Logs without a user id count as one active user together. |
| AuditLogsStats.RegionalLogsShowOneActiveUser | client/src/components/audit/AuditLogsStats.jsx:5 | For a regional caller, "Active Users" is 1 when there is any log, however many users acted. |
| AuditLogsStats.OwnerId | client/src/components/audit/AuditLogsStats.jsx:5 | The id the card reads from a globally served log is its owner's id, and is missing exactly when no user has it. |
| AuditLogsStats.GlobalActiveUsersCountOwners | client/src/components/audit/AuditLogsStats.jsx:5 | For a global caller, "Active Users" is the number of distinct owners of the stored logs, with all orphan logs counting once together. |
| AuditLogsStats.LastActivityIsNewest | client/src/components/audit/AuditLogsStats.jsx:6 | Because the server answers newest first, "Last Activity" is the latest time of any served log. |
| UsersRegionChart.SortedData | client/src/components/users/RegionBarChart.jsx:18 | A stable permutation of the bars, by count, largest first. |
| UsersRegionChart.ServerBarsCountUsers | client/src/components/users/AllUserManagementComponents.jsx:139 | Fed with the server's statistics, there is one bar per region of the stored users. Each bar counts that region's users, and every user's region has a bar. |

## Left out

- Network, HTTP transport and browser storage are left out except where a component reads or writes a named key. Express, Mongoose connection handling, the Redis client and its events, `console` logging, and React rendering, animation and styling are left out too.
- JWT signing and verification and bcrypt are parameters (`AuthMiddleware.Jwt`, `AuthController.Crypto`). Token expiry lives inside `verify`, so the model has no clock there. Other timestamps are a `now` parameter.
- Database failures are `Option<string>` parameters (`saveFault`, `lookupFails`, `fault`). Their text is whatever the driver would report.
- The Mongoose auto-populate hooks on `Transaction` finds are left out. The client's transaction rows instead allow a party to be missing, a bare id, or populated. The `AuditLog` pre-find hook is modelled on the global audit branch, the only one that runs a `find`.
- The order in which MongoDB emits `$group` results is unspecified. The model uses first appearance and states counts and membership. The tie order of `$sort` is likewise unspecified, and the contracts state sortedness and permutation only.
- JavaScript object keys that look like integers are enumerated first. The model keeps every key in first-appearance order, so keys like "1" are not modelled specially.
- TxRegionBarChart.BarData: counts into a plain `{}`, so a region named after an `Object.prototype` member does not start from 0. "constructor", "toString" or "valueOf" get a string count such as "function Object() { [native code] }1", and "__proto__" gets no bar at all. The model treats every region as a fresh key, and lists integer-like region names in first-appearance order rather than first. So `TxRegionBarChart.BarMatchesRegionFilter` holds in the program only for other region names. Region is a free string, so such names can reach the chart. The status and action charts are not affected: statuses are an enum and actions are server constants.
- Numbers are integers: amounts, conversion rates and counts. `toFixed(2)` and floating point are left out. The amount search uses the integer's decimal text.
- `toLowerCase` maps ASCII letters only. Unicode case folding is left out.
- TopSendersChart.Avatar: upper-cases ASCII letters only. `toUpperCase` also maps other letters, and some to two characters ("ß" becomes "SS"). `charAt(0)` takes a UTF-16 code unit, not a whole character. Both are left out with the rest of Unicode casing.
- Date formatting (`toLocaleString`) is a parameter of `AuditLogsStats.LastActivityText`.
- The colour table of `utils/Colors` is not part of this model. It is the `palette` parameter of `AuditLogsChart`.
- The `AmountLineChart`, the role pie chart and the stats card are left out as presentation only. The other pages, `AuthContext` and the API helper modules are outside the modelled core.
- The error handler of the user-management page calls `setError`, which that component never defines. The model keeps only the observable result: the page stays empty and loading ends.
- The `getMe` answer and the user list are modelled without `createdAt` and `updatedAt` formatting. Passwords are removed, as `select("-password")` does.
- `AuthSlice.Logout`: the model combines the `logout.fulfilled` reducer with the thunk's storage removals. It does not model the moment between the thunk starting and the reducer running.
- `TopSendersChart.TopGroups`: the sort comparator `b.count - a.count` is modelled as a stable descending sort. The ordering of engines that sort unstably is left out.
