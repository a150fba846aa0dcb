# Eno savings: a verified model of the ledger, its routes and its dashboards

Eno savings is a web application in which administrators record users' savings
and withdrawals. Users see how far their savings have come towards a goal. This
project models its core in Dafny:

- **The ledger store.** Users, savings and withdrawals are three tables of a
  class, `Store.LedgerStore`. Its methods are the API route handlers:
  - the admin savings POST;
  - the admin withdrawals POST and GET;
  - the admin users POST, PUT and DELETE;
  - the user profile-completion POST.

  Each handler states its session and role gate, its validation errors, what
  it changes, and that nothing else changes. The class invariant
  `Store.LedgerStore.Valid` keeps the tables consistent: unique ids, unique
  emails, and every row owned by an existing user.
- **The available balance.** A user's available balance is the sum of their
  savings less the sum of their withdrawals (module `Ledger`). A withdrawal
  above it is refused.
- **Routing decisions.**
  - the check-user callback: login, dashboard or profile completion;
  - the next-auth `redirect` and `session` callbacks;
  - the sidebar's current-tab predicate.
- **The analytics route.** It groups savings by month into an accumulator, in
  place.
- **The dashboards' aggregations.**
  - totals, averages and goal progress, capped and uncapped;
  - the running-total chart;
  - the case-insensitive user search;
  - monthly buckets;
  - top-N rankings, built by sorting then slicing;
  - "created in the last N days" counts;
  - the two withdrawal and add-saving forms, as classes whose fields change
    step by step.
- **The five admin tabs.** These are the users, reports, analytics, overview
  and savings tabs. Their tables are modelled, and so are their edit dialogs.
  The newest-first sort of the `allSavings` prop happens in place, on an array.

Amounts are exact `real` numbers. Timestamps are `int` milliseconds. Row ids
are `nat`. A JSON body member is a `Field<T>` that is `Absent`, `Null` or
`Value(v)`, because Prisma treats an `undefined` member differently from
`null`.

Several things are inputs to the model rather than part of it:
- the current time;
- the month key of a timestamp;
- `Number.parseFloat`;
- the outcome of a client `fetch`.

The database schema is not part of the sources modelled here, so the model
makes these assumptions about it:
- `Saving.userId` and `Withdrawal.userId` are foreign keys to `User`;
- `User.email` is unique;
- a user's withdrawals block deleting that user (Prisma's default `Restrict`).

As a result, DELETE of a user who has withdrawals removes their savings and
then answers 500. PUT with an email that another user already has also
answers 500 and changes nothing.

## Model

| member | source | states |
|---|---|---|
| Store.LedgerStore.PostSaving | src/app/api/admin/savings/route.ts:6-49 | 401 without a session and 403 for a non-admin, both with no write. 400 for a missing user id or a falsy amount. Otherwise exactly one saving row is appended with the given user, amount and description, with no balance check, and the withdrawals and users are unchanged |
| Store.LedgerStore.PostWithdrawal | src/app/api/admin/withdrawals/route.ts:7-60 | 401/403 gates and 400 for a missing user id or a falsy amount (a negative amount passes). "Insufficient funds" exactly when amount > available, with the tables unchanged. Otherwise one withdrawal row is appended and savings and users are untouched |
| Store.LedgerStore.GetWithdrawals | src/app/api/admin/withdrawals/route.ts:63-91 | With a user id only that user's withdrawals are returned, otherwise all of them. The rows are a permutation of the selected ones, ordered newest first |
| Store.LedgerStore.CreateUser | src/app/api/admin/users/route.ts:43-92 | Gates, then 400 without a name or email. 400 and no change for an existing email. Otherwise one user is added with role "USER", empty phone or frequency stored as null and a falsy goal as null |
| Store.LedgerStore.UpdateUser | src/app/api/admin/users/route.ts:94-134 | Gates, then 400 without userId, name or email. Only the target user's name, email, phone, goal and frequency change. A missing row or an email already held by another user answers 500 with no change |
| Store.LedgerStore.DeleteUser | src/app/api/admin/users/route.ts:136-175 | Gates, then 400 without the query parameter. Every saving of the user is removed and the others are kept. The user row goes too, unless withdrawals still reference it (500) |
| Store.LedgerStore.CompleteProfile | src/app/api/user/complete-profile/route.ts:6-34 | 401 without a session id. Only the session user's row changes: phone and frequency as sent, a falsy goal as null, any other goal parsed |
| Store.Assign | src/app/api/user/complete-profile/route.ts:17-23 | An absent member leaves the column, null clears it, and a value sets it |
| Store.ParsedGoal | src/app/api/admin/users/route.ts:81 | A falsy goal text gives null, any other text its parsed number |
| Store.DeleteUserValid | src/app/api/admin/users/route.ts:160-168 | Removing a user whose savings are gone and who has no withdrawals keeps the tables consistent |
| Store.ReplaceUserValid | src/app/api/admin/users/route.ts:118-127 | Replacing a user's fields with an email nobody else holds keeps the tables consistent |
| Access.GateById | src/app/api/admin/withdrawals/route.ts:9-18 | No session id answers 401, and a caller whose row is missing or not ADMIN answers 403. The gate passes exactly when the session's id finds an admin row |
| Access.GateByEmail | src/app/api/admin/users/route.ts:45-58 | A falsy session email answers 401, and a missing or non-admin row for that email answers 403. The gate passes exactly when the email finds an admin row |
| Common.TextOrNull | src/app/api/admin/users/route.ts:80 | A falsy text (missing, null or empty) is stored as null, any other as itself |
| Common.StoredOrNull | src/app/api/admin/savings/route.ts:33-39 | An absent or null description is stored as null, a value as itself |
| Ledger.AggregateSum | src/app/api/admin/withdrawals/route.ts:28-35 | `_sum.amount` is null when no row matches, otherwise the sum of the matching rows' amounts |
| Ledger.OrZero | src/app/api/admin/withdrawals/route.ts:36-37 | A null sum counts as 0 |
| Ledger.AvailableIsNet | src/app/api/admin/withdrawals/route.ts:36-38 | Available is the user's savings total less their withdrawals total |
| Ledger.SavingRaisesAvailable | src/app/api/admin/savings/route.ts:33-39 | A new saving of amount a raises its owner's available by a and leaves every other user's unchanged |
| Ledger.WithdrawalLowersAvailable | src/app/api/admin/withdrawals/route.ts:45-51 | A new withdrawal of amount a lowers its owner's available by a and leaves every other user's unchanged |
| Ledger.AcceptedWithdrawalKeepsBalance | src/app/api/admin/withdrawals/route.ts:38-51 | An accepted withdrawal leaves available at least 0, and at exactly 0 when the amount equals the balance |
| Ledger.NegativeWithdrawalRaisesBalance | src/app/api/admin/withdrawals/route.ts:21-44 | A negative amount passes both guards and raises the available balance |
| Ledger.DeletingSavingsKeepsOthers | src/app/api/admin/users/route.ts:160-163 | Deleting one user's savings leaves every other user's available balance unchanged |
| CheckUser.Decide | src/app/api/auth/callback/check-user/route.ts:6-40 | Login without a session id, without a row, or on a thrown lookup. Dashboard exactly when phone, goal or frequency is truthy, and profile completion otherwise |
| CheckUser.DecideTargets | src/app/api/auth/callback/check-user/route.ts:10-39 | The redirect path is always /login, /dashboard or /signup/complete |
| CheckUser.FindByIdUnique | src/app/api/auth/callback/check-user/route.ts:15-23 | With unique ids, the row found for an id is the one row that carries it |
| CheckUser.CompletedProfileGoesToDashboard | src/app/api/auth/callback/check-user/route.ts:30-32 | A row with a non-empty phone is sent to the dashboard |
| CheckUser.ZeroGoalIsIncomplete | src/app/api/auth/callback/check-user/route.ts:30-35 | Goal 0 with no phone or frequency is sent to profile completion |
| AuthCallbacks.Redirect | src/lib/auth.ts:21-30 | The check-user path and urls under baseUrl come back unchanged. Any other "/" path gets baseUrl prefixed, and anything else becomes baseUrl |
| AuthCallbacks.RedirectStaysOnSite | src/lib/auth.ts:27-29 | The result is the url itself or starts with baseUrl |
| AuthCallbacks.RedirectIdempotent | src/lib/auth.ts:21-30 | Redirecting a redirected url changes nothing |
| AuthCallbacks.SessionCallback | src/lib/auth.ts:14-20 | When the session has a user object, its id and role are set from the adapter user. Otherwise the session is returned untouched |
| NavMain.TabText | src/components/admin/nav-main.tsx:33-40 | The text interpolated after "tab=": the tab itself, or "null" when there is none |
| NavMain.DefaultOpen | src/components/admin/nav-main.tsx:44-45 | An item with sub-items gets a default-open flag, and that flag is set exactly when the item is current |
| NavMain.MatchingTabIsCurrent | src/components/admin/nav-main.tsx:40 | An item whose url contains "tab=" followed by the current tab is current |
| NavMain.DashboardCurrentWithoutTab | src/components/admin/nav-main.tsx:40 | Without a tab, an item titled Dashboard is current |
| NavMain.NoTabMeansLiteralNull | src/components/admin/nav-main.tsx:33-40 | Without a tab, any other item is current only if its url contains "tab=null" |
| NavMain.SidebarItems | src/components/admin/app-sidebar.tsx:26-43 | The sidebar's three items in order, each linking to "/dashboard" with no sub-items and none titled "Dashboard" |
| NavMain.DashboardLinkNeverCurrent | src/components/admin/nav-main.tsx:40 | An item that links to the bare "/dashboard" url and is not titled Dashboard is never current, whatever the tab |
| NavMain.SidebarNeverCurrent | src/components/admin/nav-main.tsx:40 | No sidebar item is ever current, whatever the tab |
| AnalyticsRoute.CreatedSince | src/app/api/admin/analytics/route.ts:35-44 | Exactly the savings created at or after the instant |
| AnalyticsRoute.Accumulate | src/app/api/admin/analytics/route.ts:66-78 | The in-place reduce builds the same buckets as its functional specification |
| AnalyticsRoute.AccumulateExisting | src/app/api/admin/analytics/route.ts:75-76 | A row whose month already has a bucket adds its sum and count to that bucket only, and the buckets stay the month totals of the rows seen so far |
| AnalyticsRoute.AccumulateNew | src/app/api/admin/analytics/route.ts:68-76 | A row in a month without a bucket gets a fresh zero bucket, appended to the creation order, and the buckets stay the month totals of the rows seen so far |
| AnalyticsRoute.AddRow | src/app/api/admin/analytics/route.ts:66-78 | The reduce callback keeps one bucket per month seen, holding that month's sum and count |
| AnalyticsRoute.GroupByMonth | src/app/api/admin/analytics/route.ts:66-80 | One bucket per distinct month, sorted ascending by month key |
| AnalyticsRoute.ValuesMonths | src/app/api/admin/analytics/route.ts:80 | The months of `Object.values(acc)` are the keys in the order their buckets were created |
| AnalyticsRoute.ValuesTotals | src/app/api/admin/analytics/route.ts:75-76 | Each bucket holds its month's sum and count |
| AnalyticsRoute.ValuesMonthSet | src/app/api/admin/analytics/route.ts:66-80 | The buckets' months are exactly the months of the rows |
| AnalyticsRoute.ValuesSum | src/app/api/admin/analytics/route.ts:66-80 | The buckets add up to the total of the rows |
| AnalyticsRoute.ValuesDistinct | src/app/api/admin/analytics/route.ts:66-80 | No two buckets share a month |
| AnalyticsRoute.ValuesHoldTotals | src/app/api/admin/analytics/route.ts:75-76 | Each bucket's total is the sum of its rows' sums (null as 0) and its count is the sum of their counts |
| AnalyticsRoute.OrderedBuckets | src/app/api/admin/analytics/route.ts:80 | The month keys strictly increase along the output |
| AnalyticsRoute.Analytics | src/app/api/admin/analytics/route.ts:6-95 | 401/403 gates, with a report exactly when the gate passes. The report holds the user count, the savings total, the total since the recent instant and the average per user. Its months strictly increase, with one bucket for each month that has grouped rows. Each bucket holds its month's sum and count, and the buckets add up to the grouped sums |
| AnalyticsRoute.NoSavingsTotalZero | src/app/api/admin/analytics/route.ts:86-87 | With no savings the reported totals are 0 |
| Monthly.BucketsAddUp | src/app/api/admin/analytics/route.ts:66-78 | The bucket totals add up to the total of all rows |
| Monthly.BucketsAreTotalsOver | src/components/dashboard/admin-dashboard.tsx:87-99 | Buckets that each hold their month's total add up to those month totals summed over the bucket months |
| Stats.Average | src/app/api/admin/analytics/route.ts:82 | total / count when count > 0, else 0 |
| Stats.Progress | src/components/dashboard/user-dashboard.tsx:47 | total / goal × 100 for a truthy goal, else 0, not capped |
| Stats.CappedProgress | src/components/admin/admin-users.tsx:201-203 | The progress capped at 100, and 0 without a truthy goal |
| Stats.CappedProgressBounds | src/components/admin/admin-users.tsx:202 | Capped progress is at most 100, and at least 0 for a non-negative total and goal |
| Stats.CappedProgressFull | src/components/admin/admin-reports.tsx:217-219 | With a positive goal, the capped progress is exactly 100 if and only if the total reaches the goal |
| Stats.Round | src/components/dashboard/admin-dashboard.tsx:237 | `Math.round`: the nearest integer, with halves rounded up |
| Stats.ActiveRate | src/components/dashboard/admin-dashboard.tsx:237 | The percentage of active users rounded to the nearest whole number (halves up), and 0 with no users |
| Stats.ActiveRateBounds | src/components/dashboard/admin-dashboard.tsx:237 | The active rate lies between 0 and 100 |
| UserDashboard.TotalSaved | src/components/dashboard/user-dashboard.tsx:43-46 | The sum of all amounts, and 0 without savings |
| UserDashboard.SumOfNonNegativeEntries | src/components/dashboard/user-dashboard.tsx:43-46 | Non-negative amounts give a non-negative total |
| UserDashboard.GoalProgress | src/components/dashboard/user-dashboard.tsx:47 | The uncapped progress towards the user's goal |
| UserDashboard.ProgressNotCapped | src/components/dashboard/user-dashboard.tsx:47 | A total above a positive goal shows more than 100 |
| UserDashboard.AverageDeposit | src/components/dashboard/user-dashboard.tsx:140-145 | The total over the number of savings, times the count giving back the total |
| UserDashboard.ChartData | src/components/dashboard/user-dashboard.tsx:50-64 | One point per saving, taken oldest first. The first total is the first amount, each later total adds its amount, and the last total is the user's total |
| UserDashboard.RunningTotalStep | src/components/dashboard/user-dashboard.tsx:53-56 | The running total after one more saving is the previous running total plus that saving's amount |
| UserDashboard.RunningTotalFacts | src/components/dashboard/user-dashboard.tsx:50-64 | Points that carry the running totals of the reversed savings start at the first amount, grow by each amount, and end at the user's total |
| UserDashboard.Reverse | src/components/dashboard/user-dashboard.tsx:50-52 | The reversed copy has the same length |
| UserDashboard.ReverseIndex | src/components/dashboard/user-dashboard.tsx:50-52 | Element k of the reversed copy is element k counted from the other end |
| UserDashboard.ReverseSameElements | src/components/dashboard/user-dashboard.tsx:50-52 | Reversing keeps the same multiset of savings |
| AdminDashboard.FilteredUsers | src/components/dashboard/admin-dashboard.tsx:63-67 | A user is kept exactly when the lowered name or email contains the lowered search, and order is preserved |
| AdminDashboard.AnonymousNeverListed | src/components/dashboard/admin-dashboard.tsx:63-67 | A user with neither name nor email is never listed |
| AdminDashboard.EmptySearchListsNamed | src/components/dashboard/admin-dashboard.tsx:63-67 | An empty search lists exactly the users with a name or an email |
| AdminDashboard.SearchIgnoresCase | src/components/dashboard/admin-dashboard.tsx:65-66 | Searches differing only in case list the same users |
| AdminDashboard.FilterSameTest | src/components/dashboard/admin-dashboard.tsx:65-66 | Two searches with the same lowered text keep the same users |
| AdminDashboard.LowerIdempotent | src/components/dashboard/admin-dashboard.tsx:65-66 | Lowering twice is lowering once |
| AdminDashboard.AverageSavings | src/components/dashboard/admin-dashboard.tsx:75 | The grand total over the number of users, 0 with none |
| AdminDashboard.ActiveUsers | src/components/dashboard/admin-dashboard.tsx:76 | The count of users with at least one saving: never above the number of users, and equal to it exactly when every user has a saving |
| AdminDashboard.ActiveRateIsPercentage | src/components/dashboard/admin-dashboard.tsx:237 | The dashboard's active rate lies between 0 and 100 |
| AdminDashboard.ChartRows | src/components/dashboard/admin-dashboard.tsx:79-83 | One row per user with that user's total |
| AdminDashboard.ChartDataRanks | src/components/dashboard/admin-dashboard.tsx:79-85 | min(10, users) rows in non-increasing order of total, and no row left out has a larger total |
| AdminDashboard.ChartRowsFromUsers | src/components/dashboard/admin-dashboard.tsx:79-83 | Each chart row is the row of one user, with that user's sum |
| AdminDashboard.FindMonth | src/components/dashboard/admin-dashboard.tsx:91 | The index of a bucket with the month, or none when no bucket has it |
| AdminDashboard.BucketAdd | src/components/dashboard/admin-dashboard.tsx:91-93 | Adding a saving's amount to the existing bucket of its month keeps the buckets equal to the month totals of the savings seen so far |
| AdminDashboard.BucketPush | src/components/dashboard/admin-dashboard.tsx:94-96 | Pushing a new bucket for a saving whose month has none keeps the buckets equal to the month totals of the savings seen so far |
| AdminDashboard.AddSaving | src/components/dashboard/admin-dashboard.tsx:89-96 | The forEach callback keeps one bucket per month seen, each holding the total of that month's savings so far |
| AdminDashboard.AddSavings | src/components/dashboard/admin-dashboard.tsx:88-98 | After one user's savings, the buckets hold the month totals of everything seen so far |
| AdminDashboard.MonthlyData | src/components/dashboard/admin-dashboard.tsx:87-100 | The in-place reduce gives one bucket per distinct month, in increasing month order, each holding its month's total, and the buckets add up to the grand total |
| AdminDashboard.MonthlyFacts | src/components/dashboard/admin-dashboard.tsx:87-100 | Buckets that hold the month totals of a list of savings are one per distinct month, and they add up to the list's total |
| AdminDashboard.MonthlyOrdered | src/components/dashboard/admin-dashboard.tsx:100 | After the sort the bucket months strictly increase |
| AdminDashboard.MonthlyBuckets | src/components/dashboard/admin-dashboard.tsx:87-99 | Every bucket holds its month's total, and the bucket months are exactly the months of the savings |
| AdminDashboard.MonthlySum | src/components/dashboard/admin-dashboard.tsx:87-99 | The buckets add up to the total of all savings |
| LegacyAdminDashboard.SummaryRows | components/dashboard/admin-dashboard.tsx:220-231 | One row per user with that user's total and number of savings |
| LegacyAdminDashboard.SummaryRowsAddUp | components/dashboard/admin-dashboard.tsx:43-47 | The rows' totals add up to the dashboard's total |
| LegacyAdminDashboard.TagAll | components/dashboard/admin-dashboard.tsx:259 | Each saving of a user is tagged with that user |
| LegacyAdminDashboard.FlatTagged | components/dashboard/admin-dashboard.tsx:259 | Every pair in the flattened list is a saving of its owner, one of the users, and the list is as long as all savings together |
| LegacyAdminDashboard.FlatTaggedMembers | components/dashboard/admin-dashboard.tsx:259 | A (saving, owner) pair is in the flattened list exactly when the owner is one of the users and holds the saving: none is left out |
| LegacyAdminDashboard.RecentTransactionsRanks | components/dashboard/admin-dashboard.tsx:258-261 | At most ten, newest first, no entry of the flattened list left out is newer than one shown |
| LegacyAdminDashboard.RecentNoneNewerLeftOut | components/dashboard/admin-dashboard.tsx:258-261 | No saving of any user that is not shown is newer than a saving shown |
| LegacyAdminDashboard.RecentRowBelongsToOwner | components/dashboard/admin-dashboard.tsx:259 | Every recent row is a saving of its owner |
| LegacyAdminDashboard.AddSavingForm.HandleAddSaving | components/dashboard/admin-dashboard.tsx:49-87 | No request without a user or an amount. The description is trimmed, with empty sent as null. Success resets amount, description and user, and loading ends false |
| AdminWithdrawal.SelectedAvailable | src/components/admin/admin-withdrawal.tsx:125-126 | 0 when no user is selected |
| AdminWithdrawal.FormAgreesWithRoute | src/components/admin/admin-withdrawal.tsx:72-82 | With the user's savings and withdrawals loaded in any order (the GETs return them newest first), the form's balance is the route's available |
| AdminWithdrawal.WholeBalanceEnabled | src/components/admin/admin-withdrawal.tsx:214-219 | An amount equal to the balance leaves submit enabled |
| AdminWithdrawal.EnabledSubmitPassesRoute | src/components/admin/admin-withdrawal.tsx:214-219 | An enabled submit, with the user's savings and withdrawals loaded in any order, never meets the route's insufficient-funds refusal |
| AdminWithdrawal.Notice | src/components/admin/admin-withdrawal.tsx:99-119 | The toast text for each outcome: success, the server's error text when truthy or a fixed refusal text, or the retry text after a thrown request |
| AdminWithdrawal.WithdrawForm.HandleWithdraw | src/components/admin/admin-withdrawal.tsx:84-123 | No request without a user or an amount. The description is trimmed, with empty sent as null. Success clears amount and description and keeps the user, and loading ends false |
| Records.FindUser | src/components/admin/admin-withdrawal.tsx:125 | A user of the list with the id, or none exactly when no user has it |
| Records.FindUserFirst | src/components/admin/admin-withdrawal.tsx:125 | The user found is the one at the first index holding the id, as `find` returns |
| Records.TotalFlatten | src/components/dashboard/admin-dashboard.tsx:71-74 | The total of the flattened savings is the sum of the users' totals |
| Records.GrandTotal | src/components/dashboard/admin-dashboard.tsx:71-74 | The sum over users of their savings sums |
| Records.InFlatten | components/dashboard/admin-dashboard.tsx:259 | A saving is in the flattened list exactly when some user has it |
| Records.OwnedBy | src/app/api/admin/withdrawals/route.ts:28-35 | Exactly the rows of the user, in order |
| Records.NotOwnedBy | src/app/api/admin/users/route.ts:161-163 | Exactly the rows of other users, in order |
| Records.NotOwnedByKeepsOthers | src/app/api/admin/users/route.ts:160-163 | Removing a user's rows keeps every other user's rows as they were |
| Records.FindById | src/app/api/admin/withdrawals/route.ts:13-15 | The row with the id, or none exactly when none has it |
| Records.FindByEmail | src/app/api/admin/users/route.ts:52-54 | The row with the email, or none exactly when none has it |
| Records.IndexOfId | src/app/api/admin/users/route.ts:118-119 | The position of the row with the id, or none when none has it |
| Sorting.SortDesc | src/components/dashboard/admin-dashboard.tsx:84-85 | A permutation of the input, of the same length; each element is inserted after the earlier ones with an equal key, so the sort is stable |
| Sorting.SortDescOfSorted | src/components/dashboard/admin-dashboard.tsx:84-85 | Sorting a list already in order returns it unchanged, ties in their original order |
| Sorting.InsertSplit | src/components/dashboard/admin-dashboard.tsx:84-85 | An element goes after every element whose key is at least its own and before the first with a smaller key |
| Sorting.SortDescSorted | src/components/dashboard/admin-dashboard.tsx:84-85 | The result is in non-increasing order of the key |
| Sorting.SortDescDistinct | src/app/api/admin/analytics/route.ts:80 | Sorting keeps distinct keys distinct |
| Sorting.TopN | src/components/dashboard/admin-dashboard.tsx:84-85 | The first n of the sorted list |
| Sorting.TopNRanks | src/components/dashboard/admin-dashboard.tsx:84-85 | min(n, length) items, in non-increasing order of the key |
| Sorting.TopNOutranks | src/components/admin/admin-reports.tsx:214-215 | No item left out has a larger key than an item kept |
| Sorting.TopNFromInput | src/components/dashboard/admin-dashboard.tsx:79-85 | Every kept item comes from the input |
| Sorting.InsertInPlace | src/components/admin/admin-reports.tsx:286-291 | One insertion step by adjacent swaps: the array's first i + 1 elements become `Insert` of element i into the sorted prefix, and the rest is untouched |
| Sorting.InsertedAt | src/components/admin/admin-reports.tsx:286-291 | Where the swaps stop, the moved element sits where `Insert` places it in the sorted prefix |
| Sorting.SortInPlace | src/components/admin/admin-reports.tsx:286-291 | The array is reordered in place into exactly the stable sort `SortDesc` of its old contents: in non-increasing order, the same multiset, and unchanged when already in order |
| Text.Lower | src/components/dashboard/admin-dashboard.tsx:65-66 | Same length, each capital A to Z lowered and every other character kept |
| Text.ContainsItself | src/components/dashboard/admin-dashboard.tsx:65-66 | A text contains itself, so a user's own name always finds them |
| Text.NotContainsMissingChar | src/components/dashboard/admin-dashboard.tsx:65-66 | A search holding a character the text lacks does not match |
| Text.TrimStartDropsSpace | src/components/admin/admin-withdrawal.tsx:95 | Trimming the start leaves a suffix that does not start with white space, and only white space is dropped before it |
| Text.TrimEndDropsSpace | src/components/admin/admin-withdrawal.tsx:95 | Trimming the end leaves a prefix that does not end with white space, and only white space is dropped after it |
| Text.MiddleSlice | src/components/admin/admin-withdrawal.tsx:95 | A prefix of a suffix, both cut only at white space, is a middle slice with white space only around it |
| Text.TrimIsCore | src/components/admin/admin-withdrawal.tsx:95 | The trimmed text is a contiguous slice of the text with no white space at either end, and only white space is dropped around it |
| Text.TrimAllSpace | src/components/admin/admin-withdrawal.tsx:95 | A text of spaces only trims to the empty text |
| Text.TrimOrNull | src/components/admin/admin-withdrawal.tsx:95 | The trimmed text, or null when it is empty |
| AdminTables.NewestFirst | src/components/admin/admin-savings.tsx:151-157 | `allSavings` is reordered in place into the stable newest-first order, keeping its multiset. The rows shown are exactly `TopN` of the old array, and none left out is newer than one shown |
| AdminTables.WithTotals | src/components/admin/admin-overview.tsx:292-299 | Each user paired with the sum of their savings |
| AdminTables.TopByTotalRanks | src/components/admin/admin-overview.tsx:292-301 | min(n, users) rows, largest total first, each a user with their own total, and no user left out has saved more |
| AdminTables.NewerThan | src/components/admin/admin-overview.tsx:138-142 | Exactly the items created strictly after the cutoff |
| AdminTables.NewerThanKeepsAll | src/components/admin/admin-overview.tsx:138-142 | Nothing is dropped exactly when every item is newer than the cutoff |
| AdminTables.NewerThanShrinks | src/components/admin/admin-reports.tsx:359-363 | A later cutoff keeps no more items |
| AdminTables.EditDialog.OpenChange | src/components/admin/admin-savings.tsx:271-274 | The flag follows the dialog, and closing it forgets the item, so no row's dialog stays open |
| AdminTables.EditDialog.ClickEdit | src/components/admin/admin-users.tsx:266-281 | The item is stored and exactly that item's dialog is open |
| AdminUsers.RowOf | src/components/admin/admin-users.tsx:196-261 | The row's total and entries, the "No name"/"No phone" fallbacks, and "-" for a null goal, a falsy frequency and a falsy goal's progress. Progress is capped at 100 |
| AdminUsers.Rows | src/components/admin/admin-users.tsx:196 | One row per filtered user, in order |
| AdminUsers.RowProgressBounds | src/components/admin/admin-users.tsx:201-203 | With non-negative amounts and goal, progress lies between 0 and 100 |
| AdminUsers.ZeroGoalShownWithoutProgress | src/components/admin/admin-users.tsx:225-261 | A goal of 0 is shown, with no progress bar |
| AdminUsers.EditUser | src/components/admin/admin-users.tsx:266-281 | The whole user is stored, and only that row's dialog is open |
| AdminReports.TopUsers | src/components/admin/admin-reports.tsx:206-219 | One row per ranked user, with capped progress |
| AdminReports.TopUsersRanked | src/components/admin/admin-reports.tsx:206-219 | At most ten rows, largest total first, each one user's total, entries and capped progress ≤ 100 |
| AdminReports.RecentActivity | src/components/admin/admin-reports.tsx:286-292 | The array is sorted in place, newest first, and at most 25 are shown, none left out newer than one shown |
| AdminReports.LastThirtyDays | src/components/admin/admin-reports.tsx:359-363 | Exactly the savings created strictly after now − 30 days |
| AdminReports.ActivityOf | src/components/admin/admin-reports.tsx:358-368 | The user, with a count no larger than their number of savings |
| AdminReports.Activities | src/components/admin/admin-reports.tsx:357-369 | One activity row per user, in order |
| AdminReports.MostActiveRanks | src/components/admin/admin-reports.tsx:357-371 | At most ten, by count largest first, each a user's activity, and no user left out has a larger count |
| AdminReports.RecentWithinTotal | src/components/admin/admin-reports.tsx:359-367 | With non-negative amounts, the thirty-day sum is at most the user's total |
| AdminAnalytics.CardsShown | src/components/admin/admin-analytics.tsx:80-143 | The route's figure is shown unless it is missing or 0. Otherwise the local figure is shown, and 0 for recent savings |
| AdminAnalytics.CardsWithoutAnalytics | src/components/admin/admin-analytics.tsx:122 | Without the route's report every card is local, and recent savings show 0 |
| AdminAnalytics.CardsAgreeWithRoute | src/components/admin/admin-analytics.tsx:141-143 | A report of the same users and savings makes the fallbacks irrelevant |
| AdminAnalytics.TopPerformers | src/components/admin/admin-analytics.tsx:242-260 | One row per ranked user, with rank position + 1 |
| AdminAnalytics.TopPerformersRanked | src/components/admin/admin-analytics.tsx:242-260 | At most ten, ranks 1, 2, … with larger totals first, each one user's total with capped progress ≤ 100 |
| AdminOverview.SavingsSince | src/components/admin/admin-overview.tsx:138-142 | Exactly the savings created strictly after now − days |
| AdminOverview.OverviewCards | src/components/admin/admin-overview.tsx:119-142 | The average per user, 0 with none. The 7-day count is at most the number of savings, and equal exactly when all are that recent |
| AdminOverview.WeekWithinMonth | src/components/admin/admin-overview.tsx:138-142 | The 7-day count never exceeds the 30-day count |
| AdminOverview.TopSavers | src/components/admin/admin-overview.tsx:292-329 | One row per ranked user, with rank position + 1 |
| AdminOverview.TopSaversRanked | src/components/admin/admin-overview.tsx:292-329 | At most five, ranked from 1, largest total first, each with one user's total and entry count, and no user left out has saved more |
| AdminSavings.RecentAndTable | src/components/admin/admin-savings.tsx:151-225 | Two in-place newest-first sorts: 5 recent and 50 in the table. The recent list is the head of the table, and none left out is newer |
| AdminSavings.Capture | src/components/admin/admin-savings.tsx:280-287 | Exactly the row's id, owner id, amount and description |
| AdminSavings.EditSaving | src/components/admin/admin-savings.tsx:266-287 | The captured row is stored and only its dialog is open |
| AdminSavings.CloseEditor | src/components/admin/admin-savings.tsx:345-348 | The dialog closes and the saving being edited is forgotten |

## Left out

- Concurrency: each route handler runs atomically. The race between the withdrawal route's two aggregate reads and its insert is not modelled.
- The withdrawal form's `useEffect` fetches, which can leave withdrawals of a previously selected user loaded: the loaded withdrawals are an input of the form.
- The form's refresh of the withdrawal history after a success, and the history's 20- and 50-row display slices: these are rendering and fetch glue.
- Floating point: amounts are exact reals. NaN, rounding errors and the differences between `Number` and `parseFloat` are not modelled; parsing is an abstract function.
- Dates: `new Date`, `toISOString().slice(0, 7)` and locale date formatting are an abstract month-key function of the timestamp; `toLocaleString` and `toFixed` number formatting are not modelled.
- `Date.now()` is a parameter (`now`) of every "last N days" figure.
- Rendering: JSX layout, charts, toasts, `window.location.reload` and `history.replaceState`.
- The users GET handler and the `savings/[id]` route: they are not among the operations modelled.
- The analytics route's `groupBy` query is an input (rows of month, sum and count), not a database computation.
- The database schema is not part of this model: the foreign keys, the unique email and the `Restrict` rule for withdrawals are assumptions, stated above.
- Client and server disagree on the wire in two places, which belong to the fetch layer: `handleEditUser` sends `id` where PUT reads `userId`, and `handleDeleteUser` sends a body where DELETE reads a query parameter.
- Text.Lower: lowers only the ASCII letters A to Z, not all of Unicode as `toLowerCase` does.
- Text.Trim: removes the ASCII white space, the no-break space and the byte-order mark, but not the other Unicode space and line separators that JavaScript's `trim` also removes.
- Row ids are natural numbers handed out by a counter; database-generated string ids, including an empty one, are not modelled.
- The user dashboard's and the admin dashboard's other handlers (adding, editing and deleting users from the client) are fetch glue over the routes above.
- The edit dialogs' input fields, which rewrite the item being edited keystroke by keystroke (the amount as text), are not modelled; only which dialog is open and what the edit button stores.
- The marketing pages, the signup pages, the dashboard page's role dispatch and the layout components (team switcher, projects list, sidebar beyond its item list).
