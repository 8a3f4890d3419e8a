# SplitEase ledger core in Dafny

SplitEase splits group expenses. Its Express back end keeps three
collections:
- users, each with a wallet balance;
- groups, each with a list of member ids;
- expenses, the ledger entries of every group. A wallet payment is itself recorded as an entry of kind `payment`.

This project models the routes that read and change that ledger and proves what they promise:

- **`GET /groups/:id`, the group detail view.** It builds the balance map (every member at 0, payers credited, split users debited). It then reports the total spent, the entry count, the requester's signed balance, and the pairwise "who owes whom" summary. Unknown groups answer 404 and non-members 403.
- **`GET /groups`, the list view.** For each of the requester's groups it gives the member count, the last activity, and the requester's position split into `youAreOwed` and `youOwe`. Only the first split naming the requester counts in each entry.
- **`POST /groups` and `DELETE /groups/:id`.** Creation normalises the member emails, resolves them to users and pushes the creator onto the member ids. Deletion checks membership, then removes the group's expenses and then the group.
- **`GET /summary`, the dashboard.** One running net over every entry of every group the requester is in, counting every split naming the requester.
- **`POST /expenses` and `GET /expenses/:groupId`.** The check cascade, the split-sum tolerance of one cent, the one stored record, and the newest-first listing.
- **`POST /wallet/add` and `POST /wallet/pay`.** The credit, the pay guards, the debit, and the `payment` entry with its single split to the payee. The payee's wallet is not credited.
- **The helpers and parts of `auth.routes.js` listed here.** The `isValidEmail` and `isValidPassword` helpers. The Bearer check of the file's own `auth` middleware. The order of the login checks. The signup duplicate check and the defaults signup fills in.
- **The Mongoose schemas.** Those of `models/expense.js`, `models/User.js` and `models/group.js`, used as the validation a save applies.

Amounts are integer cents; the 0.01 tolerance is one cent. Ids are strings, and a
missing or falsy id is `""`. Every state-changing route is written twice:
- a function from a `Ledger` snapshot to a `Step` (the store afterwards plus the response), which carries the contract;
- a method of the class `Database.Store`, which holds the three collections as fields and performs the same step in place. Each method is proved to end in exactly that function's state and response, and to keep the store invariant `LedgerValid`: unique ids and emails, and every document valid against its schema.

The loops of the source are methods, each proved equal to a recursive specification function:
- the two balance loops (`Balances.ComputeBalances`);
- the double loop of the summary (`Settlement.BalanceSummary`);
- the bucketing and per-group loops of the list view (`GroupViews.BucketEntries`, `GroupViews.ListGroups`, `GroupViews.Position`);
- the dashboard loop (`Dashboard.DashboardTotals`).

Three behaviours of the code are easy to miss, and the model keeps them:
- **Detail view:** its `youAreOwed` is the requester's signed balance (`routes/group.routes.js:172`). The list view (`routes/group.routes.js:62-64`) and the dashboard (`routes/summary.routes.js:26-27`) clamp the net into `youAreOwed` and `youOwe` instead.
- **List view:** it counts only the first split naming the requester in each entry (`routes/group.routes.js:55`).
- **Payments:** a wallet payment stores one explicit split, to the payee for the whole amount (`routes/wallet.routes.js:62`). Any other entry may have no splits at all.

Every length limit of the schemas (`maxlength`, `minlength`) and of `isValidPassword` counts UTF-16 code units, as JavaScript's `.length` does: a character outside the Basic Multilingual Plane counts twice (`Model.Utf16Length`).

The modules are:

| file | module | contents |
|---|---|---|
| `wrappers.dfy` | `Wrappers` | `Option`, `Result`, `Error` and the HTTP status of each error |
| `seqs.dfy` | `Seqs` | generic filters, sums, searches and counting lemmas |
| `text.dfy` | `Text` | `trim`, `toLowerCase` and the whitespace class `\s` |
| `model.dfy` | `Model` | the records, the schemas, lookups and sums over entries |
| `balances.dfy` | `Balances` | the balance map of the detail view |
| `settlement.dfy` | `Settlement` | the balance summary |
| `groups.dfy` | `GroupViews` | the group routes |
| `expenses.dfy` | `Expenses` | the expense routes |
| `dashboard.dfy` | `Dashboard` | the summary route |
| `wallet.dfy` | `Wallet` | the wallet routes |
| `auth.dfy` | `Auth` | the auth routes |
| `store.dfy` | `Database` | the store class |

## Model

| member | source | states |
|---|---|---|
| Wrappers.Status | SplitEase/backend/routes/expense.routes.js:10-42 | every failure answers 400, 401, 403, 404 or 500, and 500 exactly for the caught exception |
| Text.TrimStart | SplitEase/backend/models/expense.js:10 | the result is a suffix of the input that does not start with whitespace, and everything removed is whitespace |
| Text.TrimEnd | SplitEase/backend/models/expense.js:10 | the result is a prefix of the input that does not end with whitespace, and everything removed is whitespace |
| Text.Trim | SplitEase/backend/routes/group.routes.js:81 | trim() gives a string no longer than its input with no whitespace at either end |
| Text.TrimSlice | SplitEase/backend/routes/group.routes.js:81 | what trim() keeps is one contiguous slice of the input, and everything dropped before and after it is whitespace |
| Text.TrimStartEmpty | SplitEase/backend/routes/group.routes.js:81-82 | stripping leading whitespace leaves nothing exactly when the string is all whitespace |
| Text.TrimEndEmpty | SplitEase/backend/routes/group.routes.js:81-82 | stripping trailing whitespace leaves nothing exactly when the string is all whitespace |
| Text.TrimIdentity | SplitEase/backend/models/expense.js:10 | a string is its own trim exactly when it has no whitespace at either end |
| Text.TrimIdempotent | SplitEase/backend/routes/expense.routes.js:33 | trimming again (the schema setter after the route's own trim) changes nothing |
| Text.TrimEmpty | SplitEase/backend/routes/group.routes.js:81-82 | a name is blank after trim exactly when it is all whitespace |
| Text.LowerCharSpace | SplitEase/backend/routes/auth.routes.js:53 | lower-casing a character does not change whether it is whitespace |
| Text.LowerKeepsTrimmed | SplitEase/backend/routes/auth.routes.js:53 | lower-casing a trimmed string leaves it trimmed |
| Text.ToLower | SplitEase/backend/routes/auth.routes.js:53 | same length, no upper-case letter left, each upper-case letter moved to its lower-case code and every other character kept |
| Text.ToLowerIdempotent | SplitEase/backend/models/User.js:11 | lower-casing twice is lower-casing once |
| Text.NormaliseEmail | SplitEase/backend/routes/auth.routes.js:53 | trim then toLowerCase: as long as the trimmed email, each character the lower-casing of the trimmed email's character at that place, and in normal form (trimmed, no upper-case letter) |
| Model.Utf16LengthBounds | SplitEase/backend/models/expense.js:10 | the length Mongoose compares is between the number of characters and twice it |
| Model.Utf16LengthBmp | SplitEase/backend/models/expense.js:10 | that length equals the number of characters exactly when every character lies in the Basic Multilingual Plane |
| Model.Utf16Astral | SplitEase/backend/models/expense.js:10 | one character outside the Basic Multilingual Plane is one Dafny character but two UTF-16 code units |
| Text.NormaliseEmailFixes | SplitEase/backend/models/User.js:11 | exactly the trimmed lower-case emails are left unchanged by normalising |
| Text.NormaliseEmailEmpty | SplitEase/backend/routes/auth.routes.js:53-56 | an email normalises to "" (so login says "Missing fields") exactly when it is all whitespace |
| Text.NormaliseEmailIdempotent | SplitEase/backend/routes/group.routes.js:87 | normalising an already normalised email changes nothing |
| Model.ParseCategory | SplitEase/backend/models/group.js:5 | the group type is accepted exactly when it is one of trip, home, couple, other |
| Model.SaveEntry | SplitEase/backend/models/expense.js:8-16 | Expense.create stores the document with its description trimmed, exactly when that trimmed document meets the schema (the 200 limit counted in UTF-16 code units), and what it stores meets the schema |
| Model.FindGroup | SplitEase/backend/routes/group.routes.js:122-128 | findById returns a stored group with that id, and nothing exactly when no group has it |
| Model.FindUser | SplitEase/backend/routes/wallet.routes.js:46-49 | findById returns the position of a user with that id, and nothing exactly when no user has it |
| Model.FindUserByEmail | SplitEase/backend/routes/auth.routes.js:22-23 | findOne({ email }) returns the position of a user with that exact email, and nothing exactly when none has it |
| Model.FirstShare | SplitEase/backend/routes/group.routes.js:55 | splits.find gives the share of the earliest split naming the user, and nothing exactly when no split names the user |
| Model.AppendEntryValid | SplitEase/backend/routes/expense.routes.js:31-37 | appending an entry the schema accepts keeps the store invariant |
| Model.GroupEntriesAppend | SplitEase/backend/routes/expense.routes.js:49 | the entries of a group in a concatenation are those of each part, in order |
| Model.NewestFirst | SplitEase/backend/routes/expense.routes.js:49 | the sorted listing is a permutation of the group's entries and holds exactly the entries of that group |
| Model.NewestFirstSorted | SplitEase/backend/routes/expense.routes.js:49 | with entries stored in creation order the listing is ordered newest first |
| Model.PositionOf | SplitEase/backend/routes/group.routes.js:62-64 | youAreOwed and youOwe are both at least 0, at most one is nonzero, and owed minus owe is the net |
| Model.PaidAppend | SplitEase/backend/routes/summary.routes.js:18-20 | what a user paid over two runs of entries is the sum of both |
| Model.OwedAppend | SplitEase/backend/routes/summary.routes.js:21-23 | what a user owes over two runs of entries is the sum of both |
| Model.FirstOwedIsOwed | SplitEase/backend/routes/group.routes.js:54-58 | when no entry names the user in two splits, counting only the first split naming the user equals counting all of them |
| Model.FirstShareIsShare | SplitEase/backend/routes/group.routes.js:55 | for one entry naming the user at most once, the first split's share is the user's whole share |
| Model.ShareOfNone | SplitEase/backend/routes/group.routes.js:163-166 | splits that never name the user owe the user nothing |
| Model.FirstShareOfExtended | SplitEase/backend/routes/group.routes.js:55 | a split naming someone else added at the end does not change the first share of the user |
| Balances.Zeroed | SplitEase/backend/routes/group.routes.js:149-152 | after initialisation the map holds exactly the members, each at 0 |
| Balances.InvolvedMeans | SplitEase/backend/routes/group.routes.js:155-166 | an id is involved exactly when some entry names it as payer or split user |
| Balances.ComputeBalances | SplitEase/backend/routes/group.routes.js:147-168 | the nested forEach loops build the balance map BalancesOf of the members and entries |
| Balances.ApplySplitsGet | SplitEase/backend/routes/group.routes.js:163-166 | debiting the splits lowers a user's balance by that user's total share |
| Balances.ApplyEntriesGet | SplitEase/backend/routes/group.routes.js:155-168 | applying entries raises a user's balance by what the user paid and lowers it by every share the user owes |
| Balances.ApplySplitsKeys | SplitEase/backend/routes/group.routes.js:165 | debiting the splits adds every split user as a key, a new one starting from 0 |
| Balances.ApplyEntriesKeys | SplitEase/backend/routes/group.routes.js:155-168 | applying entries adds exactly the ids they name as keys |
| Balances.BalanceIsNet | SplitEase/backend/routes/group.routes.js:155-168 | every balance is what that id paid minus every share it owes |
| Balances.BalanceKeys | SplitEase/backend/routes/group.routes.js:150-166 | the map's keys are exactly the members and the ids the entries name, non-members included |
| Balances.PaidByOthers | SplitEase/backend/routes/group.routes.js:159 | a user who paid none of the entries has paid 0 |
| Balances.OwedByOthers | SplitEase/backend/routes/group.routes.js:165 | a user named in no split owes 0 |
| Balances.IdleMemberIsZero | SplitEase/backend/routes/group.routes.js:150-152 | a member no entry names still appears in the map, with balance 0 |
| Balances.InvolvedIncluded | SplitEase/backend/routes/group.routes.js:155-168 | reordering the entries keeps every involved id involved |
| Balances.InvolvedSubset | SplitEase/backend/routes/group.routes.js:155-168 | the involved ids of a reordering include those of the original |
| Balances.NetPermutation | SplitEase/backend/routes/group.routes.js:155-168 | what a user paid and owes does not depend on the order of the entries |
| Balances.BalancesPermutation | SplitEase/backend/routes/group.routes.js:155-168 | the balance map does not depend on the order of the entries |
| Balances.AdjustSum | SplitEase/backend/routes/group.routes.js:159 | moving one id's balance by delta moves the sum over distinct ids by delta exactly when the id is among them |
| Balances.ApplySplitsSum | SplitEase/backend/routes/group.routes.js:163-166 | debiting the splits lowers the total of the balances by the sum of the shares |
| Balances.ApplyEntriesSum | SplitEase/backend/routes/group.routes.js:155-168 | applying the entries moves the total of the balances by the sum of amount minus shares |
| Balances.SumOverZero | SplitEase/backend/routes/group.routes.js:150-152 | the initial balances add up to 0 |
| Balances.Conservation | SplitEase/backend/routes/group.routes.js:155-168 | the balances of all ids in the map add up to the sum over the entries of amount minus shares |
| Balances.ImbalanceOfExactSplits | SplitEase/backend/routes/group.routes.js:155-168 | entries whose shares add up to their amounts have no imbalance |
| Balances.ConservationExact | SplitEase/backend/routes/group.routes.js:155-168 | when every entry's shares add up to its amount the balances add up to 0 |
| Balances.ImbalanceWithinTolerance | SplitEase/backend/routes/expense.routes.js:27 | entries each within one cent of balanced are off by at most one cent per entry in total |
| Balances.PaymentMovesBalance | SplitEase/backend/routes/wallet.routes.js:56-63 | a payment entry raises the payer's balance by the amount, lowers the payee's by the amount and leaves every other balance alone |
| Settlement.BalanceSummary | SplitEase/backend/routes/group.routes.js:175-199 | the double for loop pushes exactly Summary of the members and balances |
| Settlement.SuggestionAt | SplitEase/backend/routes/group.routes.js:185-197 | for a pair with strictly opposite signs the line names the two members, the negative one owes the positive one, and the amount is positive, at most both magnitudes and equal to the smaller |
| Settlement.DescribesAppend | SplitEase/backend/routes/group.routes.js:178-199 | lines describing two runs of pairs, concatenated, describe the concatenated pairs |
| Settlement.PairDescribed | SplitEase/backend/routes/group.routes.js:185-197 | one pair pushes its line when the signs are strictly opposite and nothing otherwise |
| Settlement.RowDescribed | SplitEase/backend/routes/group.routes.js:179-198 | the inner loop pushes one line per emitting pair of its row, in order |
| Settlement.BelowDescribed | SplitEase/backend/routes/group.routes.js:178-199 | the rows so far push one line per emitting pair, in order |
| Settlement.SummaryEntries | SplitEase/backend/routes/group.routes.js:178-199 | the summary holds one line per pair i < j with strictly opposite signs, in visiting order, and nothing else |
| Settlement.RowComplete | SplitEase/backend/routes/group.routes.js:179-198 | every emitting pair of a row is visited by its inner loop |
| Settlement.BelowComplete | SplitEase/backend/routes/group.routes.js:178-199 | every emitting pair of an earlier row is among the pairs emitted so far |
| Settlement.SummaryComplete | SplitEase/backend/routes/group.routes.js:178-199 | every pair i < j with strictly opposite signs gets its line |
| Settlement.IncreasingAppend | SplitEase/backend/routes/group.routes.js:178-179 | two increasing runs of pairs, the first all below the second, make an increasing run |
| Settlement.RowOrdered | SplitEase/backend/routes/group.routes.js:179 | the pairs of row i all start at i, stay below j and increase |
| Settlement.BelowOrdered | SplitEase/backend/routes/group.routes.js:178-179 | the pairs of the first i rows start below i and increase |
| Settlement.SummaryOrdered | SplitEase/backend/routes/group.routes.js:178-199 | the lines follow the lexicographic order of (i, j), so no pair is reported twice |
| Settlement.RowCount | SplitEase/backend/routes/group.routes.js:179 | row i emits at most j - i - 1 lines |
| Settlement.PairCountClosed | SplitEase/backend/routes/group.routes.js:178-179 | the first i rows of n members hold i(2n - i - 1)/2 pairs |
| Settlement.BelowCount | SplitEase/backend/routes/group.routes.js:178-199 | the first i rows emit at most as many lines as they have pairs |
| Settlement.SummaryBound | SplitEase/backend/routes/group.routes.js:178-199 | at most n(n-1)/2 lines for n members |
| Settlement.ThreeMembersExample | SplitEase/backend/routes/group.routes.js:185-190 | balances +30, -10, -20 give "B owes A 10" and "C owes A 20", in that order |
| GroupViews.Populate | SplitEase/backend/routes/group.routes.js:123 | populate keeps exactly the member ids whose user exists |
| GroupViews.GroupDetail | SplitEase/backend/routes/group.routes.js:120-206 | 404 for an unknown group, 403 for a requester not among the populated members, 500 for an entry whose payer is gone; otherwise the entries newest first, their total and count, the balance map, the requester's signed balance (paid minus every share owed) and the summary |
| GroupViews.DetailIgnoresOrder | SplitEase/backend/routes/group.routes.js:137-168 | sorting newest first changes neither the balances nor the total |
| GroupViews.MyGroups | SplitEase/backend/routes/group.routes.js:11-13 | the list holds exactly the groups naming the requester |
| GroupViews.MyGroupsSorted | SplitEase/backend/routes/group.routes.js:11-13 | with groups stored in creation order the list is newest first |
| GroupViews.Latest | SplitEase/backend/routes/group.routes.js:22-27 | the last activity is the createdAt of one of the entries and no entry is later |
| GroupViews.ListingOf | SplitEase/backend/routes/group.routes.js:38-65 | memberCount is the number of members; lastActivity is the latest entry time or the group's createdAt when it has none; youAreOwed and youOwe are nonnegative, not both nonzero, and differ by what the requester paid minus the first share naming the requester in each entry |
| GroupViews.Position | SplitEase/backend/routes/group.routes.js:46-60 | the forEach loop totals what the requester paid and the first split naming the requester in each entry |
| GroupViews.BucketEntries | SplitEase/backend/routes/group.routes.js:31-36 | the bucket of every group id is that group's entries in store order, and [] for a group without entries |
| GroupViews.Listings | SplitEase/backend/routes/group.routes.js:38-65 | one listing per group, in the groups' order, each over that group's entries |
| GroupViews.ListGroups | SplitEase/backend/routes/group.routes.js:9-67 | the list view is the listing of each of the requester's groups, newest group first, over that group's entries |
| GroupViews.ListingsStep | SplitEase/backend/routes/group.routes.js:38-65 | one more group adds its listing at the end |
| GroupViews.ListingFor | SplitEase/backend/routes/group.routes.js:39-64 | the loop body fills in exactly the group's listing |
| GroupViews.ListingAgreesWithDetail | SplitEase/backend/routes/group.routes.js:46-62 | when no entry names the requester twice, the list view's net equals the detail view's youAreOwed |
| GroupViews.ListingCountsFirstSplitOnly | SplitEase/backend/routes/group.routes.js:55 | an entry of 10 paid by B with two splits of 5 to A gives A youOwe 5 in the list but a balance of -10 in the detail |
| GroupViews.NormalisedAreFixed | SplitEase/backend/routes/group.routes.js:87 | every normalised email is its own normal form |
| GroupViews.CleanEmails | SplitEase/backend/routes/group.routes.js:87 | the cleaned emails are no more than the raw ones |
| GroupViews.CleanEmailsMeans | SplitEase/backend/routes/group.routes.js:87 | an email is in the cleaned list exactly when it is non-empty and some raw element normalises to it, and each is in normal form |
| GroupViews.UsersWithEmails | SplitEase/backend/routes/group.routes.js:88 | the users found are exactly those whose email is listed |
| GroupViews.WithCreator | SplitEase/backend/routes/group.routes.js:94-98 | the creator is a member, pushed at the end exactly when missing, the original ids stay first, and no id is duplicated |
| GroupViews.CreateGroup | SplitEase/backend/routes/group.routes.js:78-117 | a blank name or members that is not a non-empty array is 400; fewer users than emails is 400; once both pass, 500 exactly when the type is outside the enum, the trimmed name is over 120 UTF-16 code units, the creator is missing or the id is taken; no other error occurs, so a request past all of these succeeds; any rejection leaves the store alone; success appends one group with the trimmed name, the type (default other), the creator, the fresh id, and as members the found users' ids in store order with the creator pushed on when missing |
| GroupViews.ResolveExact | SplitEase/backend/routes/group.routes.js:88-92 | with unique stored emails, the count check passes exactly when no email is listed twice and every listed email belongs to a user |
| GroupViews.MemberIdsMeans | SplitEase/backend/routes/group.routes.js:94-98 | an id is a member exactly when it is the creator's or that of a user with a listed email |
| GroupViews.CreateGroupMembers | SplitEase/backend/routes/group.routes.js:87-105 | a created group's members are the creator and the users whose email is among the cleaned emails |
| GroupViews.KeysUnique | SplitEase/backend/routes/group.routes.js:94 | users with unique ids give member ids without duplicates |
| GroupViews.CreateGroupValid | SplitEase/backend/routes/group.routes.js:100-105 | creating a group keeps the store invariant: fresh id, creator a member, no duplicate member |
| GroupViews.DeleteGroup | SplitEase/backend/routes/group.routes.js:210-234 | 404 for an unknown group, 403 for a non-member, otherwise success; success keeps the users and leaves the expenses and groups as the stored ones minus exactly the group's entries and the group, every other document kept in order and with its multiplicity; a rejection changes nothing |
| GroupViews.OtherGroupEntriesKept | SplitEase/backend/routes/group.routes.js:225 | deleting one group's entries leaves every other group's entries exactly as they were, in order and with duplicates |
| GroupViews.DeleteKeepsOtherGroups | SplitEase/backend/routes/group.routes.js:224-228 | after a successful delete the group has no entries left and every other group has exactly the entries it had, so its balances and detail view do not change |
| GroupViews.DeleteGroupValid | SplitEase/backend/routes/group.routes.js:225-228 | deleting a group keeps the store invariant |
| Dashboard.MemberGroups | SplitEase/backend/routes/summary.routes.js:9 | the groups found are exactly those naming the requester |
| Dashboard.EntriesIn | SplitEase/backend/routes/summary.routes.js:16 | the entries found are exactly those of the listed groups |
| Dashboard.DashboardTotals | SplitEase/backend/routes/summary.routes.js:7-33 | zeros for a requester in no group; otherwise totalGroups is the number of the requester's groups and youAreOwed/youOwe is the split of one net over all their entries, counting every split naming the requester |
| Dashboard.OtherGroupsIgnored | SplitEase/backend/routes/summary.routes.js:9-16 | entries of groups the requester is not in leave the summed entries unchanged |
| Dashboard.NetAppend | SplitEase/backend/routes/summary.routes.js:18-24 | the net over two runs of entries is the sum of both |
| Dashboard.EntriesInAppend | SplitEase/backend/routes/summary.routes.js:16 | selecting by group over a concatenation selects from each part |
| Dashboard.EntriesInOne | SplitEase/backend/routes/summary.routes.js:16 | one entry is selected exactly when its group is listed |
| Dashboard.GroupEntriesOne | SplitEase/backend/routes/group.routes.js:137 | one entry belongs to a group exactly when it names it |
| Dashboard.EntriesInStep | SplitEase/backend/routes/summary.routes.js:16-24 | one more entry adds its own net when its group is listed |
| Dashboard.GroupEntriesStep | SplitEase/backend/routes/group.routes.js:137-168 | one more entry adds its own net to its group's net |
| Dashboard.EntriesInSplit | SplitEase/backend/routes/summary.routes.js:16-24 | listing one more group adds that group's net |
| Dashboard.NetByGroups | SplitEase/backend/routes/summary.routes.js:16-24 | with distinct groups the cross-group net is the sum of the per-group nets |
| Dashboard.EntriesInNone | SplitEase/backend/routes/summary.routes.js:16 | entries of unlisted groups are all dropped |
| Dashboard.DashboardIsSumOfDetails | SplitEase/backend/routes/summary.routes.js:18-24 | the dashboard net is the sum over the requester's groups of the youAreOwed each detail view shows |
| Dashboard.DetailNetsAreGroupNets | SplitEase/backend/routes/group.routes.js:155-172 | the detail views' youAreOwed over several groups add up to the per-group nets |
| Dashboard.SingleEntryNet | SplitEase/backend/routes/summary.routes.js:20-23 | one entry's net is what the user paid of it minus the user's shares of it |
| Dashboard.ExampleShares | SplitEase/backend/routes/summary.routes.js:21-23 | the requester's shares in the two example entries are 15 and 5 |
| Dashboard.ExampleMemberGroups | SplitEase/backend/routes/summary.routes.js:9 | of the three example groups the requester is in the first two |
| Dashboard.ExampleMemberEntries | SplitEase/backend/routes/summary.routes.js:16 | the example's third-group entry is not counted |
| Dashboard.TwoGroupsExample | SplitEase/backend/routes/summary.routes.js:18-29 | +15 in one group and -5 in another give youAreOwed 10, youOwe 0 and two groups |
| Expenses.Abs | SplitEase/backend/routes/expense.routes.js:27 | Math.abs is nonnegative and equals the argument or its negation |
| Expenses.StoredSplits | SplitEase/backend/routes/expense.routes.js:36 | the stored splits keep the order, the user ids and the shares; a missing share makes the document unsaveable |
| Expenses.StoredSharesSum | SplitEase/backend/routes/expense.routes.js:26-36 | the stored shares add up to the sum the route checked |
| Expenses.AddExpense | SplitEase/backend/routes/expense.routes.js:7-43 | the checks in order: a falsy field or splits not an array (400), unknown group (404), requester not a member (403), payer not a member (400), shares off by more than one cent (400), then a refused document (500); no other error occurs, so a request past all of these succeeds; rejections leave the store alone; success appends exactly one expense-kind entry with the trimmed description, the amount, the payer and the splits in order |
| Expenses.AddedEntryBalanced | SplitEase/backend/routes/expense.routes.js:17-29 | an added entry is within one cent of balanced, and its payer and the requester are members of its group |
| Expenses.AddExpenseTolerated | SplitEase/backend/routes/expense.routes.js:26-29 | adding expenses keeps every stored entry within one cent of balanced |
| Expenses.ToleratedAppend | SplitEase/backend/routes/expense.routes.js:26-31 | appending an entry within the tolerance keeps the store within it |
| Expenses.TolerantDrift | SplitEase/backend/routes/expense.routes.js:27 | a group's balances add up to within one cent per entry of 0 |
| Expenses.AddExpenseValid | SplitEase/backend/routes/expense.routes.js:31-37 | adding an expense keeps the store invariant |
| Expenses.AddExpenseInGroup | SplitEase/backend/routes/expense.routes.js:31-37 | an added expense joins only its own group, at the end, and moves each balance there by what that id paid minus its shares |
| Expenses.AddExpenseChronological | SplitEase/backend/models/expense.js:14 | with a clock that does not run backwards the store stays in creation order |
| Expenses.AscendingAppend | SplitEase/backend/models/expense.js:14 | appending an entry no older than the rest keeps creation order |
| Expenses.ListExpenses | SplitEase/backend/routes/expense.routes.js:46-54 | the listing holds exactly the group's entries, as a permutation, newest first when stored in creation order |
| Wallet.CreditOwnWallet | SplitEase/backend/routes/wallet.routes.js:14-18 | $inc moves the user's own wallet by exactly the delta |
| Wallet.CreditOtherWallet | SplitEase/backend/routes/wallet.routes.js:52 | $inc on one user leaves every other user's wallet as it was |
| Wallet.FindIndexSameKeys | SplitEase/backend/routes/wallet.routes.js:52 | changing wallets does not move any user's position in a lookup by id |
| Wallet.AddFunds | SplitEase/backend/routes/wallet.routes.js:8-23 | a missing or nonpositive amount is 400 and changes nothing; an unknown user is 500 and changes nothing; no other error occurs, so otherwise the request succeeds: the wallet grows by the amount and the new balance is returned |
| Wallet.AddFundsWallets | SplitEase/backend/routes/wallet.routes.js:14-19 | the returned balance is the new wallet, the old one plus the amount; no other wallet, group or entry changes |
| Wallet.AddFundsValid | SplitEase/backend/routes/wallet.routes.js:14-18 | a credit keeps the store invariant |
| Wallet.StoredWalletNonNegative | SplitEase/backend/models/User.js:14 | every stored wallet is at least 0 |
| Wallet.CreditKeepsValid | SplitEase/backend/models/User.js:14 | moving one wallet without taking it below 0 keeps the store invariant |
| Wallet.PaymentDescription | SplitEase/backend/routes/wallet.routes.js:58 | "Wallet Payment" without a note, "Wallet Payment: " followed by the note otherwise |
| Wallet.PaymentEntry | SplitEase/backend/routes/wallet.routes.js:56-63 | the entry is of kind payment, paid by the payer in the group, for the amount, with one split of the whole amount to the payee |
| Wallet.PayRejection | SplitEase/backend/routes/wallet.routes.js:30-49 | the guards in order: invalid body, paying oneself, unknown group (404), payer or payee not a member, unknown payer or wallet below the amount |
| Wallet.PayAsWritten | SplitEase/backend/routes/wallet.routes.js:26-72 | as written: every guard rejection leaves the store alone |
| Wallet.PayAsWrittenKeepsDebit | SplitEase/backend/routes/wallet.routes.js:52-63 | as written, a payment whose trimmed description exceeds 200 UTF-16 code units answers 500 with the payer's wallet already debited and no entry recorded |
| Wallet.LongNoteRefused | SplitEase/backend/routes/wallet.routes.js:56-63 | a payment entry with a trimmed description over 200 UTF-16 code units is refused by the schema |
| Wallet.LongNoteTooLong | SplitEase/backend/routes/wallet.routes.js:58 | "Wallet Payment: " followed by a 185-character note not ending in whitespace trims to over 200 UTF-16 code units |
| Wallet.PayAsWrittenRefused | SplitEase/backend/routes/wallet.routes.js:52-71 | as written, a refused payment entry after all guards gives 500 with the debit kept |
| Wallet.LongNoteExample | SplitEase/backend/routes/wallet.routes.js:52-63 | a payer with 100 paying 10 with a 185-character note passes every guard, gets 500 and is left with 90 |
| Wallet.NoEdgeSpace | SplitEase/backend/routes/wallet.routes.js:58 | a description with no whitespace at either end is stored as it is |
| Wallet.Pay | SplitEase/backend/routes/wallet.routes.js:26-72 | the guards' rejections and a refused entry (500) leave the store alone; the answer is success exactly when every guard passes and the entry is accepted; success debits the payer by the amount, credits no payee and appends one valid payment entry |
| Wallet.PayAgreesOnSuccess | SplitEase/backend/routes/wallet.routes.js:52-68 | where the route as written succeeds, the corrected payment does the same |
| Wallet.PayFunded | SplitEase/backend/routes/wallet.routes.js:46-52 | a successful payment found the payer holding at least the amount |
| Wallet.PayWallets | SplitEase/backend/routes/wallet.routes.js:46-66 | the payer's wallet goes down by exactly the amount and stays at 0 or more; every other wallet, the payee's included, is unchanged |
| Wallet.Debit | SplitEase/backend/routes/wallet.routes.js:46-52 | debiting at most the wallet's balance lowers it by the amount and moves no other wallet |
| Wallet.PayValid | SplitEase/backend/routes/wallet.routes.js:46-63 | a payment keeps the store invariant |
| Wallet.PaymentSettles | SplitEase/backend/routes/wallet.routes.js:56-63 | the payment entry's shares add up to its amount, and under the balance map it raises the payer, lowers the payee by the amount and moves nobody else |
| Wallet.PayTolerated | SplitEase/backend/routes/wallet.routes.js:56-63 | payments keep every stored entry within one cent of balanced |
| Auth.IsValidEmailMeans | SplitEase/backend/routes/auth.routes.js:10 | an email is valid exactly when it is L@X.Y with L, X, Y non-empty and free of whitespace and '@' |
| Auth.ValidIsShaped | SplitEase/backend/routes/auth.routes.js:10 | an email the regular expression accepts splits at its first '@' and a later '.' into three non-empty runs of characters other than whitespace and '@' |
| Auth.ShapedIsValid | SplitEase/backend/routes/auth.routes.js:10 | every string of the form L@X.Y with such parts is valid |
| Auth.BearerToken | SplitEase/backend/routes/auth.routes.js:90-91 | a token exactly when the header (missing read as "") starts with "Bearer ", and then the header is "Bearer " followed by it |
| Auth.BearerTokenOf | SplitEase/backend/routes/auth.routes.js:91 | "Bearer " followed by t yields t |
| Auth.Authenticate | SplitEase/backend/routes/auth.routes.js:89-99 | Unauthorized exactly when there is no token or it is empty, Invalid token exactly when verification refuses a non-empty one; success carries the verified user id |
| Auth.AuthenticateMeans | SplitEase/backend/routes/auth.routes.js:89-99 | the request is admitted exactly when the header is "Bearer " followed by a non-empty token that verifies |
| Auth.Login | SplitEase/backend/routes/auth.routes.js:50-86 | on the trimmed lower-cased email: missing email or password (400), then invalid email (400), then no such user (404), then a refused password (400); success returns the stored user with that email |
| Auth.LoginChecks | SplitEase/backend/routes/auth.routes.js:56-71 | the same checks in the same order on an email already trimmed and lower-cased; success returns a stored user with exactly that email whose password bcrypt accepts |
| Auth.Signup | SplitEase/backend/routes/auth.routes.js:14-47 | missing name, email or password is 400; an email stored as the normalised (trimmed, lower-cased) request email is 400; otherwise a document the schema refuses or whose id is taken is 500; rejections change nothing; success appends one user with the hashed password, walletBalance defaulting to 0 and isActive to true |
| Auth.SignupValid | SplitEase/backend/routes/auth.routes.js:30-40 | signup keeps the store invariant |
| Auth.AppendUserValid | SplitEase/backend/routes/auth.routes.js:40 | saving a user the schema and the unique indexes accept keeps the store invariant |
| Auth.SignupThenLogin | SplitEase/backend/routes/auth.routes.js:30-68 | after a signup, logging in with the same email and password returns the new user |
| Auth.NonEmptyWhenValid | SplitEase/backend/routes/auth.routes.js:10 | a valid email is non-empty |
| Auth.FindAppended | SplitEase/backend/routes/auth.routes.js:63 | a user saved with a fresh email is what findOne finds by that email |
| Auth.SignupAccepts | SplitEase/backend/routes/auth.routes.js:18-40 | a request passing the checks with an acceptable document is saved and returned |
| Auth.SignupSkipsPasswordRule | SplitEase/backend/routes/auth.routes.js:11-40 | signup accepts a password isValidPassword refuses, and the new user gets wallet 0 and isActive true |
| Database.Store.Signup | SplitEase/backend/routes/auth.routes.js:14-47 | the store ends as Auth.Signup says, answers what it says, and keeps its invariant |
| Database.Store.CreateGroup | SplitEase/backend/routes/group.routes.js:78-117 | the store ends as GroupViews.CreateGroup says, answers what it says, and keeps its invariant |
| Database.Store.DeleteGroup | SplitEase/backend/routes/group.routes.js:210-234 | the store ends as GroupViews.DeleteGroup says, answers what it says, and keeps its invariant |
| Database.Store.AddExpense | SplitEase/backend/routes/expense.routes.js:7-43 | the store ends as Expenses.AddExpense says, answers what it says, and keeps its invariant |
| Database.Store.WalletAdd | SplitEase/backend/routes/wallet.routes.js:8-23 | the store ends as Wallet.AddFunds says, answers what it says, and keeps its invariant |
| Database.Store.WalletPay | SplitEase/backend/routes/wallet.routes.js:26-72 | the store ends as the corrected Wallet.Pay says, answers what it says, and keeps its invariant |

## Left out

- Express, HTTP bodies and JSON, the Mongo connection, `server.js`, `routes/api.js` and `routes/user.routes.js`: wiring and thin persistence with no computation.
- `middleware/auth.js` is not part of this model. The routes that use it take the requester's id as a parameter. The local `auth` function of `auth.routes.js` is modelled as `Auth.Authenticate`.
- `GET /auth/me`: a lookup by id and a field projection, with nothing to compute.
- bcrypt and JWT: `hash`, `compare` and `verify` are function parameters. Token signing and expiry are not modelled.
- Floating point: amounts are integer cents and the 0.01 tolerance is one cent. Rounding drift is not modelled.
- A split share that `Number()` turns into NaN (a non-numeric string). In the source, NaN passes the one-cent test at `routes/expense.routes.js:26-27`, because every comparison with NaN is false, and `Expense.create` then refuses it (500). The model has no NaN share; a missing share is `None` and counts 0 in the sum, as `Number(s.share || 0)` reads it.
- Non-string inputs, casts (`Number`, `String`) and ObjectId casting errors. Request fields arrive already parsed, with "" or `None` standing for what the route treats as missing or falsy.
- ASCII-only lower-casing: `Text.ToLower` maps only A–Z, where JavaScript lower-cases all of Unicode.
- Mongo query mechanics:
  - `populate`, `aggregate`, `$in`, `lean` and `select` become filters over sequences.
  - The list view's entry buckets and last-activity map are built from the whole expense collection; the entries of other groups fall in buckets that are never read.
  - A sort by `createdAt` is modelled as reversing insertion order. Entries with equal timestamps therefore come out newest-inserted first.
- The list view writes its fields onto each group in place (`g.memberCount`, `g.youAreOwed`, …). The model builds one `Listing` value per group instead.
- The human-readable "X owes Y" texts of the balance summary: a suggestion is the triple (debtor, creditor, amount).
- Concurrency: the check-then-debit of `POST /wallet/pay` is not atomic in the source, and routes are modelled as running one at a time.
- The `address`, `preferences`, `age` and `createdAt` fields of a user: no route computes with them.
- Signup's duplicate check applies the email path's `trim` and `lowercase` setters to the `findOne` filter, as Mongoose 5 and later do when they cast a query. A duplicate that differs only in case or surrounding spaces is therefore 400 "Email already in use". A Mongoose that did not cast query filters is not modelled.
- Text.Trim: the contract states only that the result is no longer than the input and has no whitespace at either end. That it is the slice left after dropping whitespace is stated by `Text.TrimSlice`.
- Auth.Login: the "Invalid password" answer is stated one way: it implies that a stored user with that email refused the password. The converse is not stated.
- Auth.LoginChecks: the same one-way statement of "Invalid password" as Auth.Login.
- Wallet.PayAsWritten: its contract states only the guard rejections. Its success and 500 behaviour are stated by `Wallet.PayAgreesOnSuccess` and `Wallet.PayAsWrittenKeepsDebit`.
- GroupViews.CleanEmails: the contract states only the length bound. Membership is stated by `GroupViews.CleanEmailsMeans`.

## Findings

| source | as written | input that shows it | evidently intended | confidence | as-written member | corrected member |
|---|---|---|---|---|---|---|
| SplitEase/backend/routes/wallet.routes.js:52-63 | the payer's wallet is debited (`$inc`) before `Expense.create` validates the payment entry. An entry the schema refuses answers 500 with the money gone and no payment recorded | a payer holding 100 pays 10 to a fellow member with a note of 185 characters, making the description 201 characters, over the limit of 200 | a failed payment leaves every wallet as it was: the entry is checked before the debit | not executed | Wallet.LongNoteExample | Wallet.Pay |
