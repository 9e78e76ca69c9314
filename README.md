# Lost-and-found store: a Dafny model

This project models the domain logic of the lost-and-found HTTP handler in
`server.py`. The SQL database becomes an in-memory store of four tables:

- Items
- Claims
- Employees
- the append-only ItemStatus history

Each table is a sequence of rows. The model covers:

- **Claim approval.** This is a transaction. It looks up the pending claim
  named by the URL, marks the claim Approved, marks its item claimed and
  appends a `Claimed` history row, then commits. A missing or already
  processed claim is rolled back and answered 404. The answer to a raising
  call depends on where it raises:
  - opening the connection: no answer is sent at all, because the error
    path itself fails without a connection to roll back;
  - any call from `BEGIN` up to the commit, or the rollback of a missing
    claim: everything is rolled back and the answer is 500;
  - closing the connection after the commit: the changes stay committed,
    but the answer is still 500.
- **Item intake.** A body must carry six required keys. The item is then
  inserted unclaimed under the next row id and read back. Missing keys are
  answered 400. A call raising before the commit loses the insert; one
  raising after it (the read-back or the close) keeps the row and answers
  500.
- **The four read-only queries:**
  - the unclaimed items, newest find first, each with its age in days;
  - the pending-claim queue, joined to the item and to the handling
    employee, with `Unassigned` when there is no such employee;
  - the dashboard counts;
  - the employees ranked by the number of items they managed.
- **POST and GET dispatch.** This includes how the claim key is taken from
  the path: `split('/')[3]`, with Python's split semantics.

The two writing handlers are methods of the class
`Store.LostAndFound`. Each one states:

- the answer;
- the new tables when the transaction commits;
- that every table keeps its old value when it does not.

Every database call a handler makes before it answers may raise. A `fault`
parameter names the call that raises and carries the text of the exception.
The rollback in the error path itself is assumed not to raise.

The queries, the row updates and the path handling are functions. Their
properties are stated as lemmas, including how an approval changes what
each query reports afterwards.

Representation choices:

- Dates are integer day numbers, so the age of an item is a plain
  subtraction.
- "Now" is passed as a parameter.
- The claim key stays a string. The handler binds it as text against an
  integer id, and it matches a claim when it reads as that id in decimal
  (`Tables.KeyMatches`).

Where the documented design and the code differ, the model follows the code:

- The intake stores `dateFound` from the body rather than the current
  date.
- The intake checks only that the keys are present, not that they are
  non-empty.
- The intake writes no history row.
- The approval does not check the item's `isClaimed` flag. A second pending
  claim on an item that is already claimed can therefore still be approved
  (`Lifecycle.OtherPendingClaimStaysApprovable`).
- The approval does not increment the employee's `itemsManaged`. That
  would happen in a database trigger, and the trigger is not part of this
  model.

Files:

| file | content |
|---|---|
| `wrappers.dfy` | `Option` |
| `domain.dfy` | rows, the intake body, the required keys, ids |
| `text.dfy` | `str.split('/')` and `'/'.join` |
| `numerals.dfy` | decimal numerals: how a text key reads as an id |
| `routes.dfy` | GET and POST dispatch, claim-key extraction |
| `sorting.dfy` | the order of `ORDER BY … DESC` |
| `tables.dfy` | row lookups and the row updates of each SQL statement |
| `queries.dfy` | the four GET queries |
| `lifecycle.dfy` | what an approval does to the later query results |
| `store.dfy` | the store class, the two transactions, dispatch |

## Model

| member | source | states |
|---|---|---|
| Domain.RequiredKeysAreTheInsertedFields | server.py:147-157 | The key check passes exactly when all six fields the INSERT reads are present. |
| Domain.NextRowId | server.py:153-159 | The id given to an inserted row is at least 1 and above every existing id. It is 1 for an empty table, otherwise one more than an existing id. |
| Text.Split | server.py:114 | Splitting always yields at least one piece. |
| Text.SplitPiecesAreSeparatorFree | server.py:114 | No piece of a split path contains `/`. |
| Text.JoinSplit | server.py:114 | Joining the pieces with `/` gives back the split string: nothing is lost. |
| Text.SplitJoin | server.py:114 | Splitting the join of separator-free pieces gives back exactly those pieces. |
| Text.SplitAppend | server.py:114 | Splitting `a/b` is the split of `a` followed by the split of `b`. |
| Text.SplitOfPiece | server.py:114 | A string without `/` splits into itself alone. |
| Text.SplitHead | server.py:114 | The first piece is a prefix of the string, followed by `/` or by the end of the string. |
| Numerals.ParseDecimal | server.py:210-213 | A key reads as an id exactly when it is a non-empty string of decimal digits. |
| Numerals.ParseDecimal_Decimal | server.py:210-213 | The decimal numeral of any id reads back as that id. |
| Routes.GetRoute | server.py:74-94 | Each GET target is chosen exactly when the path equals its literal. Any other path is not found. |
| Routes.PostRoute | server.py:111-117 | The item route is chosen exactly for `/api/items`. Approval is chosen exactly when the path has the claims prefix and the approve suffix. The key is the separator-free part of the path after the prefix, up to the next `/` or the end. |
| Routes.SplitUnderClaimsPrefix | server.py:113-114 | Below the claims prefix the first three pieces are `""`, `api` and `claims`, so piece 3 always exists. |
| Routes.ApproveRouteOf | server.py:113-115 | Any path with the prefix and the suffix approves the first piece after the prefix. |
| Routes.ApprovePathRoundTrip | server.py:113-115 | `/api/claims/<key>/approve` approves exactly `<key>` when the key has no `/`. |
| Routes.ApprovePathOfId | server.py:113-115 | The URL built from the numeral of claim `n` approves a key that reads back as `n`. |
| Routes.ExtraPiecesIgnored | server.py:113-114 | Pieces between the key and the suffix are ignored. |
| Routes.SharedSeparatorMatches | server.py:113-114 | `/api/claims/approve` matches and approves the key `approve`, because the prefix and the suffix share their `/`. |
| Sorting.InsertDesc | server.py:136 | Insertion into a non-increasing sequence keeps it non-increasing and adds exactly the new element. |
| Sorting.SortDesc | server.py:136 | The result is non-increasing by the key and is a permutation of the input. |
| Tables.FindItem | server.py:163-168 | The lookup finds a row carrying the id. It finds none exactly when no row carries it. |
| Tables.FindItemOfRow | server.py:191 | With unique ids, the lookup of a row's id finds that row. |
| Tables.FindItemOfAppended | server.py:159-168 | A row appended under an id no other row has is the row that reading back that id returns. |
| Tables.FindEmployee | server.py:192 | The lookup finds an employee with the id. It finds none exactly when no employee has it. |
| Tables.FindEmployeeOfRow | server.py:192 | With unique ids, the lookup of an employee's id finds that employee. |
| Tables.FindPending | server.py:210-214 | A found claim is pending and named by the key. None is found exactly when no pending claim is named by the key. |
| Tables.ApproveRows | server.py:224-228 | Rows with the id become Approved and are otherwise unchanged. Every other row is unchanged. The length is the same. |
| Tables.MarkClaimed | server.py:231-235 | Rows with the id get `isClaimed` 1 and `dateUpdated` now, and are otherwise unchanged. Every other row is unchanged. |
| Tables.CountFlag | server.py:259-271 | The count is at most the table size. It is 0 exactly when no row has the flag. |
| Tables.CountsPartitionItems | server.py:259-271 | With 0/1 flags, the unclaimed and claimed counts add up to the number of items. |
| Tables.MarkClaimedMovesCount | server.py:231-235 | Marking an unclaimed item moves one unit from the unclaimed count to the claimed count. Marking a claimed item changes neither count. |
| Tables.MarkClaimedOfAbsent | server.py:231-235 | Marking an id no row carries changes nothing. |
| Tables.NextItemId | server.py:153-159 | The new item's id is above every existing item id. |
| Tables.AppendFreshItem | server.py:153-157 | Inserting an unclaimed row under a fresh id keeps ids unique and flags 0/1. |
| Tables.NextEventId | server.py:238-241 | The new history row's id is above every existing one. |
| Tables.KeyMatches | server.py:210-213 | A text key matches an integer id only when it is a non-empty run of decimal digits denoting that id. The numeral of an id always matches it. |
| Tables.NewItem | server.py:153-157 | The inserted row has the new id, is unclaimed and is stamped now. Its name, category, description, color, `dateFound` and location are the body's `itemName`, `itemCategory`, `itemDescription`, `color`, `dateFound` and `FoundAt`. |
| Queries.ItemRowOf | server.py:124-133 | A listed row carries the item's id, name, description, category, color, `dateFound`, location and flag. Its age is today − dateFound, so it is never negative for an item found by today. |
| Queries.UnclaimedRowsAreUnclaimedItems | server.py:134-135 | The filter gives one row per unclaimed item and no other rows. |
| Queries.GetItems | server.py:123-137 | The list is ordered by `dateFound`, newest first. It is a permutation of the unclaimed rows. Each row is unclaimed, with age = today − dateFound. |
| Queries.GetItemsAreTheUnclaimedItems | server.py:123-137 | Every unclaimed item is listed, every listed row is an unclaimed item, and the length is the unclaimed count. |
| Queries.ClaimRowOf | server.py:180-189 | A queue row carries the claim's id, date, verification code and owner names, the item's name, category and location, and the staff column of the claim's handler. |
| Queries.ManagingStaffIsHandler | server.py:189-192 | The staff column is "first last" of the handling employee. It is `Unassigned` when the claim has no handler or no employee has that id. |
| Queries.GetClaims | server.py:179-194 | The queue has exactly as many rows as there are pending claims whose item exists, the rows the inner join keeps. |
| Queries.QueueListsEachClaimOnce | server.py:179-194 | With unique claim ids, no two queue rows carry the same claim. |
| Queries.GetClaimsArePendingClaimsWithItems | server.py:179-194 | Every row is a pending claim joined to its existing item. Every pending claim whose item exists is in the queue. |
| Queries.GetMetrics | server.py:259-285 | Two rows, Unclaimed then Claimed. The Claimed average is always 0. An empty store gives zero counts and a zero average. |
| Queries.MetricsCountTheItemList | server.py:259-283 | The unclaimed total equals the length of the item list. With 0/1 flags, the two totals add up to the number of items. |
| Queries.AverageIsMeanOfListedAges | server.py:259-264 | The unclaimed average is the mean age of the listed unclaimed items. |
| Queries.GetEmployees | server.py:296-305 | Every employee appears exactly once, in non-increasing order of items managed. |
| Lifecycle.ApprovedClaimIsNoLongerPending | server.py:210-228 | After an approval the same key finds no pending claim, so the approval cannot apply twice. |
| Lifecycle.OtherPendingClaimStaysApprovable | server.py:210-235 | Approving one claim leaves every other pending claim approvable, including one on the same item. |
| Lifecycle.FindPendingAfterApproveElsewhere | server.py:210-228 | Approving a claim another key does not name leaves that key's lookup unchanged. |
| Lifecycle.FindItemAfterMark | server.py:231-235 | Marking an item claimed keeps every item lookup, with the same name, category and location. |
| Lifecycle.ApprovalLeavesQueue | server.py:224-235 | After approval the queue is the old queue without the approved claim, with every other row unchanged and in order. |
| Lifecycle.ApprovalLeavesItemList | server.py:231-235 | After approval the unclaimed rows are the old ones without the approved item. |
| Lifecycle.ApprovalMovesMetrics | server.py:231-235 | Approving a claim on an unclaimed item lowers the Unclaimed total by one and raises the Claimed total by one. |
| Store.RecordOf | server.py:163-168 | The read-back record carries the row's id and its name, category, description, color, `dateFound` and location. |
| Store.ClaimedEvent | server.py:238-241 | The appended history row is (item, `Claimed`, now) under a fresh id. |
| Store.LostAndFound.ApproveClaim | server.py:201-251 | The answer is 404 when no pending claim is named and the rollback succeeds, 500 with the exception text when a call raises (including that rollback), and nothing when the connection fails. Success is answered exactly when the transaction commits and the close succeeds, and it reports the key and the item id. On commit the claim is Approved, the item is claimed at now and exactly one `Claimed` row is appended; a close that raises after the commit answers 500 with these changes kept. Without a commit all three tables keep their old values. Valid keys and flags are preserved. |
| Store.LostAndFound.ApplyApproval | server.py:224-244 | The three statements and the commit raise exactly when the fault names one of them. If none raises, the tables hold the approved claim, the claimed item and the new history row. |
| Store.LostAndFound.AddItem | server.py:144-173 | The answer is 400 with nothing inserted when a key is missing. A fault before the commit gives 500 with nothing inserted. Otherwise exactly one unclaimed row is appended under the next id. A fault after the commit keeps the row and answers 500. The 201 record echoes the body under an id no earlier item has. |
| Store.LostAndFound.HandlePost | server.py:96-117 | A body that is not JSON is answered 400. An unknown path is answered 404. Both change nothing. The item path runs only the intake: on commit exactly the new row is appended, otherwise Items is unchanged, and Claims and the history never change. An approve path approves exactly its extracted key: on commit that claim is Approved, its item claimed at now and one `Claimed` row appended, and otherwise every table is rolled back. |
| Store.LostAndFound.HandleGet | server.py:74-94 | Each API path is answered exactly for its literal, with its query over the current tables: the unclaimed-item list, the claim queue, the metrics and the ranking. So the item list has one row per unclaimed item, queue rows are pending claims and, in a valid store, no claim is listed twice. The metric totals are the flag counts, and the ranking is a permutation of the employees. Unknown paths are not found. |
| Store.ApprovalKeepsKeys | server.py:224-235 | The approval's updates keep row ids unique and flags 0/1. |
| Store.ApproveTwice | server.py:210-219 | Approving the same key twice with no fault: the second call is answered 404. Afterwards the tables hold exactly one approval's effect: the claim Approved, the item claimed and one `Claimed` history row. A key naming no pending claim changes nothing. Employees are never touched. |

## Left out

- Transport: the HTTP server, response writing, CORS headers, static files and content types, logging and `main` are I/O, not domain logic.
- `Store.LostAndFound.HandleGet`: the page route only says which page is served. A raising query (500 with the exception text) is not modelled for GET.
- JSON decoding: the body is the decoded object, limited to the six keys the intake reads. Absence is `None`, and `None` as the whole body means the body was not JSON.
- JSON values: JSON `null`, values of unexpected types, and bodies that are JSON but not objects are not modelled.
- `urlparse`: the path is taken as already stripped of query and fragment.
- `Domain.NextRowId`: this is SQLite's rowid choice for a table declared without `AUTOINCREMENT` whose largest id is below 2^63. The random rowid SQLite picks once the largest id reaches 2^63 is not modelled.
- Database setup: the schema, `init_db` and the triggers are not part of this model. That includes the `itemsManaged` increment and the update trigger on Items.
- Database connections: connection objects, closing, and the exception text itself (it is the `message` of the fault) are not modelled.
- `Queries.GetMetrics`: the average is the exact rational mean of whole-day ages. It is not the floating-point mean of fractional Julian-day differences, and it is not rounded to two decimals.
- `Queries.GetItems`: with day numbers, the age is exact. The fractional time of day in `julianday('now')` and its truncation by the cast are not modelled.
- `Tables.KeyMatches`: only plain decimal-digit keys match an integer id. SQLite's other numeric conversions of text (signs, spaces, decimals, exponents) are not modelled.
- Claim filing, rejection, item deletion and disputed items do not appear in the handler.
- `Store.LostAndFound.ApproveClaim`: one fault per call. The rollback of the error path (after a call has raised) is assumed not to raise; a second failure there is not modelled.
