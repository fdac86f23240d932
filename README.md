# Baseline and deviation engine: a Dafny model

This project models the configuration-baseline engine in `baseline_core/`.
The engine does five things:

- It stores every configuration snapshot taken of a device.
- It keeps at most one active baseline per device.
- It runs a propose/decide workflow for baselines. Anyone logged in may propose a snapshot. Another user approves or rejects it. An approval moves the old baseline into the history and makes the proposed snapshot the device's baseline.
- It diffs each newly recorded configuration against the active baseline.
- It records a deviation event when that diff is classified "warn" or "critical".

The model has one module per source file:

- `Db` (`db.dfy`, from `db.py`):
  - The rows of the five tables the engine uses, as datatypes.
  - The schema script as a set of schema objects.
  - The two CHECK constraints.
  - The store, as class `BaselineDb`. Each of those tables is a field of the class, and each INSERT, UPDATE and DELETE the engine issues is a method that updates that field; its SELECTs are the predicate `HasSnapshot` or reads of the fields inside the methods.
  - `Valid()` states the table constraints: rowid order, the keys of Baseline, and the baseline_singleton trigger.
  - `Consistent()` states what the engine keeps beyond them:
    - each stored digest is the SHA-256 of its text;
    - every row that names a snapshot names one of its own device;
    - a proposal has a decider exactly when it is decided;
    - no event is "info".
  - `Ready()` is both of these plus the schema being present. Every handler keeps `Ready()`.
- `Diff` (`diff.dfy`, from `diff.py`): the keyword classifier, the added/removed counts, and `diff_and_record`.
- `Routes` (`routes.dfy`, from `routes.py`):
  - The acting user.
  - The two writing handlers, proposal creation and decision.
  - The three queries.
  - Handlers take parsed request fields and return a `Result` whose failures are the HTTP errors they raise.
- `Strings` and `Results`: the Python string operations the engine uses, and the Option/Result types.
- `Scenarios`: the repository's baseline tests, written as client methods and lemmas that drive the model as the tests do.

Parameters stand in for the outside world:

- SHA-256 is an uninterpreted function given to the store's constructor.
- `difflib.unified_diff` of the split lines is a function parameter of `DiffAndRecord`. The only fact about it the engine modules use is that identical texts give an empty diff, and they use that only as a hypothesis of one postcondition. `Scenarios.CriticalDeviationRecorded` also takes as a hypothesis the diff it expects for its two configurations.

## Model

| member | source | states |
|---|---|---|
| Strings.ContainsIff | baseline_core/diff.py:19 | the substring scan finds `key` exactly when it occurs at some position of the string |
| Strings.Prefix | baseline_core/routes.py:21 | `token[:12]` is the first 12 characters, or the whole token when shorter |
| Db.ApplySchema | baseline_core/db.py:6-80 | running the schema script yields every table, index and trigger it declares, keeps what existed and adds nothing else |
| Db.ApplySchemaIdempotent | baseline_core/db.py:94-100 | init_db is idempotent: running the script twice is running it once |
| Db.StatusCheck | baseline_core/db.py:46 | the status CHECK admits exactly 'pending', 'approved' and 'rejected', each naming its status |
| Db.SeverityCheck | baseline_core/db.py:56 | the severity CHECK admits exactly 'info', 'warn' and 'critical', each naming its severity |
| Db.StoredNamesPassChecks | baseline_core/db.py:46-56 | every status and severity the engine writes passes its column's CHECK and reads back as itself |
| Db.KeyedBaselinesInsert | baseline_core/db.py:21-28 | a Baseline row that neither the device_id primary key nor the UNIQUE snapshot_id refuses keeps both keys |
| Db.AppendKeepsReferences | baseline_core/db.py:13-19 | appending a snapshot breaks no reference that an existing proposal, baseline, history row or event makes into ConfigSnapshot |
| Db.BaselineDb.constructor | baseline_core/db.py:83-91 | a new database file has no schema and no rows, and satisfies both invariants |
| Db.BaselineDb.InitDb | baseline_core/db.py:94-100 | init_db adds the schema objects and changes no row |
| Db.BaselineDb.InsertSnapshot | baseline_core/routes.py:63-67 | the snapshot is appended with the next rowid, which is returned; the invariants are kept |
| Db.BaselineDb.InsertProposal | baseline_core/routes.py:69-74 | the proposal gets the next id, status 'pending' and no decider, and nothing else changes |
| Db.BaselineDb.SetDecision | baseline_core/routes.py:126-129 | the proposal with that id, if any, gets the status and decider; no other proposal changes |
| Db.BaselineDb.InsertHistory | baseline_core/routes.py:137-140 | the archived row is appended with the next rowid |
| Db.BaselineDb.DeleteBaseline | baseline_core/routes.py:141 | the device's baseline row is gone and no other row changes |
| Db.BaselineDb.InsertBaseline | baseline_core/db.py:73-79 | the row is stored exactly when the device has no baseline and no baseline uses the snapshot; otherwise nothing changes |
| Db.BaselineDb.InsertDeviationEvent | baseline_core/diff.py:63-67 | the event is appended with the next rowid |
| Diff.AnyLineHas | baseline_core/diff.py:17-20 | one scan of the classifier answers true exactly when some line, lower-cased, contains one of the keys |
| Diff.ClassifySeverity | baseline_core/diff.py:15-25 | as written: critical iff some line holds a critical key; warn iff none does and some line holds a warn key; info iff no line holds either |
| Diff.CriticalOutranksWarn | baseline_core/diff.py:15-25 | one critical line makes the result critical, wherever it stands and whatever warn lines there are |
| Diff.ClassifyDependsOnLineSet | baseline_core/diff.py:15-25 | the result depends only on which lines occur, not on their order or repetition |
| Diff.ClassifyIgnoresCase | baseline_core/diff.py:18-22 | lower-casing the lines first gives the same severity |
| Diff.CountAdded | baseline_core/diff.py:58 | the added count is at most the number of diff lines |
| Diff.CountRemoved | baseline_core/diff.py:59 | the removed count is at most the number of diff lines |
| Diff.CountsAppend | baseline_core/diff.py:58-59 | both counts add up over concatenated diff output |
| Diff.CountsDisjoint | baseline_core/diff.py:58-59 | no line counts as both added and removed |
| Diff.HeadersNotCounted | baseline_core/diff.py:57-59 | the "--- " and "+++ " file headers are never counted |
| Diff.MarkerLikeLinesNotCounted | baseline_core/diff.py:58-59 | as written, a removed line whose text starts with "--" (an added one with "++") is not counted |
| Diff.ChangedLines | baseline_core/diff.py:16 | the changed lines are exactly the hunk lines marked '+' or '-'; they include every line the two counts count, so there are at least added + removed of them |
| Diff.ClassifyChanges | baseline_core/diff.py:15-25 | corrected: the same three-way rule, applied only to the lines after the two file headers that are marked '+' or '-' |
| Diff.ScanChanged | baseline_core/diff.py:17-20 | scanning the changed lines finds a key iff some marked line after the file headers holds one |
| Diff.ContextLinesIgnored | baseline_core/diff.py:16 | inserting a context line anywhere after the file headers leaves the corrected severity unchanged |
| Diff.ClassifiersAgree | baseline_core/diff.py:15-25 | when no header or context line holds a key, the as-written and the corrected classification give the same severity |
| Diff.DiffAndRecord | baseline_core/diff.py:28-70 | the snapshot is always stored. Without a baseline the result is info with zero counts and no event. Otherwise the result carries classify_severity of the whole diff, headers and context lines included, and the counts, and exactly the non-info results add one event. A text equal to the baseline's adds no event |
| Routes.BearerToken | baseline_core/routes.py:17-19 | a token is present exactly when the header starts with "Bearer ", and it is the rest of the header |
| Routes.CurrentUser | baseline_core/routes.py:10-22 | a non-empty session user wins. Otherwise a non-empty bearer token names the actor "tok_" + its first 12 characters. Otherwise the call fails with 403. The user is never empty |
| Routes.TokenActorsEqualIff | baseline_core/routes.py:18-21 | without a session, two bearer tokens name the same actor iff their first 12 characters agree |
| Routes.CreateProposal | baseline_core/routes.py:39-77 | the checks run in the source's order: missing text gives 400, no user gives 403, a snapshot of the device with the same digest gives 409. Success appends one snapshot and one pending proposal and returns its id. A failure changes nothing |
| Routes.ActionStatus | baseline_core/routes.py:105-123 | only "approve" and "reject" are accepted; "approve" means approved and "reject" means rejected, never pending |
| Routes.DecideProposal | baseline_core/routes.py:102-150 | the checks run in order: bad action, no user, unknown id, already decided, self-decision. A failure changes nothing. Success records status and decider. Rejection touches no baseline. Approval replaces the device's baseline with the proposal's snapshot and archives the old one |
| Routes.ArchiveBaseline | baseline_core/routes.py:133-141 | the device's current baseline, if any, is appended to the history and removed |
| Routes.Promote | baseline_core/routes.py:131-147 | after archiving, the new Baseline row cannot be refused. The device's baseline becomes the snapshot with its digest and approver, and nothing else in Baseline changes |
| Routes.ProposalsDownFrom | baseline_core/routes.py:158-161 | exactly the stored proposals up to the given id that pass the filter, strictly by id descending |
| Routes.ListProposals | baseline_core/routes.py:153-163 | every stored proposal passing the status filter (absent or empty = none), each once, by id descending |
| Routes.DeviationsDownFrom | baseline_core/routes.py:170 | every returned event is a stored event of the device |
| Routes.DeviationsComplete | baseline_core/routes.py:170 | no stored event of the device is missed |
| Routes.DeviationsDescending | baseline_core/routes.py:170 | the events come out by id descending |
| Routes.DeviationsMembership | baseline_core/routes.py:170 | the result holds exactly the device's stored events |
| Routes.GetDeviceDeviations | baseline_core/routes.py:166-173 | exactly the device's deviation events, newest first |
| Routes.GetDeviceBaseline | baseline_core/routes.py:25-36 | the baseline row joined with its snapshot's text, or 404. Under the invariants it is found exactly when the device has a baseline, and the text hashes to the row's digest |
| Scenarios.OneSnapshotLookup | baseline_core/routes.py:55-57 | in a store holding one snapshot, the duplicate lookup hits exactly that snapshot's device and digest |
| Scenarios.FreshStore | baseline_core/test_routes.py:12-20 | the test fixture: a new file after init_db is ready and empty |
| Scenarios.ProposedStore | test_diff_detection.py:18-19 | a first proposal in a fresh store gets snapshot 1 and proposal 1, pending |
| Scenarios.SetBaseline | test_diff_detection.py:17-20 | proposing and then approving by another user makes snapshot 1 device 1's baseline |
| Scenarios.DuplicateProposalRefused | baseline_core/test_routes.py:35-47 | the identical text proposed twice for a device gives 201 then 409; another device may still propose it |
| Scenarios.RecordedSnapshotBlocksProposal | baseline_core/routes.py:54-60 | a snapshot stored by the drift check also makes a later proposal of the same text a duplicate |
| Scenarios.SelfDecisionRefused | baseline_core/routes.py:119-121 | a proposer cannot approve their own proposal, and no baseline appears |
| Scenarios.ApproveBySecondUser | test_baseline_routes.py:33-57 | after another user approves, the baseline serves the proposed text, and a second decision fails as already decided |
| Scenarios.SecondProposal | baseline_core/routes.py:39-77 | with a baseline in place, a second text for the device is accepted and pending |
| Scenarios.ReplaceBaselineArchives | baseline_core/routes.py:131-147 | approving a second proposal archives the first baseline as history row 1 and serves the new text |
| Scenarios.AclDiffIsCritical | test_diff_detection.py:29-30 | the added access-group line makes the diff critical, both as written and corrected |
| Scenarios.AclLineIsCritical | baseline_core/diff.py:19 | the added line "+ ip access-group 101 in" holds the critical key "ip access" |
| Scenarios.MarkerTests | baseline_core/diff.py:58-59 | the marker tests of the counts read only a line's first two characters |
| Scenarios.AclHunkCounts | baseline_core/diff.py:58-59 | the access-group hunk adds one line and removes none |
| Scenarios.AclDiffCounts | baseline_core/diff.py:57-59 | with its headers, the diff still counts one added line and no removed one |
| Scenarios.CriticalDeviationRecorded | test_diff_detection.py:23-41 | recording the changed configuration gives critical with one line added, and the device's deviation list starts with a critical event |
| Scenarios.ContextLineDecidesSeverity | baseline_core/diff.py:15-25 | on a diff that only adds "hostname" under an unchanged interface line, the as-written classifier answers critical while the corrected one answers warn |
| Scenarios.ContextLineIsCritical | baseline_core/diff.py:19 | the context line " interface Loopback0" holds the critical key "interface " |
| Scenarios.HostnameLineIsWarn | baseline_core/diff.py:19-23 | "+hostname" holds no critical key and holds the warn key "hostname" |
| Scenarios.OnlyLastLineChanged | baseline_core/diff.py:16 | of that diff's lines after the file headers, only "+hostname" is marked as added or removed |
| Scenarios.DashLineRead | baseline_core/diff.py:59 | removing the configuration line "-- interface x" gives a diff the corrected classifier calls critical, although the removed-line count is 0 |
| Scenarios.DashLineIsCritical | baseline_core/diff.py:19 | the removed line "--- interface x" holds the critical key "interface " |

## Left out

- The HTTP layer is not modelled: Flask routing, JSON bodies, sessions and response shapes. Handlers take the parsed fields and return `Result` values. `HttpStatus` maps each error to its code.
- The duplicate route registration at `baseline_core/routes.py:80`, which also attaches `get_proposals` to the PUT URL of `decide_proposal`, is not modelled. Dispatch is the framework's business. Read from the code alone, nothing executed: two rules then match a PUT to `/baseline/proposals/<id>`, and this one is registered before `decide_proposal`'s at line 102. Where Werkzeug takes the rule registered first, that PUT calls `get_proposals(proposal_id=…)`, which takes no such argument, so the request fails with a TypeError (HTTP 500). The model states `decide_proposal` as its body is written.
- `get_proposals` (`baseline_core/routes.py:83-99`) is modelled by `ListProposals`. It returns the same rows in the same order:
  - its inner join loses no proposal, because every proposal names a stored snapshot;
  - the filter is the same;
  - the extra `sha256` column is not modelled.
- Rows do not model the timestamp columns (`created_at`, `set_at`, `replaced_at`, `proposed_at`, `decided_at`). The `snippet_text` column is not modelled either, since the engine never writes it.
- The `IgnorePattern` table appears only as a schema object; nothing reads or writes it.
- The `actor` argument of `diff_and_record` is unused by the source and left out.
- `GetDeviceDeviations` returns whole event rows, not the projected columns `id, severity, diff_stats, created_at`. `diff_stats` is kept as the pair of counts, not its JSON text.
- SQLite itself is not modelled: connections, read-only URI mode, WAL, locking, timeouts and concurrent writers. Each handler is one atomic step on the store.
- SHA-256, its hex encoding and `text.encode()` are one uninterpreted function. No collision-freedom is assumed; the scenarios that need two digests to differ take that as a hypothesis.
- `difflib.unified_diff` and `splitlines` are a parameter. The scenarios state the diff they rely on, and `test_diff_detection.py` is modelled from that diff on.
- `str.lower()` is modelled on ASCII letters only.
- `Scenarios`: the tests send bearer tokens from a login service that is not part of this model; the scenarios present users as session usernames. Bearer actors are covered by `Routes.CurrentUser` and `Routes.TokenActorsEqualIff`. `backend_mock/test_baseline_duplicate.py` reaches the same `create_proposal` through `backend_mock/app.py`; its 201-then-409 behaviour is the one `Scenarios.DuplicateProposalRefused` states.
- Db.BaselineDb.InsertSnapshot, InsertProposal, SetDecision, InsertHistory, InsertBaseline and InsertDeviationEvent require what the engine always passes them. That is the snapshot the row refers to, its digest, a non-pending decision status, and a severity other than 'info' for an event (the CHECK at `baseline_core/db.py:56` would admit 'info'); these are the foreign-key and integrity facts of `Consistent()`. SQLite would not check them: `PRAGMA foreign_keys` is set only inside the schema script and is off on the connections `get_conn` opens.
- Diff.DiffAndRecord: the source raises an exception when the baseline's snapshot row is missing. The model's precondition excludes that state, since under `Consistent()` the row is always there.

## Findings

| source | as written | input that shows it | evidently intended | confidence | as-written member | corrected member |
|---|---|---|---|---|---|---|
| baseline_core/diff.py:15-25 | `classify_severity` scans every diff line, including the "---"/"+++" headers, the "@@" hunk headers and the context lines | adding the line "hostname" after an unchanged "interface Loopback0": the diff is `["--- ", "+++ ", "@@ -1 +1,2 @@", " interface Loopback0", "+hostname"]`, which is classified critical | its docstring says the keywords are looked for in added/removed lines, which would give warn here | medium, not executed | Diff.ClassifySeverity, with Scenarios.ContextLineDecidesSeverity | Diff.ClassifyChanges, with Diff.ContextLinesIgnored and Diff.ClassifiersAgree; it takes the changed lines by position after the two file headers, so it also reads a removed line "--- …" (Scenarios.DashLineRead); Diff.DiffAndRecord keeps the as-written classification, as diff_and_record computes it |
