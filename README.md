# Issue lifecycle of the TrustLoop grievance backend, in Dafny

This project models the issue lifecycle of the TrustLoop feedback backend
(`backend/server.py`). Students file anonymous grievances. Staff work on
them. Unresolved issues climb a role chain per category, by hand or by a
periodic SLA sweep. The model covers:

- the role hierarchy table and the one-step escalation target (`Hierarchy`);
- the anonymous submitter token: SHA-256 of the user id and the `YYYYMMDD`
  day string, 12 lower-case hex characters (`Identity`);
- ASCII lower-casing and the substring test used for duplicate detection (`Text`);
- the stored records, the error kinds and the shared pure steps (`Records`);
- which open issue absorbs a new submission (`Dedup`);
- the SLA sweep as a function of the stored issues and the time (`SlaSweep`);
- the newest-first update list of one issue (`Ledger`);
- the store itself: a class `IssueStore` holding the issues, the update
  ledger and an id counter, whose methods are the request handlers (`Store`).

The MongoDB collections become two sequences that the methods reassign.
`uuid4` ids become numbers drawn from a counter. Time is an integer
number of seconds. The caller's role and id, the moderation verdict, the
hash function, the day and the current time are all arguments.

In these places the code behaves in ways a reader might not expect; the model follows the code:

- Neither escalation path resets `sla_deadline` (server.py:387-390, 458-461).
- The sweep only picks up `Open` and `In Progress` issues (server.py:444), so
  an `Escalated` issue is never escalated again by the sweep. A category's
  issue therefore climbs at most one step automatically until someone
  adds an update or resets its status. `SlaSweep.Sweep` states this: an issue
  that is not breached is left as it is.
- Manual escalation does not look at the status: a `Resolved` issue can be
  escalated, and it becomes `Escalated`.
- A role that is not in the chain has index -1, so escalation moves it to the
  chain's first role (server.py:380, 385).
- Deduplication takes the first match in stored order, not the most recent one.
  Only the first 100 non-Resolved issues of the category are examined (server.py:269-280).
  Once 100 non-Resolved issues of a category are stored, no issue of that
  category stored after them can absorb a report, so a restatement of a
  newer issue opens yet another one (`Dedup.DedupWindowFull`).
- `add_update` sets the status to `In Progress` whatever it was, `Resolved` included.
- `update_status` on an unknown id changes nothing and still succeeds.
- Updates are listed newest first (server.py:340), at most 100.
- The token derivation does not reject an empty user id.
- The breach query does not leave out issues already at Principal, so they
  keep taking places among the 1000 issues a sweep examines (see Findings).

## Model

| member | source | states |
|---|---|---|
| `Hierarchy.RoleHierarchy` | backend/server.py:141-151 | every category, known or not, maps to a non-empty chain without repeats that ends in Principal and has Principal nowhere else; unknown categories get Staff, Admin, Principal |
| `Hierarchy.RoleIndex` | backend/server.py:380 | the index is the first position of the role in the chain, and -1 exactly when the role is absent |
| `Hierarchy.NextInChain` | backend/server.py:379-385 | for any chain without repeats: the step is refused exactly at the last role; a role at position i < last moves to i+1; a role outside the chain moves to the first role |
| `Hierarchy.NextRole` | backend/server.py:379-385 | escalation is refused exactly at Principal; a role at position i < last moves to position i+1; a role outside the chain moves to the chain's first role |
| `Hierarchy.ClimbAlongChain` | backend/server.py:379-390 | n escalations from position i of the chain reach position min(i+n, len-1) |
| `Hierarchy.ClimbFromEntry` | backend/server.py:283-284 | an issue starting at the chain's first role sits at entry min(n, len-1) after n escalation attempts |
| `Hierarchy.ClimbReachesPrincipal` | backend/server.py:379-385 | from any role, len escalation attempts or more end at Principal, so escalation cannot go on forever |
| `Identity.AnonToken` | backend/server.py:105-108 | the token is a function of (uid, day) only and is exactly 12 characters, each a lower-case hex digit |
| `Identity.ToHex` | backend/server.py:108 | `hexdigest()`: two lower-case hex digits per byte, the high nibble first |
| `Identity.DaySalt` | backend/server.py:107 | `strftime("%Y%m%d")`: eight decimal digits; `Identity.ParseDaySalt` reads the date back from them |
| `Identity.TokenIsDigestPrefix` | backend/server.py:108 | decoding the token gives exactly the first six bytes of the digest of uid followed by the day salt |
| `Identity.FromHexToHex` | backend/server.py:108 | hex encoding of the digest is lossless: decoding it returns the bytes |
| `Identity.ParseDaySalt` | backend/server.py:107 | the `%Y%m%d` salt is 8 digits and parses back to its date |
| `Identity.DaySaltInjective` | backend/server.py:107 | two different days never give the same salt |
| `Identity.HashInput` | backend/server.py:108 | the hashed string is the user id followed by the eight-character day salt |
| `Identity.HashInputInjective` | backend/server.py:108 | the hashed string determines both the user id and the day, because the salt has a fixed width |
| `Text.Lower` | backend/server.py:275 | lower-casing keeps the length and maps each character on its own, leaving no ASCII capital |
| `Text.Contains` | backend/server.py:275 | Python's `in` on strings: the empty string is in every string, a prefix is in its string, and no string is in a shorter one; `Text.ContainsIff` gives the full characterization |
| `Text.LowerIdempotent` | backend/server.py:275 | lower-casing twice is lower-casing once |
| `Text.ContainsIff` | backend/server.py:275 | the `in` test holds exactly when the needle occurs at some position of the haystack |
| `Records.NewIssue` | backend/server.py:283-297 | a new issue is Open, assigned to the chain's first role, with a frequency count of 1 and a deadline of creation time plus two days, and carries the verdict's summary and the token |
| `Records.ReasonText` | backend/server.py:396 | `reason or 'Manual escalation'`: never empty, and a non-empty reason is kept as given |
| `Records.ManualEscalationText` | backend/server.py:396 | the manual entry reads "Escalated to ", the new role, ". Reason: ", the reason; role and reason can both be read back from the text |
| `Records.AutoEscalationText` | backend/server.py:467 | the automatic entry reads "Auto-escalated to ", the new role, " due to SLA breach"; the role can be read back from the text |
| `Records.Absorb` | backend/server.py:278 | absorbing a report raises the frequency count by exactly 1 and changes no other field |
| `Records.Escalate` | backend/server.py:387-390 | an escalated issue has the new role and the Escalated status, keeps its deadline, and no other field changes; the sweep applies the same update at server.py:458-461 |
| `Records.Find` | backend/server.py:350 | the lookup gives the first issue with the id, and nothing exactly when no issue has it |
| `Dedup.DuplicateOf` | backend/server.py:269-280 | the absorbing issue is in the category, is not Resolved, is among the first 100 such issues and contains the new summary case-insensitively, and no earlier such issue does; there is none exactly when no scanned issue matches |
| `Dedup.IsCandidate` | backend/server.py:269-272 | a scanned issue is of the submission's category and never Resolved |
| `Dedup.Scanned` | backend/server.py:269-272 | a scanned issue is a candidate of the category, and at most 100 candidates are stored up to and including it |
| `Dedup.Absorbs` | backend/server.py:275 | an empty summary is in every stored summary, and a summary equal to the stored one up to letter case is in it |
| `Dedup.RestatementIsAbsorbed` | backend/server.py:274-300 | when fewer than 100 non-Resolved issues of the category are stored ahead of it, an issue created by a submission absorbs a later report of the same summary in any letter case |
| `Dedup.DedupWindowFull` | backend/server.py:269-275 | once 100 non-Resolved issues of a category are stored, no issue of that category stored after them is scanned, so none of them absorbs a report |
| `Dedup.CaseInsensitive` | backend/server.py:275 | summaries that agree up to letter case are routed to the same issue |
| `Dedup.EmptySummaryJoinsFirstCandidate` | backend/server.py:274-280 | an empty summary is absorbed by the first open issue of its category, whatever it is about |
| `SlaSweep.Sweep` | backend/server.py:442-461 | the sweep keeps every issue's id; only Open or In Progress issues past their deadline change; a changed issue has moved one step up its chain and is Escalated with its deadline unchanged; Principal issues never change; each of the first 1000 breached issues that is not at Principal is escalated one step |
| `SlaSweep.Selected` | backend/server.py:442-448 | a selected issue is breached and at most 1000 breached issues are stored up to and including it |
| `SlaSweep.Breached` | backend/server.py:442-448 | a breached issue is past its deadline, and an Escalated or Resolved issue is never breached |
| `SlaSweep.AutoEntry` | backend/server.py:463-468 | the automatic audit entry is by System, names the escalated issue and carries the auto-escalation text |
| `SlaSweep.SweepEscalatesEveryBreach` | backend/server.py:442-461 | when at most 1000 issues are breached, every breached issue not at Principal is escalated one step |
| `SlaSweep.SweepIdempotent` | backend/server.py:442-461 | when at most 1000 issues are breached, a second sweep at the same time escalates nothing and changes nothing |
| `SlaSweep.SweepCountIsChanges` | backend/server.py:450-470 | `escalated_count` equals the number of issues the sweep changed |
| `SlaSweep.EscalationCount` | backend/server.py:450-470 | `escalated_count` is at most 1000 and at most the number of breached issues |
| `SlaSweep.SweepLog` | backend/server.py:463-469 | the audit entries for the first n positions are at most n |
| `SlaSweep.SweepLogLength` | backend/server.py:463-470 | the sweep appends exactly one audit entry per escalation |
| `SlaSweep.SweepLogEntry` | backend/server.py:457-469 | every escalated issue gets its own entry, at its rank among the escalations: numbered on from the counter, by System, stamped with the sweep's time, of type text, reading "Auto-escalated to <new role> due to SLA breach" |
| `SlaSweep.SweepLogRanks` | backend/server.py:451-470 | distinct escalated issues have distinct ranks, so no two of them share an entry |
| `SlaSweep.SweepLogOwners` | backend/server.py:463-469 | there is no other entry: each one is the System entry of some escalated issue, numbered and stamped as above |
| `SlaWindow.SweepWindowBlocked` | backend/server.py:442-455 | as written: when the first 1000 stored issues are breached and at Principal, a sweep changes nothing at all, so no later issue is ever escalated by the sweep |
| `SlaWindow.SweepStarvesStaffIssue` | backend/server.py:442-455 | a concrete store of 1000 overdue Food issues at Principal followed by one overdue Food issue at Staff, the first role of the Food chain: that issue is breached and its next role is Admin, yet the sweep leaves it as it is |
| `SlaWindow.FixedSweep` | backend/server.py:442-461 | corrected sweep with Principal left out of the query: only breached issues below Principal change, each by one escalation step |
| `SlaWindow.FixedSweepProgress` | backend/server.py:442-461 | corrected: whenever some breached issue is below Principal, the earliest one is escalated, so the sweep always makes progress |
| `SlaWindow.FixedSweepAgrees` | backend/server.py:442-461 | the correction gives the same result as the sweep as written whenever no breached issue sits at Principal |
| `Ledger.NewestFirst` | backend/server.py:337-340 | the list holds exactly the ledger's entries of the issue, and is no longer than the ledger |
| `Ledger.ListUpdates` | backend/server.py:337-340 | the list holds only entries of the issue, at most 100, the newest ones first; it holds every entry of the issue when there are at most 100 |
| `Ledger.ListUpdatesSorted` | backend/server.py:340 | when the ledger was appended in clock order, the list is sorted by timestamp, newest first |
| `Store.RunSweep` | backend/server.py:450-471 | the sweep loop's issues, appended audit entries and count are those of the sweep specification |
| `Store.ScanForDuplicate` | backend/server.py:269-280 | the scan loop returns exactly the position `Dedup.DuplicateOf` specifies |
| `Store.IssueStore.SubmitFeedback` | backend/server.py:256-302 | non-students are refused and an inappropriate verdict is rejected, both without change; otherwise the absorbing issue's frequency count rises by exactly 1 and nothing else changes, or, when none absorbs, exactly one new issue is appended under an id no stored issue had; either way the returned id looks up the issue the report was filed under; the ledger is untouched |
| `Store.IssueStore.FileReport` | backend/server.py:268-302 | the filing step after both checks: absorb into the issue `Dedup.DuplicateOf` names, or append a new issue under a fresh id, with the returned id finding that issue |
| `Store.IssueStore.AbsorbAt` | backend/server.py:276-279 | only the one issue's frequency count rises by 1, and its id still finds it |
| `Store.IssueStore.Insert` | backend/server.py:299 | the new issue is appended under an id no stored issue had, and its id finds it at the end |
| `Store.IssueStore.AddUpdate` | backend/server.py:344-367 | students and unknown issues are refused without change; otherwise exactly one entry with the caller's role is appended and the issue's status becomes In Progress |
| `Store.IssueStore.EscalateIssue` | backend/server.py:369-400 | students and unknown issues are refused; at Principal the call fails with "already at highest level" and nothing changes; otherwise the role advances one step, the status becomes Escalated, and exactly one text entry naming the new role and the reason is appended |
| `Store.IssueStore.UpdateStatus` | backend/server.py:402-413 | only the five staff roles may set a status, and they may set any; an unknown id changes nothing |
| `Store.IssueStore.CheckEscalation` | backend/server.py:437-472 | the store after the sweep is the sweep specification applied to the old issues, with its audit entries appended and its count returned |
| `Store.IssueStore.GetIssue` | backend/server.py:330-342 | an unknown id is NotFound; otherwise the issue comes back without its anonymous token, together with its update list |

## Left out

- HTTP routing, CORS, logging and the MongoDB driver (server.py:1-39, 474-492) are left out. They are transport and storage plumbing. The collections are in-memory sequences.
- Registration, login, password hashing with bcrypt, JWT handling and the lookup of the current user (server.py:110-139, 190-254) are left out. The caller's role and uid are arguments.
- The Gemini moderation call and its fail-open fallback (server.py:153-186) are left out. The verdict is an argument.
- `get_my_issues`, `get_all_issues` and `get_dashboard_stats` (server.py:304-328, 415-435) are left out. They are read-only queries and aggregate counts outside the lifecycle.
- The clock and `uuid4` are left out. Time, the day and the current instant are arguments, and ids come from a counter.
- Timestamps are ISO-8601 strings in the source and integers here. The sweep's `$lt` string comparison is modelled as integer comparison, which matches time order for the UTC strings the code writes.
- Per-request concurrency is left out, because the code has no locking and overlapping sweeps would be about concurrency.
- `Identity.AnonToken`: SHA-256 and the UTF-8 encoding of `uid + salt` are one opaque `hash` parameter, so the model makes no claim about digest values or collisions. Only years 1000-9999 are covered, the range in which `%Y` prints four digits.
- `Text.Lower`: only ASCII letters are lower-cased, where Python's `str.lower()` folds all of Unicode.
- `Ledger.ListUpdates`: the list is in reverse append order. That equals the source's timestamp sort whenever entries were appended in clock order (`Ledger.ListUpdatesSorted`). Entries with equal timestamps, which MongoDB may return in any order, come last-appended first.
- `SlaSweep.SweepIdempotent`: idempotence is proved only when at most 1000 issues are breached. With more, a second run at the same time can escalate issues the first did not reach, at most 1000 more per run. Breached issues at Principal keep their places in the window on every run, so they can also block it for good (`SlaWindow.SweepWindowBlocked`).
- `Store.IssueStore.CheckEscalation`: the loop walks all stored issues and acts on the first 1000 breached ones. The source fetches those 1000 first and then loops over them; with unique ids the effect is the same.

## Findings

| source | as written | input that shows it | evidently intended | confidence | as-written member | corrected member |
|---|---|---|---|---|---|---|
| backend/server.py:442-455 | the breach query matches breached issues at Principal, `to_list(1000)` keeps the first 1000, and the loop then skips the Principal ones | 1000 Open Food issues at Principal with passed deadlines stored ahead of one Open Food issue at Staff with a passed deadline (a Food issue escalated twice to Principal and then updated is In Progress again with its old deadline) | the 1000 places go to issues the sweep can escalate, so every breached issue below Principal is eventually escalated | medium; not executed | `SlaWindow.SweepWindowBlocked` | `SlaWindow.FixedSweepProgress` |

The store keeps the sweep as the handler has it (`SlaSweep.Sweep`);
`SlaWindow.FixedSweep` is the corrected definition, and
`SlaWindow.FixedSweepAgrees` shows that the two agree whenever no breached
issue sits at Principal.
