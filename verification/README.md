# fasten: a model of the audit chain, its replication, its drainer and its codecs

fasten keeps an audit log: every row a node writes is hashed, linked to the row
before it, stored, shipped, redacted and in the end purged. This project models
the parts of it that have to hold on every run, in Dafny, and proves what the
code and its documentation promise about them. Where a promise does not hold of
the code, the model keeps what the code does, shows the input, and proves
exactly when the promise does hold. Nothing was executed.

`dafny verify dfyconfig.toml` checks the whole project.

## What is modelled

**The chain and its store** (`Sealing`, `Brackets`, `RowLaws`, `PyRows`, `Verify`,
`Copies`, `Walk`, `GoVerifier`, `JoinedKeys`, `JoinedVerdicts`, `PyVerifier`,
`VerifyLaws`, `History`, `Store`, `SqlStore`). The verdict on a list of rows is
defined once, without an order of work, as the lowest seq of any break
(`Verify.FirstBreak`). Go's verifier, one walk over all nodes with a map per
question, and Python's, one walk per node, are both proved to return it, Go's as
long as its joined keys tell the rows apart. The store is a class over a table of
rows; each of its methods is proved to be one step of a transition system, and
every run of that system from an unchained table verifies, with both verifiers.

**Replication and checkpoints** (`IngestSpec`, `IngestLaws`, `IngestInputs`,
`Ingest`, `Replication`, `Anchors`, `CheckpointLines`, `JsonStable`,
`CheckpointLog`, `Redaction`). Ingest cuts a batch at its first break and at its
first conflict with the store and inserts the rest. For any batch it is proved
when that keeps the receiver linked, when the reported cut is exact, when the
call fails and what a second delivery does; windows of a source's chain converge
on it. The checkpoint file survives publishes that stop after
any byte. PII retention records a row before its detail is destroyed, whatever
call fails.

**The drainer** (`Drainer`, `DrainerLaws`, `BackoffDelay`, `Handle`). The Rust
drainer is a transition system with one step per lock region or atomic access,
any number of enqueuing, flushing and stopping threads and one drain thread
whose store may store, fail, reject or panic. The C++ handle around it is a
second one.

**Codecs** (`Json`, `Encoders`, `Timestamps`, `TimeParsers`, `CppStrings`, `CppFields`,
`CppRows`, `CppRowLaws`). Canonical JSON with its two treatments of DEL, the two
timestamp renderings, and the hand-written C++ JSON printer and parser.

SHA-256 is a parameter `sha`. `DigestLike(sha)` (a digest is not empty and holds
no DEL) and `Collisionless(sha)` are assumed only by the members that name them.

## What the code does not promise after all

- The two row checks differ on a form 1 row without detail, a form 2 row without
  commitment and a row with an empty wire version: at most one SDK accepts such a
  row (`PyRows.OneRejects`). They also differ on a redacted row whose only DEL is in
  its commitment (`PyRows.DelInCommitmentAlone`). On a row, whatever hash it carries,
  they agree if and only if it is none of these, or has an unknown form, or a detail
  that its commitment is not to (`PyRows.ChecksAgreeExactly`); so it is with the
  verdict on the row (`VerifyLaws.LoneVerdictsAgree`).
- Go's timestamp parser takes more than the canonical form: an hour of one digit, a
  comma before the fraction, a sign in place of its first digit, and the year 0
  (`TimeParsers.GoParseExact`); Python's takes the canonical form from year 1 on
  (`TimeParsers.PyParseExact`). Choosing checkpoints by a cutoff has one outcome in
  both if and only if every anchor is canonical and of year 1 or later, or some anchor
  is none that Go takes and both fail (`Anchors.SinceAgree`). `Anchors.SincePart` is an
  anchor that Go keeps and Python fails on.
- Go joins a row's key from node and id with a NUL. Two rows share a key if and only
  if they are copies of one row or the NUL in one node id makes its rest read as the
  other's id (`JoinedKeys.JoinedKeyExact`). Go then drops one and reports a break where
  Python finds none (`JoinedKeys.SharedKeyBreaks`). The two look at the same copies if
  and only if the keys are faithful on the rows given (`JoinedKeys.SameCopiesExactly`).
  On rows without a break Go finds none either if and only if no two sealed rows but
  copies of one row share a key (`JoinedVerdicts.CleanVerdictExactly`).
- Marking a row as shipped breaks it exactly when its hash only checks out over
  the shipped time it had before (`RowLaws.ShipKeepsRow`).
- Redacting a sealed form 1 row would break it exactly when it has a detail to
  lose (`RowLaws.RedactForm1`), so both SDKs are right to refuse one.
- SQLite returns a sealed row that was not stored when the id is taken
  (`Store.SqliteReturnsStored`); Postgres returns the stored one.
- An ingest reads a conflict at seq 0 as none, and a report of 0 says that nothing was
  rejected. So a row at seq 0 is stored in front of a row that does not link to it, with
  nothing reported (`IngestInputs.SeqZeroUnlinks`). The store stays linked if and only if
  the lowest conflict is not at 0, or no row of the verified prefix misses a link to what is
  stored (`IngestSpec.IngestKeepsLinked`). The call fails if and only if, after such a
  conflict, a row would have to take another's id or place (`IngestLaws.Fails`,
  `Ingest.IngestReplicated`).
- A batch that breaks at seq 0 is reported as one with nothing rejected
  (`IngestInputs.ZeroReportsNothing`). All sealed rows below the reported seq, or all if it
  is 0, are stored if and only if the batch does not break at seq 0 or those from there on
  were stored before (`IngestLaws.CutIsExact`).
- Ingesting a batch twice may end differently, because an unsealed row is exposed once a
  sealed row of its node is stored below it. The report is the same if and only if no row is
  exposed below the first conflict or, without one, the lowest exposed row is at seq 0 or
  there is none. The table is the same if and only if the lowest exposed row is not at seq 0
  with a conflict above it, or no row from that conflict on is new
  (`IngestLaws.IngestTwice`). With an unsealed and a sealed copy of one row the two reports
  differ (`IngestInputs.UnsealedCopyReported`); with rows around seq 0 the second delivery
  stores a row that the first one refused (`IngestInputs.ConflictHidden`).
- A C++ string comes back from JSON as it was exactly when it is valid UTF-8
  (`CppStrings.RoundTripExact`); a row exactly when its strings are, its detail keys
  are not empty and `_pii_in_detail` is true or false (`CppRowLaws.RowRoundTrip`).
- The backoff multiplication overflows for some attempt exactly when
  retry_initial times 2^32-1 is out of range (`BackoffDelay.NeverPanics`). With jitter
  the delay stays within a fifth of what it was exactly when its milliseconds fit 64
  bits (`BackoffDelay.DelayWithJitter`).

## Model

| member | source | states |
|---|---|---|
| `Json.CanonReadsBack` | go/verify.go:467-490 | a JSON reader gets every value back from its canonical text, with DEL escaped or raw, whatever follows the text |
| `Json.CanonInjective` | python/fasten/chain.py:39-55 | two values with the same canonical text are equal, even when one text has DEL escaped and the other raw |
| `Encoders.PadHex` | go/verify.go:551-557 | the padding loop yields the four hex digits of the code unit |
| `Encoders.EscapeRune` | go/verify.go:507-535 | one character becomes itself, one `\u` escape or a surrogate pair, as the canonical form asks |
| `Encoders.IsPlain` | go/verify.go:541-548 | the scan says whether escaping would change the text |
| `Encoders.AsciiEscapeText` | go/verify.go:501-538 | the loop with its early exit escapes every character of the text |
| `Encoders.GoCanonical` | go/verify.go:474-490 | Go's two steps, encode and then escape over the whole text, give the canonical form of every value |
| `Encoders.RewriteCanon` | python/fasten/chain.py:44-55 | Python's left-to-right rewrite turns the escaped form into the raw one and stops where the value ends |
| `Encoders.FallbacksAgree` | python/fasten/chain.py:49-55 | for every value, Python's rewrite and Go's encoder with DEL left raw give the same text |
| `Encoders.EncodingsCoincide` | go/verify.go:492-496 | the two encodings of a value are equal if and only if it holds no DEL |
| `Timestamps.FromToCivil` | go/canonical_ts.go:13-18 | the calendar fields of a microsecond count in years 0 to 9999 give the count back |
| `Timestamps.ToFromCivil` | go/canonical_ts.go:24-33 | and valid calendar fields come back from the count they give |
| `Timestamps.CanonicalOrder` | go/canonical_ts.go:13-18 | string order of canonical timestamps is time order, both ways (section 5.1 of RFC 3339) |
| `TimeParsers.GoParseExact` | go/canonical_ts.go:24-33 | Go reads t from a text if and only if the text is one of the spellings of t that time.Parse takes for this layout: hour of one or two digits, point or comma, a fraction of six digits or with a sign in front of five |
| `TimeParsers.CanonicalIsSpelling` | go/canonical_ts.go:13-33 | the canonical text of t is one of them |
| `TimeParsers.PyParseExact` | python/fasten/canonical_ts.py:32-43 | Python reads t from a text if and only if it is the canonical text of t and t is not in year 0 |
| `TimeParsers.CommaParts` | python/fasten/canonical_ts.py:32-43 | every time has a text that Go reads as it and Python rejects |
| `TimeParsers.ShortHourParts` | python/fasten/canonical_ts.py:32-43 | 2026-08-21T1:00:00.000000Z is one such text |
| `Timestamps.HashedTsIsPyIso` | python/fasten/chain.py:100-110 | Python's hashed form of a canonical timestamp is what Go renders for hashing |
| `Timestamps.PyIsoInjective` | go/verify.go:457-465 | the hashed rendering, which drops a zero fraction, is injective on microseconds |
| `Timestamps.RenderingsDisjoint` | go/verify.go:346-358 | no time's hashed rendering is any time's canonical one, so the form 1 fallback never mistakes one for the other |
| `Anchors.CheckpointsSince` | go/checkpoints.go:263-275 | the loop keeps the checkpoints whose anchor Go reads as at or after the cutoff, in order, and fails on an anchor it does not read |
| `Anchors.CheckpointsSinceByText` | python/fasten/checkpoints.py:233-254 | the string comparison keeps the checkpoints whose anchor Python reads as at or after the cutoff, in order, and fails on an anchor it does not read |
| `Anchors.SinceKeeps` | go/checkpoints.go:250-275 | a checkpoint is kept if and only if it was given and its anchor is not before the cutoff, whichever the parser |
| `Anchors.SinceAgree` | python/fasten/checkpoints.py:233-254 | the two calls have one outcome if and only if every anchor is canonical and of year 1 or later, or some anchor is none of the spellings that Go takes |
| `Anchors.SincePart` | go/checkpoints.go:263-275 | an anchor with an hour of one digit, which Go keeps and Python fails on |
| `Sealing.HashedDel` | go/verify.go:407-449 | the hashed object holds a DEL if and only if a hashed field, the payload or the shipped time does |
| `Brackets.ObjectSplits` | go/verify.go:334-344 | canonical objects behind any two texts: if the whole texts are equal, so are both parts |
| `RowLaws.SealIsWellSealed` | go/verify.go:47-59 | sealing any row gives a form 2 row with its own hash and commitment |
| `RowLaws.WellSealedOk` | go/verify.go:233-301 | such a row passes the row check |
| `RowLaws.UpdatesKeepSeal` | go/store.go:516-534 | shipping, redacting or storing such a row leaves one |
| `RowLaws.HashPinsRow` | go/verify.go:233-449 | two rows that check out under one hash agree on every hashed field, whichever form, fallback or encoding each used |
| `RowLaws.CommitmentPinsDetail` | go/verify.go:334-344 | equal commitments mean the same salt and the same detail, whatever text the salts are |
| `RowLaws.RowDel` | go/verify.go:494-496 | Go's test for DEL is true exactly when a string field, the wire version or the detail holds one |
| `RowLaws.RedactKeepsRow` | go/store.go:870-892 | a form 2 row that passes by either encoding passes after redaction |
| `RowLaws.RedactForm1` | python/fasten/chain.py:202-217 | a form 1 row that passes would still pass after losing its detail if and only if the detail was empty, which is what the refusal protects |
| `RowLaws.ShipKeepsRow` | go/verify.go:373-402 | a row that passes still passes with a new shipped time if and only if its hash leaves the shipped time out or the time is the old one |
| `RowLaws.StoredRowChecks` | go/store.go:202-242 | the row check gives the same answer on a row as the table returns it |
| `PyRows.RowChecksAgree` | python/fasten/chain.py:228-289 | Python's row check and Go's agree on every row with a wire version, a form 1 detail, and a form 2 commitment with no DEL of its own |
| `PyRows.ChecksAgreeExactly` | python/fasten/chain.py:228-289 | the two row checks give one answer on a row for every hash if and only if its form is unknown, its detail is not the committed one, or it is one that both read alike |
| `PyRows.OneRejects` | python/fasten/chain.py:91-149 | a row with one of those missing is never accepted by both |
| `PyRows.DelInCommitmentAlone` | python/fasten/chain.py:61-68 | a redacted row whose only DEL is in its commitment, shipped or not, hashed raw, passes Python's check and fails Go's |
| `Verify.Least` | go/verify.go:161-169 | the lowest break: none exactly when there are no breaks, else a break at or below every other |
| `Walk.StopIsBroken` | go/verify.go:185-227 | a row a walk stops at is broken in a sense that mentions no order: bad seal, seq taken, or bad link to its predecessor |
| `Walk.BrokenStops` | go/verify.go:185-227 | for every broken row a walk stops at or below its seq |
| `Walk.FirstStopIsLeast` | go/verify.go:172-229 | so the first stop of a walk in seq order is at the lowest seq of any broken row |
| `NodeIndexes.MismatchIsBreak` | go/checkpoints.go:358-380 | the check against a node's index finds exactly the breaks that the node's rows give a checkpoint |
| `NodeIndexes.FoundIsBreak` | go/checkpoints.go:329-347 | so does the lookup, including a node with no rows at all |
| `GoVerifier.Dedupe` | go/verify.go:132-160 | the loop keeps one copy per key and finds the lowest seq of two sealed copies that differ or do not check out, for any key |
| `GoVerifier.FindFirstSealed` | go/verify.go:190-195 | the map holds each node's lowest sealed seq |
| `GoVerifier.WalkChains` | go/verify.go:172-229 | the walk over all nodes, with its maps, returns the lowest seq of any broken row |
| `GoVerifier.FindNewest` | go/checkpoints.go:310-315 | the map holds each node's highest checkpointed seq |
| `GoVerifier.IndexRows` | go/checkpoints.go:316-328 | the indexes describe exactly the rows of the checkpointed nodes |
| `GoVerifier.FindCheckpointBreak` | go/checkpoints.go:306-347 | the loop returns the lowest seq of any checkpoint break |
| `GoVerifier.VerifyChainWithCheckpoints` | go/verify.go:126-169 | Go's verifier returns the lowest break over the copies its joined keys give, for every input and either partial setting; that is the lowest break of the rows while the keys are faithful on them |
| `JoinedKeys.JoinedKeyExact` | go/verify.go:139-140 | two rows share a key if and only if they are copies of one row, or one node id goes on with a NUL and the start of the other's id |
| `JoinedKeys.NoNulFaithful` | go/verify.go:139-140 | rows whose node ids hold no NUL have faithful keys |
| `JoinedKeys.SameCopiesExactly` | go/verify.go:132-160 | Go keeps the copies that Python keeps if and only if no two rows share a key but copies of one row |
| `JoinedKeys.SharedKeyBreaks` | go/verify.go:139-155 | two good rows of two nodes that share a key: Go drops one and reports a break, Python keeps both and reports none |
| `JoinedKeys.SharedKey` | go/verify.go:139-140 | such rows, for any two parts of a node id |
| `JoinedKeys.SeqKeyFaithful` | go/verify.go:207-215 | the joined key of node and seq is always faithful |
| `JoinedVerdicts.CleanVerdictExactly` | go/verify.go:126-169 | for rows without a break, Go's verdict over its joined keys finds none either if and only if sealed rows that share a key are copies of one row |
| `PyVerifier.Dedupe` | python/fasten/chain.py:403-422 | the nested dictionaries hold the same kept rows by node, and the same lowest copy break |
| `PyVerifier.NodeBreak` | python/fasten/chain.py:292-324 | one node's walk returns that node's lowest broken seq |
| `PyVerifier.WalkNodes` | python/fasten/chain.py:424-431 | the minimum over the nodes is the lowest broken seq of all rows |
| `PyVerifier.BuildIndex` | python/fasten/chain.py:327-335 | the node index describes exactly the node's rows |
| `PyVerifier.LowerByCheckpoints` | python/fasten/chain.py:434-449 | folding in the checkpoints lowers the break to the lowest checkpoint break |
| `PyVerifier.VerifyChain` | python/fasten/chain.py:363-453 | Python's verifier returns the same lowest break as Go's, for every input and either partial setting |
| `VerifyLaws.KeptIsChosen` | go/verify.go:132-160 | the kept copy of a row is its first sealed copy, or its first copy when none is sealed |
| `VerifyLaws.VerdictsAgree` | python/fasten/chain.py:363-453 | with each SDK's own row check the verdicts are equal whenever every sealed row is one on which the checks agree |
| `VerifyLaws.LoneVerdictsAgree` | python/fasten/chain.py:363-453 | on a row given alone the two verdicts are equal for every hash if and only if the row checks agree on it |
| `VerifyLaws.WholeChainExact` | go/checkpoints.go:306-380 | the whole-chain verdict is OK if and only if the rows alone are and every checkpoint has a row at its node and seq with its hash |
| `VerifyLaws.PartialExact` | go/checkpoints.go:358-380 | the partial verdict is OK if and only if the rows alone are and every checkpoint within its node's range has such a row |
| `VerifyLaws.IntactRows` | go/verify.go:104-106 | rows given once are OK if and only if none of them is broken |
| `History.Predecessor` | go/verify.go:172-229 | in a verified chain a sealed row above another links to the hash of a sealed row between them |
| `History.HashPinsHistory` | go/verify.go:172-449 | if two verified sets share a hash, every sealed row of one at or below it has a twin in the other with the same hashed fields, as long as the other reaches that far down |
| `History.CheckpointPinsHistory` | go/checkpoints.go:358-380 | the same for two lists of rows that both verify against one checkpoint and hold its row |
| `Store.StepKeepsChained` | go/store.go:269-338 | every allocate, ship, redact or purge step keeps the table chained: seals, unique places, links |
| `Store.EveryRunVerifies` | go/verify.go:104-301 | every run of such steps from a table without sealed rows leaves rows that both verifiers accept |
| `Store.AllocationLinks` | go/store.go:269-338 | a new row follows the node's tip; it starts from genesis after unsealed rows only, and from seq 1 on a node without rows |
| `Store.PurgeKeepsSuffix` | go/store.go:536-579 | purge keeps a numbered row if and only if its seq is at or above the node's lowest seq that is too young or unshipped; a row without a seq goes by age alone |
| `Store.PurgingKeepsChained` | go/store.go:546-579 | what purge leaves is chained |
| `Store.ShippingKeepsChained` | go/store.go:516-534 | so is what marking rows as shipped leaves |
| `Store.RedactingKeepsChained` | go/store.go:870-892 | and what redacting rows leaves |
| `Store.RedactTwice` | go/store.go:866-892 | redacting the same ids again changes nothing |
| `Store.CheckpointsSincePurgeAccepted` | go/checkpoints.go:178-192 | checkpoints taken from the tips at any points since the last purge are accepted after any further steps, by both verifiers |
| `Store.SqliteReturnsStored` | go/store.go:306-338 | the row SQLite's allocation returns is the stored one if and only if the id was new |
| `Store.PostgresReturnsStored` | go/store_postgres.go:270-344 | what Postgres returns always has the stored row's seq, link and hash; it refuses a row of another origin and then, or when the id is taken, changes nothing; the table stays chained |
| `SqlStore.SqliteStore.MaxSeq` | go/store.go:306-315 | the scan finds the node's highest seq, or 0 |
| `SqlStore.SqliteStore.Tip` | go/store.go:317-326 | the scan finds the hash of the node's highest sealed row, or genesis |
| `SqlStore.SqliteStore.InsertRowExec` | go/store.go:202-242 | a row is added unless its id or its node and seq are taken, and the count says which |
| `SqlStore.SqliteStore.AllocateAndInsertOriginated` | go/store.go:269-338 | the method is one allocation step of the model, refuses a replicated row, and returns the row it sealed |
| `SqlStore.SqliteStore.MarkShippedRows` | go/store.go:516-534 | the scan marks every listed row and changes no other, however often an id is listed; a chained table stays chained |
| `SqlStore.SqliteStore.Redact` | go/store.go:870-892 | the scan clears every listed row that no form 1 hash covers and changes no other; a chained table stays chained |
| `SqlStore.SqliteStore.Bound` | go/store.go:546-565 | the scan finds the seq from which purge keeps the node's rows |
| `SqlStore.SqliteStore.PurgeRows` | go/store.go:546-579 | the scan with its bounds is one purge step and returns how many rows it deleted; a chained table stays chained |
| `SqlStore.SqliteStore.ChainTips` | go/store.go:593-612 | the result holds exactly the tips, strictly ordered by node, so one per node |
| `SqlStore.TakeCheckpoints` | go/checkpoints.go:178-192 | one checkpoint per node with a tip, each with a tip's seq and hash |
| `IngestSpec.PrefixRow` | go/ingest.go:48-69 | every row of the verified prefix is sealed, checks out, links, has its place to itself and is below the break |
| `IngestSpec.PrefixCovers` | go/ingest.go:48-69 | every sealed row of the batch below the break has a copy with its hash in the prefix |
| `IngestSpec.PrefixDistinct` | go/ingest.go:48-69 | rows of the prefix on one node differ in id and in seq |
| `IngestSpec.IngestKeepsLinked` | go/ingest.go:237-309 | for any batch: if ids and places are unique, sealed rows check out and neighbours link, all of that holds after the ingest if and only if, where the lowest conflict is at seq 0, no row of the prefix misses a link to what is stored next to it |
| `IngestLaws.CutIsExact` | go/ingest.go:237-309 | for any batch: every sealed row below the reported seq, or every one when 0 is reported, is stored if and only if the batch does not break at seq 0 or such rows from seq 0 on were stored before; every new row is a sealed batch row below the reported seq |
| `IngestLaws.IngestTwice` | go/ingest.go:140-195 | for any batch: the second result is the first one's if and only if the lowest exposed unsealed row is not below the first conflict, or at a seq other than 0 where there was none; the table is the same if and only if an exposed row at seq 0 does not hide a conflict above it with rows left to take |
| `IngestInputs.UnsealedCopyReported` | go/ingest.go:73-81 | two linked rows and an unsealed copy of the second, into an empty store: the first delivery stores both and reports 0, the second stores nothing and reports seq 2 |
| `IngestInputs.SeqZeroUnlinks` | go/ingest.go:269-282 | a sealed row at seq 0 in front of a stored row at seq 1 that links to genesis: it is stored, the result is (1, 0), and the store that was linked no longer is |
| `IngestInputs.ZeroReportsNothing` | go/ingest.go:48-69 | a row at seq 0 that does not check out: nothing is stored and the result is (0, 0) |
| `IngestInputs.ConflictHidden` | go/ingest.go:140-195 | rows at seq -1, 0 and 2 with an unsealed copy at 0 and a stored row that the last does not fit: reported as (2, 2) the first time, (3, 0) the second, which stores the last row |
| `IngestLaws.FailsOverlooked` | go/ingest.go:283-299 | a row has to take the id or place of another only after a conflict at seq 0 was read as none |
| `IngestSpec.GoCheckFixesPlace` | go/verify.go:233-301 | with Go's row check, equal hashes mean the same id, node, seq and link, as the theorems on ingest need |
| `IngestSpec.GoCheckStoreStable` | go/store.go:202-242 | Go's row check does not mind the defaults that storing fills in, as they need too |
| `IngestLaws.GoIngests` | go/ingest.go:237-309 | with Go's row check and a hash without collisions, both if-and-only-ifs: when an ingest keeps the store linked and when the reported seq is exact |
| `Ingest.VerifiedPrefix` | go/ingest.go:48-69 | the loop, over Go's own verify with its joined keys, returns the prefix and the seq of the first break, or 0 |
| `Ingest.SkippedUnsealed` | go/ingest.go:73-81 | the filter returns the unsealed rows below the break, or all when it reads as 0 |
| `Ingest.SealedBelow` | go/ingest.go:124-133 | the lookup says whether the node has a sealed row below the seq |
| `Ingest.AtSeq` | go/ingest.go:112-121 | the lookup returns the row at the node and seq, if any |
| `Ingest.StoredConflict` | go/ingest.go:140-195 | the ordered loop returns the lowest seq of any conflict with the store or within the prefix, or 0 |
| `Ingest.InsertAll` | go/ingest.go:283-299 | either every accepted row is held with its hash and nothing else is added, or the table is rolled back; the latter never where each row has its place free or its copy stored |
| `Ingest.IngestReplicated` | go/ingest.go:208-309 | for any batch the method is one ingest of the model or an error that changes nothing, and it is an error if and only if an accepted row would have to take another's id or place |
| `Ingest.LowestLocal` | go/ingest.go:416-432 | the loop finds the local node's lowest seq in the batch |
| `Ingest.IngestReplicatedFor` | go/ingest.go:416-450 | no row of the local node is stored and the reported cut is at or below that node's lowest seq; the rows below that are ingested as a batch of their own; it is an error if and only if a local row has no seq or that ingest is one, and an error changes nothing |
| `Replication.WindowVerifies` | go/ingest.go:48-69 | a window of a source's chain, in any order and with repeated, redacted or shipped copies, has no break |
| `Replication.WindowFits` | go/ingest.go:140-195 | no copy of a source row conflicts with a receiver that holds the chain up to k |
| `Replication.WindowConverges` | go/ingest.go:237-309 | ingesting window i..j with i <= k+1 into a receiver holding 1..k reports no break and leaves exactly 1..max(k,j), and no other node's rows change |
| `Replication.WindowTaken` | go/ingest.go:208-309 | and no row of a window has to take the id or place of another, so the call does not fail |
| `Replication.HeldChainVerifies` | go/verify.go:126-229 | the receiver's rows of that node verify |
| `Replication.MarkedCopies` | go/store.go:870-892 | redacted form 2 copies, and shipped copies of rows hashed without the shipped time, are copies in that sense |
| `JsonStable.ValueStable` | go/checkpoints.go:279-301 | a value read to its delimiter reads the same whatever is appended |
| `JsonStable.PrefixInvalid` | go/checkpoints.go:75-105 | no proper prefix of a JSON object is valid JSON |
| `CheckpointLines.LineReads` | go/checkpoints.go:43-53 | a published line reads back as one JSON object |
| `CheckpointLines.LineParses` | go/checkpoints.go:279-301 | parsing a published line gives the checkpoint back, for every 64-bit seq |
| `CheckpointLines.LineIsOneLine` | go/checkpoints.go:43-53 | it holds no newline |
| `CheckpointLog.EndLastLine` | go/checkpoints.go:75-105 | for every file length the backward scan in 4096-byte chunks finds the last line, drops it when it is not valid JSON and asks for a newline when it is |
| `CheckpointLog.TailValid` | go/checkpoints.go:75-105 | what is left of a cut publish is valid if and only if its object was fully written |
| `CheckpointLog.PublishKeeps` | go/checkpoints.go:43-70 | a publish cut after any byte leaves a log whose fully written checkpoints are the old ones and those that got through |
| `CheckpointLog.FileCheckpointSink.Publish` | go/checkpoints.go:43-70 | the method repairs the end and appends what was written before the cut |
| `CheckpointLog.LoadCheckpoints` | go/checkpoints.go:217-248 | the line loop returns the parsed checkpoints, an unfinished last line or a bad line |
| `CheckpointLog.CrashSafe` | go/checkpoints.go:217-248 | after any sequence of cut publishes loading never reports a bad line, returns in order exactly the fully written checkpoints, and reports an unfinished line exactly when the next publish would drop one |
| `Redaction.ListRedactionCandidates` | go/store.go:821-863 | the result is exactly the expired rows of the given codes, form 2 or unsealed, that still have a detail, in seq order, and the number of those passed over because a form 1 hash covers their detail |
| `Redaction.RedactListed` | go/retention_redaction.go:115-141 | the loop with a fault at any insert or redact call is one pass of the model |
| `Redaction.RedactExpired` | go/retention_redaction.go:83-141 | so is the whole method, over exactly the candidates |
| `Redaction.PassCounts` | go/retention_redaction.go:115-141 | a pass adds records only for rows it redacts or fails on |
| `Redaction.RecordsBounded` | go/retention_redaction.go:70-141 | over any run of passes and store steps a row has at most one record more than at first, one per pass that failed on it, and one per record stored by others or purge of the row |
| `Redaction.RecordBeforeDestroy` | go/retention_redaction.go:70-141 | over any run of passes and store steps, purges and other callers' redactions included, a row that kept its place and lost its detail did so at another caller's redaction of it or at a pass that left a stored AUDIT_ROW_REDACTED row naming it, which stays until a purge |
| `Redaction.StaysUnpurged` | go/store.go:546-579 | without a purge every row keeps its place |
| `Redaction.HistoryVerifies` | go/engine.go:524-587 | over any such run the store still verifies, with both verifiers |
| `DrainerLaws.StepInv` | fasten-core/src/drainer.rs:194-570 | every step of every thread keeps the invariant |
| `DrainerLaws.ConservedStep` | fasten-core/src/drainer.rs:380-448 | the accepted rows are, in order, the finished ones, the one in flight and the queue |
| `DrainerLaws.SlotsStep` | fasten-core/src/drainer.rs:66-98 | until stop, free slots, slots held by enqueuers, the queue and the row in flight add up to the capacity |
| `DrainerLaws.BoundedStep` | fasten-core/src/drainer.rs:93-97 | the queue and the row in flight never exceed the capacity, even after all slots are released |
| `DrainerLaws.Conservation` | fasten-core/src/drainer.rs:194-257 | in every reachable state accepted = drained + dead-lettered + lost at stop + in flight + queued, each accepted row is in exactly one of them, and the capacity holds |
| `DrainerLaws.NothingLeftBehind` | fasten-core/src/drainer.rs:332-378 | once the drain thread has exited without panicking the queue is empty for ever and every accepted row has an outcome |
| `DrainerLaws.FlushStep` | fasten-core/src/drainer.rs:261-290 | every step keeps what a true flush claims |
| `DrainerLaws.FlushIsSound` | fasten-core/src/drainer.rs:261-290 | when flush returns true every row accepted before it began has an outcome, whether or not stop raced it |
| `DrainerLaws.TriesInOrder` | fasten-core/src/drainer.rs:399-446 | rows are tried in acceptance order, at most max(1, max_attempts) times each and at most once after stop |
| `DrainerLaws.StopTerminates` | fasten-core/src/drainer.rs:332-356 | after stop every worker step lowers a measure that no other step raises |
| `DrainerLaws.StopBound` | fasten-core/src/drainer.rs:332-356 | so the worker takes at most that many steps in all |
| `DrainerLaws.WorkerGoesOn` | fasten-core/src/drainer.rs:380-448 | and until it has exited it always has a step to take |
| `BackoffDelay.NeverPanics` | fasten-core/src/drainer.rs:578-601 | no attempt overflows if and only if retry_initial times 2^32-1 is a duration |
| `BackoffDelay.DelayMonotone` | fasten-core/src/drainer.rs:578-601 | without jitter the delay grows with the attempt and stays at or below retry_max |
| `BackoffDelay.JitterBounded` | fasten-core/src/drainer.rs:578-601 | jitter, with its wrapping 64-bit arithmetic, stays within a fifth of the delay |
| `BackoffDelay.DelayWithJitter` | fasten-core/src/drainer.rs:578-601 | the jittered delay stays within a fifth of the capped one, in whole milliseconds, if and only if those fit 64 bits |
| `Handle.StepInv` | cpp/include/fasten.hpp:910-984 | every step of put, stats, flush and shutdown keeps the invariant |
| `Handle.AccessSafe` | cpp/include/fasten.hpp:1034-1054 | every step that uses or frees the store finds it not yet freed |
| `Handle.HandleSafe` | cpp/include/fasten.hpp:970-984 | in every reachable state the store was never misused, is freed at most once, and is freed when the handle reports closed |
| `CppStrings.SeqLenExact` | cpp/include/fasten.hpp:215-234 | a sequence of some length is found if and only if the UTF-8 encoding of a character beyond ASCII, of that length, stands there (section 4 of RFC 3629) |
| `CppStrings.ValidIsEncoded` | cpp/include/fasten.hpp:215-234 | the strings that pass as valid are exactly the encodings of sequences of characters |
| `CppStrings.WriteJsonStr` | cpp/include/fasten.hpp:238-272 | the loop writes the encoding of every byte or sequence |
| `CppStrings.Unescape` | cpp/include/fasten.hpp:364-412 | the position ends on the escape's last character and the text is the escape's value, surrogate pairs included |
| `CppStrings.ReadJsonStr` | cpp/include/fasten.hpp:416-426 | the loop returns the value and stops on the closing quote or at the end |
| `CppStrings.EncReads` | cpp/include/fasten.hpp:238-272 | reading what was written gives the string with every invalid byte as U+FFFD, for all bytes, and stops on the closing quote |
| `CppStrings.JsonStrRoundTrip` | cpp/include/fasten.hpp:416-426 | a valid UTF-8 string reads back as itself (section 7 of RFC 8259) |
| `CppStrings.RepairedValid` | cpp/include/fasten.hpp:238-272 | the repaired string is valid UTF-8 (section 4 of RFC 3629) |
| `CppStrings.RoundTripExact` | cpp/include/fasten.hpp:416-426 | a string reads back as itself if and only if it is valid UTF-8 |
| `CppFields.FieldsToJson` | cpp/include/fasten.hpp:277-310 | the loop writes each field once, in byte order of the keys, as text, boolean or number |
| `CppFields.ReadFieldValue` | cpp/include/fasten.hpp:456-472 | the value branches read one value and pass over what is not one |
| `CppFields.ParseFlatJsonFields` | cpp/include/fasten.hpp:438-475 | the index loop parses the object's flat fields, on any input |
| `CppFields.FieldsRoundTrip` | cpp/include/fasten.hpp:298-475 | fields parse back as they were if and only if their strings are valid UTF-8, their keys are not empty and `_pii_in_detail` is true or false |
| `CppRows.PassString` | cpp/include/fasten.hpp:742-789 | the scan ends behind the string's closing quote, or past the end when there is none |
| `CppRows.PassNested` | cpp/include/fasten.hpp:742-789 | the scan ends behind the bracket that closes the value, brackets in strings not counted |
| `CppRows.JsonMembers` | cpp/include/fasten.hpp:742-789 | the loop splits an object into its members, on any input |
| `CppRows.ReadRow` | cpp/include/fasten.hpp:792-828 | the row is built from the members column by column |
| `CppRows.KeysDiffer` | cpp/include/fasten.hpp:1304-1332 | no two columns share a key |
| `CppRowLaws.PassEnc` | cpp/include/fasten.hpp:742-789 | the member scan passes over any written string, whatever bytes it holds |
| `CppRowLaws.MemberReads` | cpp/include/fasten.hpp:742-789 | a written member reads back as its key, its text and what follows |
| `CppRowLaws.DetailSolid` | cpp/include/fasten.hpp:742-789 | a written detail, whatever its strings hold, is passed over as one value |
| `CppRowLaws.RowRoundTrip` | cpp/include/fasten.hpp:1304-1332 | a row, with its 64-bit seq, reads back as it was if and only if its strings are valid UTF-8, its detail keys are not empty and `_pii_in_detail` is true or false |

## Left out

- SHA-256 and random salts: `sha` is any function; what a member needs of it is in its `requires`.
- Transactions, locks and SQL: each store call is one atomic step on the table, and its scans are loops over the rows.
- Number re-rendering: a stored detail comes back as it went in.
- Invalid UTF-8 in Go and Python strings: strings there are sequences of Unicode characters.
- Encoders.EscapeRune: the branch for bytes that are not UTF-8 is not modelled, because the JSON encoder in front of it never lets one through.
- Encoders.AsciiEscapeText: the same branch, for the same reason.
- Sub-microsecond times, and years outside 0 to 9999: a time is a microsecond count.
- TimeParsers.GoParseExact: what time.Parse takes for this layout is Go's library, stated here field by field.
- TimeParsers.PyParseExact: fromisoformat is that of Python 3.10 to 3.13; later ones also read hour 24 as the next midnight.
- Ingest.IngestReplicated: the retry after a concurrent insert is not modelled, since the write lock rules it out.
- Redaction.RedactExpired: record rows are given as parameters with new ids, as the engine makes them; the drainer's non-durable path is not modelled.
- CheckpointLog.EndLastLine: the file is its text, and the bytes of a character that was cut stand as single characters.
- CheckpointLines.LineReads: Go's line only; Python writes spaces after separators.
- DrainerLaws.FlushIsSound: timings and wake-ups are left out, a waiting thread may go on whenever its condition holds, and a flush may time out at any point.
- DrainerLaws.StepInv: atomics are sequentially consistent, but the worker's look at the stop flag may be stale.
- Handle.HandleSafe: the core's own calls are single steps.
- Reason strings, system events, stdout lines, last-error fields and high-water marks.
- The HTTP checkpoint sink, HTTP readers, tenant scoping, the CLI, stream stores and paging.
- The Go, Python and JavaScript drainer wrappers, FFI layers and other SDKs.
- Redaction by key pattern, code catalogues, YAML loading, duration parsing and query translation: they would add easy members or rest on regex libraries.
