# ComicStream, verified

A Dafny model of the logic of ComicStream, a server that scans a directory of comic archives into a
small database and publishes it as an OPDS catalogue. It covers the library scanner and its trigger
loop, the queries behind the catalogue pages, the authentication rate limiter, the search compiler,
natural sorting, thumbnail publication, the archive cache, range requests and the feed printer.
`dafny verify dfyconfig.toml` checks the whole project.

## How it is organised

**The scanner** (`src/scan.rs`, `migrations/`).

- `Catalog` — the two tables, their constraints, the two upserts, and deletion with `ON DELETE CASCADE`.
- `Walk` — the pre-order walk as a work list, one turn of its loop, and the `path_to_id` map.
- `Marking` — what a walk of a real tree stamps, and what it leaves in the tables for each entry.
- `Sweeping` — the prune: which rows are left, and when that is exactly the stamped ones.
- `Incremental` — a scan of a used database against a scan of an empty one.
- `Mirror` — the tables a scan leaves against the visible tree itself.
- `History` — any number of scans, complete or cut off, over a library that changes and moves.
- `Scanner` — the imperative scanner: a class holding the tables, proved against the functions above.
- `Rescan` — a rescan after any history of earlier scans: when it mirrors the tree, and when its cover tokens are those
  of a first scan.
- `Listing`, `Queries`, `Browse` — `ORDER BY sort_key`, the recursive queries behind covers, and the links between folder feeds.
- `Trigger` — the capacity-1 channel, the draining worker and the senders, as a state machine.
- `Prewarm` — thumbnail generation after a scan: the files it leaves and the totals it logs.

**The rest.**

- `RateLimit`, `Auth` — the limiter as a class, whole runs of it, its verdicts from the failure times alone, and requests
  split into check / verify / record steps that interleave.
- `Search` — LIKE with an escape character and glob matching, defined independently, and the compiler between them.
- `NatSort` — the two-cursor comparator and the padded sort key, related through a token view of names.
- `Pages`, `ArchiveCache` — opening an archive, and the LRU cache that opens outside its lock.
- `ThumbNames`, `Thumb` — path constructors, and publication through temporary files as a protocol over inodes.
- `Ranges` — the range parser, the bytes it selects, and section 2.1 of RFC 7233 as an independent reference.
- `Template`, `Opds`, `FeedReader`, `OpdsForms` — format strings with holes, the feed printer, a reader for
  its output, and the literal lines of the feed.
- `Wrappers`, `Text` — options, characters, decimal numerals and code-point order.

## Reading the model

- **Tables** are maps from path to row, because `path` is unique; `id` is a field, taken from a counter that
  never goes back (`AUTOINCREMENT`). Foreign keys are checked by id. `Wellformed` is the tree invariant: ids and
  slugs are unique, and a row's parent id is the id of the row at its directory's path.
- **The library** is a finite tree. The order of a directory's children is arbitrary, so every result holds for
  the natural-sort order the walker asks for. What `find_cover` and `find_description` would read is part of a
  directory's data; a file carries the result of `stat`, of hashing and of opening it.
- **Histories** are sequences of visits: a scan of any root, over entries that need not belong to one tree, cut off at
  any statement. `Trigger` and `Rescan` start from what any such history leaves in an empty database.
- **Outside influences are parameters.** `Config.faults` is the set of rows whose write fails, `trouble` the
  statement after the walk that fails, `started` the clock, `slug` the path hash. Where a result needs it, the
  directories that occur are assumed to have distinct slugs, and a file of unchanged path, time and size to have
  unchanged content (`Incremental.World`).
- **Ties.** `ORDER BY sort_key` names no tie-break; the queries here take rows of one key by id.
  `Browse.CoverIsIdIndependentIff` and `Rescan.TokenIsHistoryFreeIff` say exactly when that choice does not matter.

## Where the code and its promises part

- Rows that are gone from the tree can outlive a scan. None does if and only if none of them was last seen since the scan
  started while hanging under a kept folder or none (`Sweeping.PruneIsExactIff`, `Mirror.ScanMirrorsIff`). After any
  history on a clock that does not go back, that is: if and only if none of them was last seen in the very second the scan
  starts, since `started` counts whole seconds and the comparison is strict (`Rescan.RescanMirrorsIff`);
  `Sweeping.SameSecondSurvives` and, with the scan that left the row, `Rescan.RemovedWithinTheSecond` are examples.
- The sort key and the comparator agree on a name against all names of short runs if and only if its own digit runs have at
  most 20 characters (`NatSort.AgreesIffShort`, `NatSort.AgreementLimit`); `NatSort.TwentyOneDigits` is an example.
- The comment on the range parser says malformed values are ignored. They are if and only if the first position is not a
  number at or beyond the end of the file (`Ranges.MalformedIsIgnoredIff`); `Ranges.MalformedRefused` is the example
  `bytes=9-x` for a file of five bytes, which is answered with 416.
- A valid satisfiable range follows section 2.1 of RFC 7233 if and only if its numerals fit in 64 bits, and is ignored
  otherwise (`Ranges.FollowsRfc7233Iff`). A range whose last position is below its first is answered with 416, which
  section 4.4 of the RFC allows, and ignored if and only if its numerals do not fit (`Ranges.InvalidIsRefusedIff`).
- A `*` at the edge of a query changes nothing, as the comment on the compiler says, except on the empty query,
  which the guard in `run` answers with nothing (`Search.EdgeStarSearch`).
- The cover token is meant to be stable by content. A folder without a cover file gets the same token after every history
  of earlier scans if and only if its books of least key share one hash (`Rescan.TokenIsHistoryFreeIff`);
  `Rescan.TokenCanDiffer` is an example, `a.cbz` and `A.cbz` side by side.

## Model

| member | source | states |
|---|---|---|
| Catalog.CascadeIsLeastClosure | migrations/0001_init.sql:6 | the rows a delete takes along are the least set that contains the deleted folders and every child of a member |
| Catalog.UpsertFolderKeepsTree | src/scan.rs:346-405 | writing a folder under its directory's row keeps every constraint and the tree, keeps the id and the token of an existing row, gives a new row the next id, and fails only on a fault or a slug conflict |
| Catalog.UpsertBookKeepsTree | src/scan.rs:407-520 | the same for a book, on the fast path and the slow path; nothing but its own row changes |
| Catalog.PruneBooksKeepsTree | src/scan.rs:190-194 | deleting old books keeps the tree |
| Catalog.PruneFoldersKeepsTree | src/scan.rs:204-208 | deleting old folders, with both cascades, keeps the tree: no surviving row loses its parent row |
| Catalog.SetCoverVersionsKeepsTree | src/scan.rs:535-549 | storing tokens keeps the tree |
| Catalog.SupportedIff | src/archive/mod.rs:94-102 | a file is taken for an archive exactly if its name is a non-empty stem, a dot and one of `cbz`, `zip`, `cbr`, `rar` up to ASCII case, and its stem is then what comes before |
| Catalog.StemIsBeforeExtension | src/scan.rs:457-460 | the stem of any name is what comes before its extension, and the whole name if it has none or only a leading dot |
| Walk.SizeShrinks | src/scan.rs:101-114 | yielding an entry uses up the work list whether it is descended into or skipped, so the walk ends |
| Walk.StepKeepsTree | src/scan.rs:114-181 | one turn of the loop keeps the tree whatever entry the walker yields, and deletes nothing |
| Walk.VisibleDirIff | src/scan.rs:129-139 | a directory is entered exactly if its name does not begin with a dot and is none of the names that other software keeps |
| Walk.VisibleBookIff | src/scan.rs:133-166 | a file is a book exactly if its name does not begin with a dot and has an archive extension |
| Marking.NextKeepsReady | src/scan.rs:140-174 | on a real tree every entry's directory is in `path_to_id` and no path is seen twice, so both orphan branches are dead |
| Marking.RecordsStay | src/scan.rs:114-181 | no later turn revisits an entry |
| Marking.RecordIsReach | src/scan.rs:114-181 | the entries upserted are exactly the supported visible ones with no hidden, ignored or failed folder above them, whichever upserts fail |
| Marking.DriveTracks | src/scan.rs:346-520 | after the walk every path is untouched, or as its one upsert left it, decided by the entry and the row of the previous scan |
| Sweeping.UnstampedClosed | src/scan.rs:183-208 | the child rows of an unstamped folder are unstamped |
| Sweeping.SweepSparesStamped | src/scan.rs:190-208 | the cascade never removes a stamped row |
| Sweeping.MarkAndSweepIsExact | src/scan.rs:96-208 | if every earlier row was seen before `started`, the rows left are exactly the root and the entries stamped under stamped, visible folders |
| History.WalkKeepsSeenOrder | src/scan.rs:96-181 | while the clock does not go back, no row is seen later than the row above it |
| Sweeping.SweepIsFilter | src/scan.rs:190-208 | in that order the cascade adds nothing to the `WHERE` clause |
| Sweeping.PruneIsExactIff | src/scan.rs:190-208 | whatever the clock has done, the prune leaves exactly the stamped rows if and only if no unstamped row was seen since the scan started and hangs under a kept folder or none |
| Sweeping.SameSecondIff | src/scan.rs:83-86 | while the clock does not go back, it is exact if and only if no row left unstamped was seen in the second the scan started |
| Sweeping.SameSecondSurvives | src/scan.rs:204-208 | a removed folder that outlives a scan, for that reason |
| Incremental.FastPathAgrees | src/scan.rs:428-438 | with and without the stored row a file is stamped, skipped or failed alike |
| Incremental.FastPathRow | src/scan.rs:428-517 | the row left by the fast path is the row the slow path would insert, but for id and `added_at`, which it keeps |
| Incremental.FastPathIgnoresContent | src/scan.rs:428-438 | with the recorded size and time an upsert does not depend on the content of the file |
| Incremental.WalksAgree | src/scan.rs:96-181 | two walks of one tree from any two sound states have the same outcomes |
| Incremental.ScanLeaves | src/scan.rs:96-208 | everything one scan leaves at a path, in terms of the tree and its outcomes alone |
| Incremental.IncrementalEqualsFresh | src/scan.rs:407-520 | a scan of tables left by earlier scans leaves the folders and books that the same scan of an empty database leaves; surviving rows keep their ids, and books their `added_at`, which for a new book is the start of the scan |
| Mirror.StampedIff | src/scan.rs:407-458 | a file gets its row exactly if the write succeeds, the file has at most 4 GiB, and either its size and time are the recorded ones or it can be hashed, recognised and opened and has 1 to 10000 pages |
| Mirror.ScanMirrorsIff | src/scan.rs:75-208 | a fault-free scan leaves a row for exactly the visible folders and acceptable books of the tree, each with its own name, key, cover, description and times, and a book with the hash, the page count, the size of its file and the format of its archive, if and only if no row of the tables it starts from is missing from the tree, was seen since the scan started, and hangs under a folder of the tree or none |
| Mirror.ScanMirrorsInOrderIff | src/scan.rs:83-208 | while the clock does not go back: if and only if every row last seen in the second the scan starts is one the tree shows |
| Mirror.ScanMirrorsTree | src/scan.rs:75-208 | in particular it does if it starts later than anything was last seen |
| Mirror.TokensKeepMirror | src/scan.rs:210-210 | storing tokens does not disturb that |
| Mirror.MirrorNames | src/scan.rs:353-463 | in a mirror each folder below the root is named after its directory, each book after the part of its file name before the archive extension, and no row belongs to a dotted entry |
| History.TreeAtEveryStep | src/scan.rs:75-225 | the tree invariant holds in every state of every run: mid-scan, after a scan cut off at any statement, and after the library root changes |
| History.ParentGraphAcyclic | src/scan.rs:140-162 | in all those states each parent link leads to the row of the directory above, so there is no cycle |
| History.DriveIsFeed | src/scan.rs:114-181 | the walk of a tree is one such run of turns |
| History.ScanIsVisit | src/scan.rs:75-225 | a scan of a tree, complete or ended by any failing statement, is one such visit, and of a faithful tree a faithful one |
| History.RunsAreSound | src/scan.rs:75-225 | any run of faithful scans, cut off anywhere, leaves tables a later scan may rely on |
| History.RescanEqualsFirstScan | src/scan.rs:75-208 | after any such run, one later complete scan gives the index of a first scan, on a well-formed tree; old rows keep their ids and books their `added_at`, new ones get the start of the scan |
| History.VisitKeepsOrder | src/scan.rs:75-225 | a visit that starts no earlier than anything was last seen, cut off anywhere, leaves no row seen later than the row above it |
| History.RunsKeepOrder | src/scan.rs:75-225 | so does every run on a clock that does not go back |
| Rescan.RescanMirrorsIff | src/scan.rs:83-208 | after any such run, of this or other roots, a fault-free scan leaves exactly the visible tree if and only if every row last seen in the second it starts is one the tree shows |
| Rescan.RemovedWithinTheSecond | src/scan.rs:204-208 | a directory removed within the second of the scan that stamped it, after which a rescan does not mirror the tree |
| Rescan.RescanSameToken | src/scan.rs:531-549 | after any run of earlier scans a completed scan stores the token of a first scan where the books of least key share one hash |
| Rescan.TieShowsInToken | src/scan.rs:568-587 | where they do not, some earlier scan, cut off in the middle, makes it store another |
| Rescan.TokenIsHistoryFreeIff | src/scan.rs:531-534 | where no cover file applies, the token is the same after every history of earlier scans if and only if the books of least key share one hash |
| Rescan.TokenCanDiffer | src/scan.rs:531-534 | a library and a history for which the tokens differ |
| Scanner.Db.constructor | migrations/0001_init.sql:4-33 | a new database is empty |
| Scanner.Db.UpsertFolder | src/scan.rs:346-405 | the imperative upsert computes `Catalog.UpsertFolder` |
| Scanner.Db.UpsertBook | src/scan.rs:407-520 | the imperative upsert computes `Catalog.UpsertBook` |
| Scanner.Db.WalkTree | src/scan.rs:101-181 | the loop over an explicit work list and `path_to_id` computes the walk |
| Scanner.Db.DeleteOldBooks | src/scan.rs:190-194 | deletes the books seen before `started` |
| Scanner.Db.DeleteOldFolders | src/scan.rs:204-208 | deletes the folders seen before `started`, one generation of descendants at a time, and their books |
| Scanner.Db.RefreshCoverVersions | src/scan.rs:535-549 | every folder gets the token of its own query and nothing else changes; it stops at the first failing update |
| Scanner.Db.Scan | src/scan.rs:75-225 | the state after a scan for every statement at which it can fail, the query of the prewarm pass included, and success exactly when none does; the tree holds in every case |
| Scanner.TokensDoNotMatter | src/scan.rs:568-587 | tokens stored earlier in the refresh do not influence later ones |
| Scanner.TokensKeepTree | src/scan.rs:535-549 | tables that differ in tokens alone are well-formed together |
| Listing.OrderBy | src/routes.rs:123-133 | the rows of a query, each once, by key |
| Listing.FirstOfIsTop | src/search.rs:57-71 | what `LIMIT` lets through: distinct rows by key, and another row is missing only when the list is full, and then comes after all of it |
| Listing.ListingUnique | src/routes.rs:123-133 | with ids as tie-break there is one such list |
| Queries.DescendantFolders | src/scan.rs:577-582 | the recursive query stops on every well-formed table and returns the descendants, each once |
| Queries.FirstBook | src/scan.rs:568-572 | `ORDER BY sort_key LIMIT 1` with ids as tie-break gives the least candidate, and nothing exactly when there is none |
| Queries.JoinIsSubtree | src/scan.rs:583-587 | the join with the recursive table is the books in and below the folder |
| Queries.CoverVersionFor | src/scan.rs:551-592 | the token is the cover file's time if it can be read, else the hash of the least book of the folder, else of the least book below |
| Queries.ThumbnailCover | src/routes.rs:428-456 | the handler's two fallback queries choose by the same rule |
| Queries.FolderCover | src/routes.rs:409-457 | the whole cover request, by slug: 404, the cover file, or a book's thumbnail |
| Queries.CoverHashIsUnique | src/routes.rs:428-456 | the rule admits one answer |
| Browse.ScanLeavesOneRoot | src/routes.rs:98-103 | after a scan there is exactly one parentless folder, so `LIMIT 1` has one choice |
| Browse.ScanLeavesBrowsable | src/routes.rs:98-103 | so does the table after a completed scan, tokens included, and it is well-formed: the results on links below hold for it |
| Browse.BelowIsDescendant | src/routes.rs:438-447 | after a scan the descendants by links are the folders below by path |
| Browse.FolderFeed | src/routes.rs:105-145 | the feed of a slug lists exactly its child folders and its books, each once and in key order, and its parent; 404 exactly on an unknown slug |
| Browse.FeedLinks | src/routes.rs:118-133 | the entries of a feed are its subsection links and its books |
| Browse.FeedRows | src/routes.rs:118-133 | the rows of a feed are exactly the folders whose parent id, and the books whose folder id, is the id of the folder, each once, by `sort_key` |
| Browse.FeedIsUnique | src/routes.rs:123-133 | the order of a feed is determined |
| Browse.UpInvertsSubsection | src/routes.rs:123-145 | `up` undoes every subsection link and leads nowhere else |
| Browse.UpReachesRoot | src/routes.rs:135-145 | following `up` reaches the root in as many steps as the folder is deep, and the root has none |
| Browse.EveryBookReachable | src/routes.rs:118-133 | every catalogued book is listed in a feed that subsection links reach from the root |
| Browse.CandidatesByPath | src/routes.rs:428-450 | which books can give a folder its cover, by path |
| Browse.CoverTokenAgrees | src/scan.rs:531-534 | where no cover file applies, the stored token is the hash of the book whose thumbnail the request serves, and empty exactly when it finds none |
| Browse.CoverIsIdIndependentIff | src/scan.rs:568-587 | the choice is the same under every numbering of the rows if and only if the candidates of least key share one hash |
| Browse.SameIndexSameToken | src/scan.rs:531-549 | two tables of one index whose books of least key share one hash get the same token |
| Trigger.ReplyIsHonest | src/routes.rs:86-91 | "already pending" is answered exactly when the send changes nothing, and then a scan is owed; every send leaves one owed |
| Trigger.PendingUntilScan | src/scan.rs:56-58 | an owed scan stays owed until one starts, draining included |
| Trigger.NoTriggerLost | src/scan.rs:50-73 | in every interleaving each trigger is followed by a scan that starts after it, or one is still owed |
| Trigger.OwedScanCanStart | src/scan.rs:56-58 | whenever a scan is owed and none is running, the worker alone can start one, taking every message that was queued before with it |
| Trigger.ScansAreTriggered | src/scan.rs:50-73 | in every interleaving each scan that started has used up a trigger of its own that was answered "queued" |
| Trigger.QuietMeansCurrent | src/scan.rs:50-73 | whatever earlier processes left in the database: if the tree has stopped changing, a trigger came later, and the worker is idle on an empty channel, a scan has started since; if the last one succeeded in a later second than those before it, the database mirrors the tree |
| Trigger.ScanEndIsPossible | src/scan.rs:58-69 | what a scan over a tree that held still leaves, wherever it fails, is a possible end of the scan in this protocol, with faithful entries |
| Prewarm.PagesNeeded | src/scan.rs:252-256 | the pages without a thumbnail, each once |
| Prewarm.MakeAll | src/scan.rs:292-316 | goes on after a failure, makes everything that can be made, and counts the rest |
| Prewarm.PrewarmBook | src/scan.rs:241-321 | one book counts one cover and its page count of pages; skipped are those that were there, failed those that are still missing, generated the new files; nothing failed exactly when none of its thumbnails is missing |
| Prewarm.Prewarm | src/scan.rs:227-344 | the files left are those that were there and all that some book can make, also where books share a hash; every book and page is counted once and the generated counts are the number of new files |
| RateLimit.BucketIsPrefix | src/rate_limit.rs:16-25 | two addresses share a bucket exactly if equal or in one IPv6 /64 |
| RateLimit.Limiter.constructor | src/rate_limit.rs:60-67 | starts empty, with at least one attempt allowed |
| RateLimit.Limiter.CollectGarbage | src/rate_limit.rs:142-152 | keeps exactly the blocking and the recently touched entries |
| RateLimit.Limiter.CheckAt | src/rate_limit.rs:89-101 | collects, then answers from the address's own entry |
| RateLimit.Limiter.RecordFailureAt | src/rate_limit.rs:103-136 | rewrites one entry as the failure rule says and no other |
| RateLimit.Limiter.RecordSuccess | src/rate_limit.rs:82-85 | removes one entry and no other |
| RateLimit.CountsBounded | src/rate_limit.rs:112-135 | in every state of every run the count is at most `max_attempts`, below it while no block is set, so the saturating add never saturates |
| RateLimit.AlwaysRelated | src/rate_limit.rs:89-152 | after every run each entry is the one of a limiter that never collects, or missing where that one is spent |
| RateLimit.CollectionUnobservable | src/rate_limit.rs:138-152 | for all parameters and non-decreasing times every verdict is that of a limiter that never collects and sees only its own bucket |
| RateLimit.DivisionUnique | src/rate_limit.rs:103-136 | the failures of a bucket divide in one way into bursts of at most `max_attempts` within one window, each full one followed by those made while its block was in force |
| RateLimit.VerdictFromHistory | src/rate_limit.rs:84-136 | every verdict of every run follows from the times of the bucket's failures since its last success alone: during the block of a full last burst a check is refused with the time that is left, otherwise it is let through |
| RateLimit.BlockDuration | src/rate_limit.rs:89-136 | every block in the table was set by a failure of its bucket and ends one block duration after it: a check before that is refused with the time that is left, one from then on is let through |
| RateLimit.TableIsRecent | src/rate_limit.rs:138-152 | after a check the table holds only buckets that failed less than a window and a block ago |
| RateLimit.TracksRun | src/rate_limit.rs:103-136 | the failures of a run split into those before the current window and those it counts |
| RateLimit.FailureRateBounded | src/rate_limit.rs:103-136 | with block at least window and no success, every half-open interval of one window's length holds at most 2 * max_attempts - 1 failures that were not swallowed |
| Auth.RequireBasic | src/auth.rs:59-111 | one request alone: which steps reach the limiter, in which order, and the answer |
| Auth.TableIsLimiterRun | src/auth.rs:68-111 | interleaved requests leave the table that the limiter's own run of those checks, failures and successes leaves |
| Auth.RecordedFailuresBounded | src/auth.rs:68-88 | with at most K requests of a bucket past their check and none succeeding, at most max_attempts + K - 1 failures are recorded from the one that opens a window until its block expires, in every interleaving |
| Auth.FreshWorldBounded | src/auth.rs:68-88 | this holds from the start of the server |
| Auth.BlockIsNeverExtended | src/rate_limit.rs:112-117 | while a block is in force no step moves its end or lets a request of the bucket pass |
| Auth.BoundIsTight | src/auth.rs:68-88 | for every number of attempts, every K and a non-zero block, a run that meets the bound |
| Search.ToLikePattern | src/search.rs:30-44 | the buffer loop computes the pattern |
| Search.NoDanglingEscape | src/search.rs:30-44 | no output ends in a dangling escape |
| Search.CompilationPreservesMeaning | src/search.rs:14-44 | a name is LIKE the pattern exactly when a substring of it matches the query: `*` any sequence, every other character, specials included, itself up to ASCII case |
| Search.GlobConcat | src/search.rs:14-22 | splitting a query splits what it matches |
| Search.LeadingStarIsFree | src/search.rs:27 | a leading `*` does not change the match set |
| Search.TrailingStarIsFree | src/search.rs:22 | nor does a trailing one |
| Search.DoubledStarIsStar | src/search.rs:38 | nor doubling one anywhere |
| Search.Run | src/search.rs:50-74 | the matching folders and the matching books, each by key and cut off at 50 and 100, and none for the empty query |
| Search.Select | src/search.rs:57-71 | one statement: the rows whose name matches the query that the pattern was compiled from, by key, up to the limit |
| Search.ResultRows | src/search.rs:50-74 | the results row by row: distinct matching names by `sort_key`, at most 50 folders and 100 books; a matching row is missing only from a full list, and then comes after it |
| Search.EdgeStarSearch | src/search.rs:51-53 | an edge `*` leaves the results the same if and only if the query is non-empty or both tables are empty |
| NatSort.TakeNumber | src/natsort.rs:38-49 | the saturating loop reads min(value, 2^128 - 1) of a run of any length and stops after it |
| NatSort.CompareRuns | src/natsort.rs:15-22 | a turn at two digit runs keeps both cursors at token boundaries |
| NatSort.CompareChars | src/natsort.rs:23-33 | so does a turn at two characters, and digit against non-digit does not depend on the digit |
| NatSort.Cmp | src/natsort.rs:6-36 | the comparator decides the lexicographic order of the token lists |
| NatSort.NumeralsByValue | src/natsort.rs:15-22 | two numerals are ordered by value, leading zeros or not, as far as 128 bits can tell |
| NatSort.CompareIsTotalPreorder | src/natsort.rs:6-36 | reflexive, sign-antisymmetric and transitive on all strings |
| NatSort.TakeDigits | src/natsort.rs:56-63 | the inner loop of the key reads one whole run |
| NatSort.ComputeKey | src/natsort.rs:51-72 | the key is the tokens with numbers padded to 20 and letters lowered |
| NatSort.KeyRefinesCompare | src/natsort.rs:51-72 | for runs of at most 20 characters code-point order on keys is the comparator's order, with equal keys exactly on equality |
| NatSort.AgreementLimit | src/natsort.rs:51-72 | the two agree on all names with runs of at most n characters if and only if n is at most 20 |
| NatSort.AgreesIffShort | src/natsort.rs:51-72 | a name agrees in both orders with every name of short runs if and only if its own runs have at most 20 characters |
| NatSort.TwentyOneDigits | src/natsort.rs:51-72 | two names beyond the limit that the key orders the other way round |
| NatSort.KeyIdempotent | src/natsort.rs:51-72 | a key is its own key, for all strings |
| Pages.StableSort | src/archive/cbz.rs:45 | sorted by natural order, equal entries in their old order, the same entries |
| Pages.Open | src/archive/cbz.rs:21-51 | refuses exactly archives with an unreadable entry or an image entry of more than 64 MiB; otherwise the pages are the name and type of every image file entry, each once, in stable natural order |
| Pages.PagesOfEnumerates | src/archive/cbz.rs:26-43 | the pages collected before sorting are those at the increasing positions of all file entries with an image name |
| Pages.ImageEntriesUnique | src/archive/cbr.rs:26-46 | only one list is |
| Pages.StableSortUnique | src/archive/cbz.rs:45 | there is only one such list, so the entries determine it |
| Pages.OpenedIsUnique | src/archive/cbz.rs:20-52 | what opening gives is determined by the entries |
| ArchiveCache.Cache.constructor | src/archive/mod.rs:75-80 | starts empty, with room for at least one |
| ArchiveCache.Cache.Get | src/archive/mod.rs:83-85 | a hit returns the stored book and moves it to the front; a miss changes nothing |
| ArchiveCache.Cache.Put | src/archive/mod.rs:89 | stores at the front, replacing the same key, evicting the last |
| ArchiveCache.Cache.GetOrOpen | src/archive/mod.rs:82-92 | one request alone, and a failed open stores nothing |
| ArchiveCache.EverythingGenuine | src/archive/mod.rs:82-92 | in every interleaving every cached and pending book was opened from a file of its hash and lists what the hash determines |
| ArchiveCache.CacheIsTransparent | src/archive/mod.rs:82-92 | in every interleaving a request is answered with the page list of its own file, to be read from a file of its own hash, and fails only if opening its file fails |
| ArchiveCache.AnswersAreSorted | src/archive/mod.rs:82-92 | through the cache, in every interleaving, each request gets the image entries of its own archive in stable natural order, and an error exactly if that archive cannot be opened |
| ArchiveCache.CacheIsLru | src/archive/mod.rs:67-92 | in every interleaving the cache holds the distinct hashes last answered with a book, latest first, as many as fit |
| ArchiveCache.RecentByLastTouch | src/archive/mod.rs:67-92 | that list holds every hash of the history once, by last occurrence |
| ArchiveCache.OwnStepAdvances | src/archive/mod.rs:82-92 | no request waits for another: at most three steps of its own answer it, whatever others do in between |
| ThumbNames.FinalPathInjective | src/thumb.rs:48-57 | one final path per cover, and per hash, page and width |
| ThumbNames.TmpIsNotFinal | src/thumb.rs:130-136 | a temporary name is never a final name |
| ThumbNames.TmpPathInjective | src/thumb.rs:130-136 | different counter values give different names in all directories |
| Thumb.RunKeepsOk | src/thumb.rs:83-128 | the protocol invariant holds along every interleaving with failures at any step |
| Thumb.FinalFilesComplete | src/thumb.rs:114-126 | a final path is absent or holds one complete image of its own key |
| Thumb.FinishedIsPublished | src/thumb.rs:59-66 | along every run of a process, once a writer reports success the final path of its key is there and holds one complete image, and so it stays |
| Thumb.FailureHasCause | src/thumb.rs:83-128 | a writer reports failure only after one of its own steps has failed |
| Thumb.LoneWriterPublishes | src/thumb.rs:59-81 | in every world a new writer whose source is good can run to success, and makes nothing when the file is there already |
| Thumb.OpenReaderSeesOneImage | src/thumb.rs:114-117 | a reader that has opened it goes on reading one complete image while writers replace it |
| Thumb.TemporaryNamesDistinct | src/thumb.rs:130-136 | names in flight are pairwise distinct and none is a final name |
| Thumb.NothingLeftBehind | src/thumb.rs:138-146 | when no writer is in flight no temporary file remains, if the removals succeed |
| Thumb.StartIsOk | src/thumb.rs:83-128 | such a world satisfies the invariants they ask for |
| Thumb.EveryStartIsOk | src/thumb.rs:83-128 | an empty data directory, and what any earlier process leaves, is a world the results above start from |
| Ranges.PartialIsInside | src/routes.rs:507-564 | a partial answer is a non-empty range inside the file |
| Ranges.HeaderShape | src/routes.rs:508-524 | spaces and the case of the unit do not matter |
| Ranges.SpaceIsWhite | src/routes.rs:508-524 | the spaces that are cut off are the 25 characters with Unicode's White_Space property |
| Ranges.TrimStrips | src/routes.rs:508-524 | the spaces around a value and its positions are exactly what is cut off |
| Ranges.ParseU64Iff | src/routes.rs:528-555 | a position is read exactly from a numeral below 2^64, with or without one `+` |
| Ranges.PrintedRangeParses | src/routes.rs:542-563 | a printed range parses to itself |
| Ranges.OpenEndedParses | src/routes.rs:549-550 | an open-ended range runs to the last byte |
| Ranges.SuffixIsExplicit | src/routes.rs:526-540 | a suffix range is its explicit form |
| Ranges.FollowsRfc7233Iff | src/routes.rs:501-564 | a valid satisfiable range selects the positions of section 2.1 of RFC 7233 if and only if its numerals fit in 64 bits, and is ignored otherwise |
| Ranges.InvalidIsRefusedIff | src/routes.rs:557-559 | a range whose last position is below its first is ignored if and only if its numerals do not fit in 64 bits, and otherwise answered as unsatisfiable |
| Ranges.MalformedIsIgnoredIff | src/routes.rs:503-506 | a value with a missing, non-numeric or too large position is ignored if and only if its first position is not a number at or beyond the end of the file, and refused otherwise |
| Ranges.UnknownIsIgnored | src/routes.rs:508-524 | a value without the unit, with a comma or without a dash is ignored |
| Ranges.MalformedRefused | src/routes.rs:542-548 | a malformed header that is refused |
| Ranges.ServedPart | src/routes.rs:622-638 | status 206; the body is the selected run of bytes and has the announced length, and `Content-Range` reads back as its first position, its last and the length of the file |
| Ranges.ContentRangeReadsBack | src/routes.rs:631-634 | a reader recovers the three numbers from `Content-Range` |
| Ranges.ServedWholeOrRefused | src/routes.rs:616-651 | without a range, or with an ignored one, the answer is 200 with the whole file and its length; an unsatisfiable range is answered with 416, no bytes, and the length of the file after `bytes */` |
| Ranges.ServesWhatIsAsked | src/routes.rs:595-652 | a valid range of section 2.1 of RFC 7233 that fits in 64 bits is answered with exactly the bytes at the positions it asks for, in order, or with 416 and none if it asks for no position, empty files included |
| Ranges.ResumeReassembles | src/routes.rs:595-652 | a download cut at any byte and resumed reassembles the file |
| Template.ScanUndoesFill | src/opds.rs:29-134 | scanning a filled format string gives its arguments back, whatever follows |
| Opds.Escape | src/opds.rs:151-164 | the loop computes the escaped text |
| Opds.EscIsClean | src/opds.rs:151-164 | no `<`, `>`, `"` or `'` is left |
| Opds.UnescapeUndoesEsc | src/opds.rs:151-164 | `&` occurs only in the five entities of section 4.6 of XML 1.0, and unescaping undoes escaping |
| Opds.WriteFolderEntry | src/opds.rs:80-105 | appends the lines of one folder entry, the summary only when there is one |
| Opds.WriteBookEntry | src/opds.rs:107-141 | appends the lines of one book entry |
| Opds.WriteHead | src/opds.rs:28-68 | writes the lines before the entries, the `up` link only when there is one |
| Opds.BuildFeed | src/opds.rs:26-78 | the feed is the head, the folder entries and the book entries in order, and the end tag |
| FeedReader.ReadsFolder | src/opds.rs:80-105 | a reader recovers slug, title, time, summary and cover token of a folder entry, whatever follows |
| FeedReader.ReadsBook | src/opds.rs:107-141 | a reader recovers hash, title, time, page count, type and length of a book entry, whatever follows |
| FeedReader.ReadsHead | src/opds.rs:28-68 | a reader recovers id, title, time, self link, its type, and the `up` link or its absence |
| FeedReader.NoFolderAtBook | src/opds.rs:70-75 | a book entry is not mistaken for a folder entry |
| FeedReader.FeedIsRecoverable | src/opds.rs:26-78 | for all field texts the whole feed reads back to the same head and the same entries in the same order |
| OpdsForms.FormIsReadable | src/opds.rs:28-134 | the literal lines of the source have what the reader relies on |
| OpdsForms.HeadLinkLines | src/opds.rs:44-68 | relation, target and type of the feed's own links |
| OpdsForms.FolderLinks | src/opds.rs:90-101 | relation, target and type of the links of a folder entry |
| OpdsForms.BookCoverLinks | src/opds.rs:110-119 | the same for the two images of a book entry |
| OpdsForms.BookFileLinks | src/opds.rs:120-133 | the same for its page stream, with the page count, and its file, with type and length |
| OpdsForms.PrintFeed | src/opds.rs:26-78 | the feed with those lines, and that it reads back |

## Left out

- Symbolic links, `safe_path` and non-UTF-8 names: they rest on the operating system; a tree entry is a directory, a regular file or something else.
- Reading `cover.*` and description files (`find_cover`, `find_description`): their results are part of a directory's data.
- Hashing (BLAKE3, xxh3), base64 and the constant-time comparison: hashes are opaque values; slug injectivity and "same hash, same content" are hypotheses where used.
- Decoding and resizing images, `read_page`, `image_mime`, `detect` and `snap_width`: opaque, or tables of constants.
- Walk errors on single entries: the code logs and goes on, which is a walk of the tree without that entry.
- The counters and log lines of a scan.
- Search.Run: SQLite's limit on pattern length and its treatment of NUL are not modelled.
- Thumb.TemporaryNamesDistinct: the counter is unbounded; a process that makes 2^64 thumbnails would wrap it. A crash in mid-write leaves a temporary file and is not a step of the protocol.
- Trigger.QuietMeansCurrent: the database changes in one step at the end of a scan here; the states in between are the subject of History.TreeAtEveryStep. The answer for a closed channel is left out, since the worker never closes it.
- Prewarm.Prewarm: handlers that make the same thumbnails at the same time, and a panic inside one book's task, are not steps of the pass.
- Auth.RequireBasic: the limiter is locked once per step, so interleavings of requests are treated in Auth.RecordedFailuresBounded; parsing of the header and finding the client address are parameters.
- Pages.StableSort: the library's sort is an insertion sort on a sequence here, since any stable sort gives the same list (Pages.StableSortUnique).
- Ranges.ParseRange: a header is a sequence of characters; slicing it inside a multi-byte character, which the code avoids with `get`, does not arise.
- FeedReader.FeedIsRecoverable: RFC 3339 stamps are a parameter that never contains `<`, hashes and slugs are hexadecimal, and line-end normalisation by an XML parser is not modelled. The line about the media type of a feed in `routes.rs` is left out.
- HTTP routing, headers, configuration, the file watcher and the poller, which only send triggers.
