# Verified model of the code-graph refresh and its neighbours

This project models the parts of the `muninn` crate whose correctness rests on
loops, protocols and round trips, and proves what their documentation and tests
promise.

The centre is the code graph under `codegraph/`: an incremental index that must
agree with a full rebuild after any history of passes, finished or cut short
(`GraphStore`, `Index`); a freshness baseline that must never call a graph
current when it is not, while the tree is edited between any two steps of any
number of refreshers (`Freshness`, `RefreshProtocol`); the advisory lock file
that serialises them (`RefreshLock`); and the hook, stamp and child that decide
when a refresh runs (`AutoRefresh`, `RefreshRun`, `RefreshStats`). Around it
stand the complexity walk (`Metrics`), the working-tree signature (`GitStatus`
over `Fnv`), plan documents (`PlanChunks`, `PlanKeys`, `PlanStore`,
`PlanProgress`), the hook settings written and read back (`Setup`), the
full-text query builder (`FtsQuery`), private-block stripping (`Redact`) and
UTF-8 truncation (`Text`).

Code that changes state is modelled as classes and methods with loops, each
proved against a specification function or relation; the main results are
lemmas about those. Protocols are state machines over single file operations
and store calls, and their safety is proved over every behaviour.

## What the model assumes

- `extract_file` and `resolve` are functions of what they are given
  (`Index.Tools`); resolving takes the facts as a map, so their order cannot
  matter, and which paths are on disk is an input of its own.
- The content hash tells apart the contents that occur (`CollisionFree`).
- The pair of HEAD and working-tree signature never recurs once the tree has
  moved (`RefreshProtocol.Separates`).
- An inventory lists no path twice.
- Lock holders finish within the staleness bound and reclaims do not overlap
  (`Prompt`, `OneReclaimer`); hooks take turns (`Sequential`) and, for the duty
  cycle, a child stamps before the next hook reads (`Orderly`). Lemmas beside
  the theorems show that each of the lock's conditions, and turn-taking, is
  needed.
- Facts about Unicode that the text code relies on are stated as predicates
  (`Sensible`, `Plain`).

## What was found

Where the code keeps less than its documentation says, the model follows the
code, and the exact condition is a lemma.

- Per-file unresolved-call counts are only ever written for files that still
  have one, so a reused file keeps a stale count
  (`Index.CountsAgreeExactly`, `Index.StaleCountSurvives`).
- A full pass clears the rows and keeps the baseline, so one that dies half way
  leaves a graph without rows that still reads Fresh, which the automatic refresh
  then declines to repair (`RefreshProtocol.DeadFullPassReached`,
  `RefreshProtocol.NothingHealsIt`); what such a death leaves is right exactly when
  the pass had made the graph complete (`RefreshProtocol.DeathExactlyCurrent`).
- A crawl scans before it takes its snapshot and so can stamp an inventory that
  was already wrong (`RefreshProtocol.EarlyScanReached`,
  `RefreshProtocol.StampExactly`). Without these two, Fresh is always right outside
  a full pass (`RefreshProtocol.FreshNeverLies`), and inside one exactly when the
  pass has made the graph complete (`RefreshProtocol.FreshExactlyCurrent`).
- The claim of a hook counts from when it read the clock, so a hook that stalls
  before it spawns shortens the distance to the next spawn by as much
  (`AutoRefresh.SpawnsAreSpaced`, `AutoRefresh.StalledHook`).
- Writing the plan `auth` retires the plan `auth-flow`
  (`PlanStore.OthersExactly`, `PlanStore.AuthRetiresAuthFlow`). Key order stops
  being reading order beyond a hundred sections or 99 parts
  (`PlanKeys.SectionOrderExactly`, `PlanKeys.PartOrderExactly`). The content limit
  can be configured below the 33 characters its bound needs
  (`PlanChunks.SizeBoundExactly`).
- Opting out of auto-capture leaves an existing session-end hook in place, which
  then reads back as auto-capture on (`Setup.OptOutReadsOn`); so does a project
  whose id holds the verb as a word, such as `my enqueue`
  (`Setup.SpacedIdReadsOn`). When the choices read as made is
  `Setup.FlagsReadBackExactly`. A project id that is not one plain token is not read
  back as itself (`Setup.IdReadBackExactly`): one with a space is cut to its first
  word, if that is plain (`Setup.SpacedIdRenamed`), one with a single quote inside is renamed by every
  migration (`Setup.QuotedIdRenamed`, `Setup.ApostropheRenamed`). Where migrations
  settle is `Setup.MigrationSettlesExactly`.
- Stripping private blocks uses byte offsets of the lower-cased copy on the
  original. Where lower-casing changes lengths before or inside a block it panics,
  loses text or lets bytes of the block out, and exactly there
  (`Redact.StripExactly`, `Redact.KelvinPanics`, `Redact.StrokeLeaks`).
- The working-tree signature hashes fields without separators, so two different
  renames can look alike (`GitStatus.NamesCollideExactly`,
  `GitStatus.RenamesCollide`, `GitStatus.OriginsCollide`).

## Model

| member | source | states |
|---|---|---|
| Index.IncrementalEqualsFull | crates/muninn/src/codegraph/index.rs:61-213 | After any two histories of finished and cut-short passes, one incremental pass after the first and one full pass after the second, over the same inventory and reads, leave the same files, symbols, facts, edges and baseline, which are those of an index with no history |
| Index.PassLeavesRebuiltGraph | crates/muninn/src/codegraph/index.rs:61-229 | A complete pass, full or incremental, started on any sound store leaves exactly the graph a history-free index of what was read holds, and the baseline of the snapshot it was given |
| Index.PassRecords | crates/muninn/src/codegraph/index.rs:75-191 | After a complete pass on a sound store every file of the inventory, and no other, has a row that says what became of reading it: its language; skipped without one, error when unreadable or not UTF-8, partial or indexed by whether the parser met errors; the detail of its case; the hash of the bytes read or none; the symbols and facts of its parse or none; and a symbol count that is the number of symbols stored |
| Index.PassEdges | crates/muninn/src/codegraph/index.rs:205-213 | The edges after a pass are those the resolver derives from the facts of the inventory, as far as both ends are symbols the store holds |
| Index.FactsAreParses | crates/muninn/src/codegraph/index.rs:75-191 | Those facts are the parser's results for exactly the files of a supported language that could be read as text |
| Index.HistorySound | crates/muninn/src/codegraph/index.rs:61-213 | After any history of passes, each possibly cut after any store call, every parsed row's symbols and facts are the extraction of the content its hash names, and no edge dangles |
| Index.SoundStep | crates/muninn/src/codegraph/index.rs:80-189 | Each store call of a pass keeps that soundness |
| Index.PassFactsAreImageFacts | crates/muninn/src/codegraph/index.rs:137-206 | Fresh facts and facts read back from the store together are the facts of the whole inventory, as if every file had just been parsed |
| Index.FactsUpTo | crates/muninn/src/codegraph/index.rs:75-191 | The facts a pass derives itself are exactly those of the parseable files it did not reuse |
| Index.ParsedRows | crates/muninn/src/codegraph/index.rs:75-199 | After the file loop and the forgetting of vanished files, the rows are those of the inventory and of nothing else |
| Index.CountAfterPass | crates/muninn/src/codegraph/index.rs:210-213 | The unresolved-call count of each file after a pass: what the resolver reports, or for a file it does not report zero if the file was parsed again and the old count if it was reused |
| Index.CountsAgreeExactly | crates/muninn/src/codegraph/index.rs:210-213 | An incremental and a full pass agree on a file's unresolved-call count if and only if the resolver still reports the file, or it was parsed again, or its stored count was zero |
| Index.StaleCountSurvives | crates/muninn/src/codegraph/index.rs:210-213 | A concrete history in which they disagree: a reused file whose last unresolved call has been resolved keeps a count of one |
| Index.ParseFile | crates/muninn/src/codegraph/index.rs:75-191 | One file: skipped, unreadable, not UTF-8, reused (store untouched) or parsed again (row, symbols and facts replaced), and exactly which of these is reported: reused if and only if its text could be read and its stored hash is that of the bytes just read |
| Index.WrittenIsRecorded | crates/muninn/src/codegraph/index.rs:75-191 | A file whose row is replaced is recorded as what became of reading it, in the sense of PassRecords |
| Index.ParseFiles | crates/muninn/src/codegraph/index.rs:75-191 | The loop over the inventory leaves the store its calls give in order, returns exactly the fresh facts, and reports the right fate for every file |
| Index.ForgetVanished | crates/muninn/src/codegraph/index.rs:195-199 | Every known path missing from the inventory is forgotten, each once |
| Index.RefreshRows | crates/muninn/src/codegraph/index.rs:61-199 | The row half of a pass, full or incremental, as its store calls in order |
| Index.ResolveProject | crates/muninn/src/codegraph/index.rs:205-213 | Edges rebuilt from the resolver's answer and one count recorded for each file it reports |
| Index.IndexProject | crates/muninn/src/codegraph/index.rs:45-232 | One whole pass: a complete pass in the sense of PassLeavesRebuiltGraph, with the baseline recorded last, the fate of each file, and on a sound store every file recorded as what became of reading it |
| GraphStore.CodeGraphStore.BeginProject | crates/muninn/src/codegraph/store.rs:308-335 | A full pass clears files, symbols and edges, an incremental one nothing; the baseline stays either way |
| GraphStore.CodeGraphStore.ReplaceFile | crates/muninn/src/codegraph/store.rs:340-419 | One file's row, symbols and facts are replaced, edges of its old symbols go with them, and nothing else changes |
| GraphStore.CodeGraphStore.ForgetFile | crates/muninn/src/codegraph/store.rs:620-636 | The file's row, symbols and edges go; nothing else changes |
| GraphStore.CodeGraphStore.RebuildEdges | crates/muninn/src/codegraph/store.rs:424-454 | The edges become the given ones whose two ends exist |
| GraphStore.CodeGraphStore.SetUnresolvedCount | crates/muninn/src/codegraph/store.rs:456-465 | One file's count changes, if the file has a row |
| GraphStore.CodeGraphStore.RecordFreshness | crates/muninn/src/codegraph/store.rs:482-491 | The baseline is replaced; nothing else changes |
| Index.ExtractReadBack | crates/muninn/src/codegraph/store.rs:840-965 | What is read back after a file's rows are written is the extraction they were written from, and nothing for a file that cannot be parsed; what is read back of every other file stays as it was |
| Freshness.FreshExactly | crates/muninn/src/codegraph/freshness.rs:117-174 | A stamped snapshot later judges Fresh if and only if both signals were readable, neither is a cannot-judge marker, and both are read again unchanged |
| Freshness.VerdictExactly | crates/muninn/src/codegraph/freshness.rs:141-174 | For every baseline and snapshot: Stale if and only if two comparable pairs of signals differ, Fresh if and only if they agree, Unknown if and only if there is nothing to compare |
| RefreshProtocol.FreshNeverLies | crates/muninn/src/codegraph/refresh.rs:155-170 | In every behaviour of any number of refreshers, incremental, full and crawling, with edits between any two steps and incremental passes dying anywhere: except while a full pass is at work, Fresh is only ever said of a graph that is the index of the tree as it is now. Since the last stamp of a run whose inventory was right, no full pass may have been given up half way, and crawls must have taken their snapshots of a tree their inventory still listed |
| RefreshProtocol.FreshExactlyCurrent | crates/muninn/src/codegraph/index.rs:61-63 | At every moment of those behaviours at which Fresh is said, the graph is current if and only if no full pass is at work, or the one at work has written the edges, or has written every row and there are no edges to write |
| RefreshProtocol.DeathExactlyCurrent | crates/muninn/src/codegraph/store.rs:308-335 | When a full pass dies at work, what it leaves, if it reads Fresh, is current if and only if the pass had made the graph complete by then |
| RefreshProtocol.StepKeeps | crates/muninn/src/codegraph/refresh.rs:624-651 | Every step of the protocol keeps the invariant behind that |
| RefreshProtocol.BehaviourKeeps | crates/muninn/src/codegraph/index.rs:53-59 | The invariant holds after every prefix of every behaviour |
| RefreshProtocol.FreshIsStampedVersion | crates/muninn/src/codegraph/freshness.rs:159-174 | If the pair of signals never recurs, Fresh is only said of the version the baseline was stamped at |
| RefreshProtocol.StampKeeps | crates/muninn/src/codegraph/index.rs:227-229 | The stamp, written last, keeps the invariant: it may settle the doubt only when the stored graph is the index of the stamped version |
| RefreshProtocol.StampExactly | crates/muninn/src/huginn/crawl.rs:470-488 | When nothing moved between snapshot and stamp, the stamped graph is right if and only if the inventory was: always for a refresh, which walks after its snapshot; for a crawl, which scans first, only if the set of files did not change in between |
| RefreshProtocol.ClearingLies | crates/muninn/src/codegraph/store.rs:308-335 | The moment a pass begins on a settled graph it still reads Fresh, and is still right if and only if the pass is incremental or there was nothing to clear |
| RefreshProtocol.DeadFullPassReached | crates/muninn/src/codegraph/store.rs:308-335 | From the empty store: index a tree of one file, begin a full pass by hand, die. Nothing moved, no row is left, and the graph reads Fresh |
| RefreshProtocol.EarlyScanReached | crates/muninn/src/huginn/crawl.rs:162-233 | From the empty store: a crawl scans an empty tree, a file is added, the crawl takes its snapshot and stamps. The file has no row, and the graph reads Fresh |
| RefreshProtocol.FalseFreshReached | crates/muninn/src/codegraph/index.rs:227-229 | Both at one concrete file, in a world whose signals never recur and whose hash is free of collisions |
| RefreshProtocol.NothingHealsIt | crates/muninn/src/codegraph/refresh.rs:634-648 | A refresher that dies leaves the false Fresh in place, and while it reads Fresh no automatic child gets past its gates |
| RefreshProtocol.GateOpensExactly | crates/muninn/src/codegraph/refresh.rs:634-648 | An automatic child gets past its gates if and only if there is no baseline, or one that can be compared and differs |
| RefreshProtocol.AutoRefreshReached | crates/muninn/src/codegraph/refresh.rs:595-693 | Automatic refreshes do run: from the empty store one indexes a tree of one file and leaves a graph with its row that reads Fresh |
| RefreshProtocol.NeverStuck | crates/muninn/src/codegraph/index.rs:45-232 | From every state the invariant allows, whatever the tree has done meanwhile, the run that holds the lock has a step of its own to take |
| RefreshLock.LockPath.TryAcquire | crates/muninn/src/codegraph/refresh.rs:750-766 | Alone, an attempt takes a free lock, leaves one that may be alive, and takes over one older than the bound |
| RefreshLock.UninterruptedAttempt | crates/muninn/src/codegraph/refresh.rs:750-766 | The separate file operations, run without interruption, are that attempt; so a lock left by a crash goes to the first attempt after it is stale |
| RefreshLock.MutualExclusion | crates/muninn/src/codegraph/refresh.rs:719-766 | In every interleaving with crashes, if holders finish within the bound and no two processes sit between judging and removing, at most one guard is live and the file is the one it created |
| RefreshLock.StepKeeps | crates/muninn/src/codegraph/refresh.rs:805-838 | Every single file operation keeps the invariant behind that |
| RefreshLock.RemoveSafeExactly | crates/muninn/src/codegraph/refresh.rs:759-760 | Removing the file keeps every guard's claim if and only if no guard is live |
| RefreshLock.OverlappingReclaimsCollide | crates/muninn/src/codegraph/refresh.rs:759-764 | Without the second condition exclusion is lost, from any state in which two processes have judged the file stale |
| RefreshLock.SlowHolderIsRobbed | crates/muninn/src/codegraph/refresh.rs:825-838 | Without the first it is lost, from any state in which a holder has outlived the bound |
| RefreshRun.DecideAndRun | crates/muninn/src/codegraph/refresh.rs:595-693 | Gate by gate the exact outcome of every run: hooks disabled, no graph, no root, root gone, no readable signal, nothing changed, already running, empty scan, over the ceiling, a store that does not open, or a refresh; the store changes exactly when a refresh is reported, and then by one complete pass; a lock that was somebody else's is left alone and one that was taken is released |
| RefreshRun.DecidedOnce | crates/muninn/src/codegraph/refresh.rs:595-693 | The gates leave exactly one outcome for every run |
| RefreshRun.RefreshSettles | crates/muninn/src/codegraph/refresh.rs:634-648 | After a completed refresh the same snapshot never gets past the gates again |
| RefreshRun.RunAuto | crates/muninn/src/codegraph/refresh.rs:555-693 | The exact outcome, and the exact instant from which the next child may start: thirty seconds later after disabled hooks, nothing changed or a lock held; ten minutes after an empty or oversized inventory; an hour without graph, root or readable signal; five minutes after a failure; and after a refresh twenty times what it took, within thirty seconds and ten minutes |
| AutoRefresh.NextGap | crates/muninn/src/codegraph/refresh.rs:696-698 | The gap lies between thirty seconds and ten minutes, covers twenty times the duration if and only if that is within thirty seconds, and is longer than that only at its floor |
| AutoRefresh.StampFile.Hook | crates/muninn/src/main.rs:2246-2283 | Too early, the hook leaves the stamp alone; when due it claims fifteen seconds, and keeps the claim whether or not the child starts |
| AutoRefresh.StampFile.Finish | crates/muninn/src/codegraph/refresh.rs:559-569 | The child's stamp makes the next spawn due exactly after its outcome's backoff |
| AutoRefresh.UninterruptedHook | crates/muninn/src/main.rs:2246-2268 | In the interleaved model a hook nobody interrupts does what the method does: nothing when too early, else a claim of fifteen seconds and a spawn |
| AutoRefresh.SpawnsAreSpaced | crates/muninn/src/main.rs:2246-2268 | With hooks that take turns, k further spawns take at least k times fifteen seconds, less the time the first of them took from reading the clock to spawning, however many children overlap, finish late or die without a stamp |
| AutoRefresh.StalledHook | crates/muninn/src/main.rs:2246-2268 | That time does count, in full: for every stall up to fifteen seconds, two hooks that take turns of which the first stalls that long spawn at the stall and at fifteen seconds, so the bound is attained for every delay |
| AutoRefresh.SpacingStep | crates/muninn/src/main.rs:2246-2266 | Every step keeps the invariant behind that |
| AutoRefresh.OverlappingHooksBothSpawn | crates/muninn/src/main.rs:2247-2266 | Two hooks that read the stamp before either claims both spawn |
| AutoRefresh.DutyCycle | crates/muninn/src/codegraph/refresh.rs:254-261 | Over every orderly run no refresh starts before its predecessor's gap is over, and while durations stay within thirty seconds twenty times the refreshing time is at most the idle time |
| AutoRefresh.DutyStep | crates/muninn/src/codegraph/refresh.rs:696-698 | Every step keeps the invariant behind that |
| RefreshStats.NearestRank | crates/muninn/src/codegraph/refresh.rs:426-432 | The percentile of any recorded durations is one of them, at least p percent are no longer and fewer than p percent are shorter; it exists if and only if p is at most 100 |
| RefreshStats.PercentileMonotone | crates/muninn/src/codegraph/refresh.rs:426-432 | A higher percentile is never shorter |
| RefreshStats.SortSorts | crates/muninn/src/codegraph/refresh.rs:506 | Sorting keeps exactly the recorded durations, ascending |
| RefreshStats.Stats.Book | crates/muninn/src/codegraph/refresh.rs:471-503 | One row changes exactly the counters, reasons, last error and durations it should |
| RefreshStats.Stats.ReadRows | crates/muninn/src/codegraph/refresh.rs:463-512 | After the file is read, every counter and every skip reason's count is that of the rows, and the durations are the reported ones, sorted |
| RefreshStats.CountedByText | crates/muninn/src/codegraph/refresh.rs:481-503 | The counters by the text of the outcomes: spawns, debounces and refreshes are the rows that say exactly so, errors those that start with the word, and every other row counts under what follows `skip: `, or under its whole text |
| RefreshStats.LastErrorByText | crates/muninn/src/codegraph/refresh.rs:488-494 | The last error is the outcome of the last row that starts with the word |
| RefreshStats.CostByText | crates/muninn/src/codegraph/refresh.rs:484-487 | Durations and files parsed again are taken from rows that say done, and from no others |
| RefreshStats.HeadingsPartition | crates/muninn/src/codegraph/refresh.rs:481-503 | Every row is booked under exactly one heading |
| Metrics.Walk | crates/muninn/src/codegraph/metrics.rs:53-106 | For a tree within the budget the stack loop returns the recursive measures, for a larger one lower bounds of them; and when the budget is at most 50,000 no addition in it ever saturates |
| Metrics.MeasureTallies | crates/muninn/src/codegraph/metrics.rs:63-102 | The recursive measures are what every node costs by where it stands: one per branch, one per branch or loop and one more for each branch or loop around it, and the most loops any loop stands in |
| Metrics.WalkTallies | crates/muninn/src/codegraph/metrics.rs:53-106 | So the walk returns these tallies, the first plus one, for every body within the budget |
| Metrics.StaysWithin | crates/muninn/src/codegraph/metrics.rs:14 | Every count stays within what the visited nodes allow: nesting at most their number, cognitive at most their triangle number |
| Metrics.BudgetBound | crates/muninn/src/codegraph/metrics.rs:14 | At a budget of 50,000 that bound is 1,250,025,000, below the 32-bit limit |
| Metrics.OrderIrrelevant | crates/muninn/src/codegraph/metrics.rs:100-102 | The measures do not depend on the order of children, at any depth |
| Metrics.PopRegroups | crates/muninn/src/codegraph/metrics.rs:63-102 | What is counted plus what is still on the stack is the measure of the whole tree, before and after each pop |
| GitStatus.DirtySignature | crates/muninn/src/codegraph/freshness.rs:237-282 | For any bytes: the paths looked up are those of the entries, in order, and the signature is the clean marker when there are none and else the hash of exactly their fields |
| GitStatus.OneByteEditShows | crates/muninn/src/codegraph/freshness.rs:228-282 | An edit that changes one byte of one listed file's size or mtime, and nothing else that is said, changes the signature |
| GitStatus.ListingReadBack | crates/muninn/src/codegraph/freshness.rs:242-264 | Every listing git can print, renames and copies included, is read back as the entries it was printed from |
| GitStatus.SignatureOfListing | crates/muninn/src/codegraph/freshness.rs:237-282 | On a printed listing exactly the destination paths are looked up, exactly the entries' fields hashed, and the result is the clean marker if and only if the listing is empty |
| GitStatus.NoEntryExactly | crates/muninn/src/codegraph/freshness.rs:245-249 | On any bytes, no entry is read if and only if every field is shorter than four bytes |
| GitStatus.EditInPlaceVisible | crates/muninn/src/codegraph/freshness.rs:228-236 | While no listed file appears or vanishes, the same listing hashes the same stream if and only if every listed size and mtime is unchanged |
| GitStatus.ListingsTellApart | crates/muninn/src/codegraph/freshness.rs:228-236 | Well-formed listings whose names have the same lengths hash the same stream if and only if they are the same listing and every size, mtime and absence is the same, as long as no file reaches 2 to the 56 bytes |
| GitStatus.NamesCollideExactly | crates/muninn/src/codegraph/freshness.rs:251-262 | Fields are hashed without separators: two well-formed entries hash the same name bytes if and only if they are the same entry, or renames or copies of the same status whose two names run together to the same bytes and part in different places |
| GitStatus.RenamesCollide | crates/muninn/src/codegraph/freshness.rs:251-262 | The rename of c to ab and the rename of bc to a are printed differently and hash the same stream when the destinations have the same metadata |
| GitStatus.OriginsCollide | crates/muninn/src/codegraph/freshness.rs:257-272 | Equal lengths of the destinations alone do not tell listings apart: two pairs of renames of one-byte names, whose origins spell an absent marker and an entry, hash the same stream |
| Fnv.Fnv1a.Write | crates/muninn/src/codegraph/freshness.rs:302-307 | Fields written one after another hash as their concatenation |
| Fnv.Fnv1a.Finish | crates/muninn/src/codegraph/freshness.rs:309-311 | The kept state's digest is the one-call hash of everything written |
| Fnv.ComputeContentHash | crates/muninn/src/codegraph/index.rs:34-43 | The crawler's loop computes the same hash in one call |
| Fnv.OneByteShows | crates/muninn/src/codegraph/index.rs:34-43 | Two contents of one length that differ in exactly one byte have different hashes, wherever the byte is |
| Fnv.AbsorbTellsStates | crates/muninn/src/codegraph/index.rs:38-41 | Different states stay different whatever is folded into both: mixing a byte in and multiplying lose nothing |
| Fnv.XorByteBits | crates/muninn/src/codegraph/index.rs:39 | Mixing a byte in flips exactly its bits and none above the low eight |
| Fnv.DigestTells | crates/muninn/src/codegraph/index.rs:42 | Sixteen hexadecimal digits tell all words apart |
| Fnv.EmptyDigest | crates/muninn/src/codegraph/index.rs:34-43 | The empty text hashes to cbf29ce484222325 |
| Fnv.LetterDigest | crates/muninn/src/codegraph/index.rs:34-43 | The letter a hashes to af63dc4c8601ec8c |
| Fnv.AbsorbConcat | crates/muninn/src/codegraph/freshness.rs:302-307 | Folding two fields in turn is folding their concatenation |
| Text.BytePrefix | crates/muninn/src/text.rs:26-35 | For every sequence of scalar values and every budget, the encoding of the longest prefix that fits, at most three bytes below the budget when anything is cut |
| Text.CharPrefixExact | crates/muninn/src/text.rs:10-15 | The encoding of the first min(n, length) scalars |
| Text.EllipsisExact | crates/muninn/src/text.rs:42-49 | An ellipsis is appended exactly when something was cut |
| Text.BoundariesAreOffsets | crates/muninn/src/text.rs:31-33 | In well-formed UTF-8 a byte that is not a continuation byte starts a scalar, so stepping back to one never splits a character |
| Text.FitIsLongest | crates/muninn/src/text.rs:17-25 | No longer prefix fits the byte budget |
| Redact.StripPrivate | crates/muninn/src/redact.rs:14-59 | The loop over the bytes of any text and any lower-cased copy; a slice out of range or off a character boundary is a panic |
| Redact.StripExactly | crates/muninn/src/redact.rs:24-56 | For every text, what is emitted is exactly the bytes outside its private blocks with a marker for each, if and only if every block is aligned: the text up to its edges lower-cases to as many bytes as it has, and at the end of the text the copy is no shorter |
| Redact.StripExact | crates/muninn/src/redact.rs:10-59 | For every text each of whose characters lower-cases to as many bytes as it has: no panic, the text outside the blocks with one marker for each, no opening tag left in any case, and a second strip changes nothing and counts nothing |
| Redact.EmitsExactly | crates/muninn/src/redact.rs:29-56 | The same equivalence from any character on at which the two texts are level |
| Redact.BlocksExist | crates/muninn/src/redact.rs:10-13 | Every text has its private blocks: from each first opening tag in any case past the first closing one, or to the end |
| Redact.UnclosedExactly | crates/muninn/src/redact.rs:30-50 | When the first block is never closed: a panic if and only if the tag's place in the copy is no character boundary of the text; exact if and only if the text before the tag lower-cases to as many bytes as it has; and when to more, the first bytes of the tag and the secret get out |
| Redact.FirstCut | crates/muninn/src/redact.rs:30-35 | Whatever follows, the first piece kept ends where the copy has its first tag, or the loop panics there |
| Redact.KelvinPanics | crates/muninn/src/redact.rs:24-35 | A Kelvin sign before a tag makes it panic, whatever follows, so also when the whole text and its copy have the same length |
| Redact.StrokeLeaks | crates/muninn/src/redact.rs:24-35 | After U+023A, which lower-cases from two bytes to three, the bracket of the tag gets out |
| Redact.OutsideHasNoTag | crates/muninn/src/redact.rs:35-53 | No opening tag is left in the text outside the blocks, nor arises across a marker |
| FtsQuery.Build | crates/muninn/src/fts_query.rs:47-89 | None when nothing searchable survives; otherwise a string that parses under the query grammar of SQLite FTS5 to the OR of exactly the chosen terms, which WordsAreFirst and QuotedByWords determine |
| FtsQuery.WordsAreFirst | crates/muninn/src/fts_query.rs:68-82 | Which words get in: every maximal run of letters, digits and underscores outside the phrases that lower-cases to at least two characters and to no stopword is a term, in the order of the places where they first stand, unless twelve terms are taken by phrases and earlier words; and no other word is |
| FtsQuery.TwoWordQuery | crates/muninn/src/fts_query.rs:47-89 | Two different such words make the query of these two terms |
| FtsQuery.AuthenticationMiddleware | crates/muninn/src/fts_query.rs:47-89 | The concrete query of `authentication middleware`, with the stopwords as they are |
| FtsQuery.QuotedByWords | crates/muninn/src/fts_query.rs:57-65 | A quoted stretch of several words is a phrase of exactly these words; a single word goes back to the rest behind a blank; nothing is left of a stretch without any |
| FtsQuery.QueryExact | crates/muninn/src/fts_query.rs:47-89 | For every input the query parses to the OR of exactly the chosen terms, of which there are at most twelve or as many as there are phrases |
| FtsQuery.PrintedParses | crates/muninn/src/fts_query.rs:84-88 | Any list of quoted phrases and lower-case words, OR-joined, parses back to exactly itself |
| FtsQuery.WordsChosen | crates/muninn/src/fts_query.rs:68-82 | The bare words of a query are pairwise distinct, at least two characters, no stopwords, plain barewords, and fill at most the room the phrases leave |
| FtsQuery.ExtractPhrases | crates/muninn/src/fts_query.rs:51-66 | The quote-cutting loop: phrases of several words in order, single quoted words put back, an unclosed quote running to the end |
| FtsQuery.CutAlternates | crates/muninn/src/fts_query.rs:51-66 | What the character loop keeps and takes out is what the pieces between quotes say: every second one is quoted, and the last may be left unclosed |
| FtsQuery.SelectWords | crates/muninn/src/fts_query.rs:68-82 | The word loop, with its early stop, selects the first distinct eligible words for which there is room |
| FtsQuery.PhrasesClean | crates/muninn/src/fts_query.rs:92-106 | Every phrase kept holds several words and no quote |
| FtsQuery.CleaningKeepsWords | crates/muninn/src/fts_query.rs:92-106 | Cleaning a phrase loses none of its words, and cleaning twice is cleaning once |
| FtsQuery.NoCapitalNoKeyword | crates/muninn/src/fts_query.rs:72 | A lower-cased word is never an operator |
| PlanChunks.SplitSection | crates/muninn/src/plans.rs:327-356 | The cutting loop ends for every content and limit and returns the parts of its specification, which SplitCutsUp determines |
| PlanChunks.SplitConserves | crates/muninn/src/plans.rs:327-356 | For every content and limit the content is the parts' bodies in order, markers removed, with nothing but white space dropped after each and at the end; content within the limit is one part, whole, and only that is never cut |
| PlanChunks.SizeBoundExactly | crates/muninn/src/plans.rs:327-345 | Every part of every content fits the limit if and only if the limit is at least 33 |
| PlanChunks.TooLong | crates/muninn/src/plans.rs:331-345 | Below 32 every content that is cut at all breaks the bound |
| PlanChunks.SplitCutsUp | crates/muninn/src/plans.rs:331-345 | How a section is cut: whole within the limit; otherwise each part takes as many characters as the limit less 33 (one if there is no such room), or what comes before the last empty line among them, or before the last line break if no line is empty, a break in the first quarter excepted; trailing white space goes and a marker comes in, and the line breaks after it are skipped; what then fits is the last part unless it is blank |
| PlanChunks.BreaksFound | crates/muninn/src/plans.rs:336-343 | Where a head is cut, for every head: at its last empty line, else at its last line break, unless that lies in the first quarter, else not at all |
| PlanChunks.UnbrokenCut | crates/muninn/src/plans.rs:329-345 | At the default limit of 10,000 the first part of a longer section without line breaks holds its first 9,967 characters |
| PlanKeys.Slugify | crates/muninn/src/plans.rs:49-73 | The loop, with its cap, computes the capped and trimmed dashed form |
| PlanKeys.SlugExact | crates/muninn/src/plans.rs:42-73 | Every title yields a non-empty slug of at most 64 characters, words joined by single dashes and none at either end; and a slug typed back is itself |
| PlanKeys.SlugJoins | crates/muninn/src/plans.rs:42-73 | A slug is the runs of letters and digits of its title joined by single dashes, cut to 64 characters of which the last is dropped if it is a dash, or untitled if there are none |
| PlanKeys.SlugSpells | crates/muninn/src/plans.rs:42-73 | A slug spells its title: its letters and digits are the title's in order and from the start, all of them when the dashed title fits the cap; a title with neither is called untitled |
| PlanKeys.KeyReadBack | crates/muninn/src/plans.rs:84-99 | Every section key written is read back as the plan and the section number it was written for, for all section numbers |
| PlanKeys.MetaReadBack | crates/muninn/src/plans.rs:75-99 | A plan's own key is read back as the plan alone |
| PlanKeys.KeyInjective | crates/muninn/src/plans.rs:456-464 | A key tells its plan, section, section name and part apart from all others; this rests on slugs never holding two dashes in a row |
| PlanKeys.ReadingOrder | crates/muninn/src/plans.rs:16-23 | Within a hundred sections and 99 parts, keys sort by section number and then by part |
| PlanKeys.SectionOrderExactly | crates/muninn/src/plans.rs:84-86 | Section keys sort by number, whatever their names and parts, if and only if there are at most a hundred sections |
| PlanKeys.PartOrderExactly | crates/muninn/src/plans.rs:458-464 | The parts of a section sort by number if and only if there are at most 99 |
| PlanStore.Store.CreatePlan | crates/muninn/src/plans.rs:594-655 | From any live store: under the plan's prefix exactly the entries of this version are live afterwards, every key outside the prefix is untouched, and the count is theirs |
| PlanStore.Store.RetireStale | crates/muninn/src/plans.rs:634-652 | What is under the prefix and was not just written goes; nothing else changes |
| PlanStore.Store.WritePlan | crates/muninn/src/plans.rs:606-632 | The plan's own entry and one for each part of each section are put, in reading order |
| PlanStore.Store.EntriesUnder | crates/muninn/src/plans.rs:561-565 | The live entries whose key starts with the prefix, each once |
| PlanStore.Store.GetPlan | crates/muninn/src/plans.rs:699-702 | What the live entries say about a plan: nothing without its own entry, else its fields and all of its sections in text order of keys |
| PlanStore.PlanFromEntries | crates/muninn/src/plans.rs:498-527 | The same from any slice of entries that contains the plan's, in any order |
| PlanStore.WrittenIsRead | crates/muninn/src/plans.rs:594-655 | Reading right after writing, over any earlier contents: exactly the parts written come back, with their titles, numbers, phases and statuses; and within a hundred sections and 99 parts the document is the one written, in order |
| PlanStore.PartSpelled | crates/muninn/src/plans.rs:615-632 | Every part of every section is written under the key, title, content and tags its place calls for, spelled out, and is read back with its number, phase and status |
| PlanStore.RowIsPart | crates/muninn/src/plans.rs:615-632 | And every entry written besides the plan's own is one of these |
| PlanStore.MetaSpelled | crates/muninn/src/plans.rs:606-614 | The plan's own entry is written under its slug with its title, overview and status word |
| PlanStore.Unsaid | crates/muninn/src/plans.rs:468-515 | What no tag says is read as a draft, no phase, and pending |
| PlanStore.RowsDiffer | crates/muninn/src/plans.rs:615-632 | The keys of one write are pairwise distinct |
| PlanStore.RowsAscend | crates/muninn/src/plans.rs:16-23 | Within the bounds the keys are written in text order |
| PlanStore.OthersExactly | crates/muninn/src/plans.rs:80-82 | Another plan is unchanged by a write if and only if its slug does not extend this one or it has nothing live; if it does extend it, all of it is retired |
| PlanStore.AuthRetiresAuthFlow | crates/muninn/src/plans.rs:80-82 | Writing the plan auth over a store that holds the plan auth-flow leaves no key of the latter |
| PlanStore.PlanUnique | crates/muninn/src/plans.rs:498-527 | How a plan reads depends only on the live entries of its own keys |
| PlanStore.SetTagRead | crates/muninn/src/plans.rs:182-194 | A tag set is the tag read, whatever was there before |
| PlanStore.SetTagKeeps | crates/muninn/src/plans.rs:191-194 | Setting one tag does not change another whose prefix differs |
| PlanStore.TagsReadBack | crates/muninn/src/plans.rs:468-485 | A section's phase reads back as written, and its status does if it has a phase and reads as pending if not |
| PlanProgress.PhaseProgress | crates/muninn/src/plans.rs:223-239 | The fold returns the number of distinct phases none of whose parts is pending or in progress, and the number of distinct phases |
| PlanProgress.ReorderKeepsProgress | crates/muninn/src/plans.rs:219-239 | The result does not depend on the order of sections |
| PlanProgress.SplittingKeepsProgress | crates/muninn/src/plans.rs:224-226 | Nor on a section being in several parts of the same phase and status |
| PlanProgress.LimitKeepsProgress | crates/muninn/src/plans.rs:220-239 | Nor, for a plan written and read back, on the content limit it was cut with |
| Setup.BuildHooksObject | crates/muninn/src/setup.rs:707-859 | At every managed event the foreign entries in order, then ours; an empty tool event is dropped, a session end nobody asked for is left as it was, and every other key is as it was |
| Setup.FilterExactly | crates/muninn/src/setup.rs:868-890 | Exactly the entries no command of which names the program are foreign, and they are kept in order |
| Setup.KindSpelled | crates/muninn/src/setup.rs:234-275 | The whole entry of each kind of hook, command included, spelled out |
| Setup.PostWrites | crates/muninn/src/setup.rs:795-850 | After a build the event after a tool holds its foreign entries, then ping, acknowledgement and extraction for their matchers, then the capture queue and the refresh if asked for |
| Setup.StartWrites | crates/muninn/src/setup.rs:779-849 | The start of a session: the context, and the refresh if asked for |
| Setup.PromptWrites | crates/muninn/src/setup.rs:830-851 | A prompt: the nudge |
| Setup.ToolWrites | crates/muninn/src/setup.rs:760-848 | Before a tool: the hint for searches if asked for |
| Setup.EndWrites | crates/muninn/src/setup.rs:833-857 | The end of a session: the summary if asked for, and otherwise whatever was there |
| Setup.ForeignSurvives | crates/muninn/src/setup.rs:868-890 | At every rewritten event every foreign entry survives, in order, whatever the project is called; it takes only that the binary's path names the program |
| Setup.RebuildFixpoint | crates/muninn/src/setup.rs:707-859 | Building again from what was built, with the same choices, changes nothing, whatever the project is called |
| Setup.FlagsReadBackExactly | crates/muninn/src/setup.rs:645-680 | After a build the search hint reads as written; auto-refresh and auto-capture read as on if and only if they are on, the words of the project id or of the two paths hold one of their verbs, or an entry the build leaves alone carries one. Whatever the project is called; it takes only that the binary's path names the program |
| Setup.OptOutReadsOn | crates/muninn/src/setup.rs:849-855 | Setting up with auto-capture and then without leaves the session-end hook, and auto-capture reads back as on |
| Setup.SpacedIdReadsOn | crates/muninn/src/setup.rs:81-99 | Set up for the first time with auto-capture off, a project called after its directory `my enqueue` reads back as having auto-capture on |
| Setup.SecondWordReadsOn | crates/muninn/src/setup.rs:589-622 | So does every project whose id is two plain words of which the second is that verb, over whatever hooks were there |
| Setup.FoundExactly | crates/muninn/src/setup.rs:589-622 | A detection word is found after a build if and only if the build asked for it, it is one of the words that the quoted id or one of the quoted paths falls into, or an entry left alone has it, for every id and all paths by which the binary names the program |
| Setup.IdReadBackExactly | crates/muninn/src/setup.rs:684-700 | Where the build leaves no other id behind, the id written is the id read back if and only if it is not empty, has no white space, no single quote, and no double quote at either end; no word of the binary's path may be the project option |
| Setup.IdReadExactly | crates/muninn/src/setup.rs:684-700 | Which id is read after a build, for every id written and every object built upon: that of the first event left alone that has one, if it comes before ours in text order or ours name none; otherwise the one our entries name, provided no event before ours names any |
| Setup.EntryIdExactly | crates/muninn/src/setup.rs:589-611 | The same equivalence for every single entry written |
| Setup.QuotedIdRenamed | crates/muninn/src/setup.rs:682-700 | An id with a single quote inside is read back as its escaped form, which is longer and again holds one: every migration renames the project |
| Setup.SpacedIdRenamed | crates/muninn/src/setup.rs:682-700 | An id that holds a space is read back as what stands before the space, when that is a plain token |
| Setup.ApostropheRenamed | crates/muninn/src/setup.rs:682-700 | The concrete id a'b, renamed |
| Setup.ReadsIdUnique | crates/muninn/src/setup.rs:684-700 | There is at most one id to read |
| Setup.IdKeptExactly | crates/muninn/src/setup.rs:682-700 | An id read from settings is read again after building with it if and only if it is one plain token, or an event the build leaves alone is read for it; no word of the binary's path may be the project option |
| Setup.MigrationSettlesExactly | crates/muninn/src/setup.rs:523-552 | Whatever hooks are installed and whatever their id: the migration after a migration reads the very choices the first one read, the id among them, if and only if the id is kept (one plain token, or read from an event left alone) and every verb among the words of the id and the paths stands for a choice already made; and then it changes nothing |
| Setup.MigrationSettles | crates/muninn/src/setup.rs:523-552 | With a plain id, and no detection word among the words of the two paths, that is always so |
| Setup.SecondMigrationSettles | crates/muninn/src/setup.rs:523-552 | Whatever was installed and whatever the paths hold: once a migration reads a plain id from what a migration built, the next one reads the same choices and changes nothing; an id cut to its first word, for instance, settles one migration later under that word |
| Setup.MigrateHooks | crates/muninn/src/setup.rs:523-552 | One project's migration: nothing without an id, otherwise a build with the choices read |
| Setup.InstalledProjectId | crates/muninn/src/setup.rs:684-700 | The id of the first event, in text order of names, that has one |
| Setup.RunarHookTokens | crates/muninn/src/setup.rs:589-611 | The loop gathers the unquoted tokens of every command of ours, string form and argument form |
| Setup.ArgumentFormRead | crates/muninn/src/setup.rs:277-288 | A hook in the argument form is read as the words of its program's path and its unquoted arguments, each whole |
| Setup.ArgumentFormId | crates/muninn/src/setup.rs:277-288 | So an id with blanks inside is read whole from the argument form |
| Setup.QuoteReadBackExactly | crates/muninn/src/setup.rs:234-236 | A quoted argument unquotes to itself if and only if it holds no single quote and neither starts nor ends with a double one |
| Setup.OwnTokens | crates/muninn/src/setup.rs:244-275 | Every entry written with a plain token for an id is recognised as ours and read back as the words of the binary's path, the arguments as written, and the words of the log's path |
| Setup.EntryTokens | crates/muninn/src/setup.rs:244-275 | With any id, as the words of the binary's path, the arguments before the id, the words the quoted id falls into, and the words of the log's path |
| Setup.OwnCommandNamed | crates/muninn/src/setup.rs:234-251 | A command names the program whatever quoting its path needs |

## Left out

- RefreshProtocol.FreshNeverLies: says nothing of what follows a full pass that died, or a crawl's snapshot of a tree its inventory no longer lists; DeadFullPassReached and EarlyScanReached show that Fresh can be wrong there, until the next stamp of a run whose inventory was right.
- RefreshLock.MutualExclusion: creating the lock file and writing the holder's identity into it are one step.
- RefreshLock.LockPath.TryAcquire: the bounded retry loop of an explicit crawl around it, and a crawl that goes on without the lock, are not modelled.
- RefreshRun.DecideAndRun: reasons are names, not the messages a reader sees; the pass it runs does not fail half way; passes cut short are in the histories of Index and in RefreshProtocol. One elapsed time stands for the two the program measures.
- RefreshStats.Stats.ReadRows: takes rows already split into columns; work and error rates and the order of skip reasons are left out.
- Index.IndexProject: reads come in as inputs, and the summary text, the symbol and coverage totals and the search index are left out.
- Index.ExtractReadBack: a symbol keeps its container as a field; the code recovers it from the stored qualified name, after its last colon (`codegraph/store.rs` lines 147-156 and 890), so a container with a colon of its own, such as that of a Rust `impl T for fn(x: u8)`, is read back cut short. The insert that skips a repeated name is not modelled either.
- GraphStore.CodeGraphStore.ForgetFile: leaves facts behind under a path with no row, as the code does; nothing reads them.
- Freshness.FreshExactly: the two signals of a snapshot are read in one step, the baseline is not serialised, and its time of recording is left out.
- Metrics.Walk: the parameter count and the zeros of a definition without a body, which `measure` adds, are left out.
- GitStatus.ListingsTellApart: sizes from 2 to the 56 bytes on are left out; GitStatus.EditInPlaceVisible has no such bound.
- GitStatus.DirtySignature: a path is looked up by its bytes; the lossy decoding in between is left out.
- Text.BytePrefix: takes well-formed UTF-8, which the type of a string guarantees.
- Redact.StripExactly: lower-cases scalar by scalar; the two lower-case forms of the Greek capital sigma, both of two bytes, are one. The regular expressions for secrets are left out.
- FtsQuery.Build: what counts as alphanumeric and white space and how words lower-case are parameters; parentheses, prefixes and column filters of the query grammar are never printed, and are not parsed.
- PlanStore.Store.CreatePlan: a proposal is a put by key; duplicate rejection, secret redaction and the bounding of the overview, which is not cut into parts, are left out, and so is the failure of a storage call half way.
- PlanStore.Store.EntriesUnder: returns entries in some order; the reader sorts them again. Prefixes are compared exactly; the SQLite query behind it uses `LIKE`, which ignores the case of ASCII letters (`storage/sqlite.rs` lines 544-551), so an entry saved by hand under `plan:Auth-x` would be retired by writing `auth`. Keys made from slugs are lower-case.
- PlanKeys.Slugify: takes the title lower-cased.
- Setup.IdReadExactly: asks that the binary's path names the program and that no word of it is `--project`, as do the results built on it; Setup.MigrationSettlesExactly has no condition on the id.
- Setup.SpacedIdRenamed: is about the space itself; other white space is cut at the same way.
- Setup.BuildHooksObject: models the shell form written on Unix; the argument form is read but not written. Reading and writing the settings file, and the managed skills, are left out.
- Saving one section, setting a status, listing plans and the icebox: they use the same keys and add easy members.
- The resolver's tiers, the extractors, the store's SQL, the scanner, the crawl's memories, sync, the command line and the wizard.
