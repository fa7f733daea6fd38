# RGraph: a Dafny model

RGraph is a property-graph database written in Rust. This project models four parts of it and proves
what each is there for.

**Buffer pool** (`Frames`, `PoolState`, `Pool`, `PoolRun`, `FlushSteps`, `Flusher`, `Handshake`,
`Sentinel`, `TornPages`). A class `BufferPool` with the frames, the page table, the clock hand, the
ghost queue and the data file; every operation is one atomic step whose effect on the *shown page map*
(page id to current bytes) is stated. `PoolRun` puts operations together into arbitrary runs and shows
that the pool behaves like a flat map of pages, and that a failed fsync freezes it. The batch flusher
is proved phase by phase. Three things that are about interleaving are state machines over their
steps, for any number of threads: the pin/claim handshake of writers and flushers, the loading
sentinel, and the crash points of a flush.

**Query plans and pull execution** (`Plan`, `Graphs`, `Trails`, `Sorting`, `Streams`, `Physical`,
`Operators`, `Creating`, `Halloween`, `Starts`). The Eager-barrier rewrite, the meaning of a read-only plan as a
stream of rows, the pull operators with their cursors and buffers, variable-length BFS, ORDER BY, and
`MATCH ... CREATE` over a graph that grows while it is read. An operator owns its inputs, so a pull takes
the tree of operator states and gives it back changed; `Execution` holds such a tree in place. What the
meaning of a plan is, is said again of the rows, values and graphs themselves (`Bindings`, `PlanLaws`, `Ordered`,
`Aggregates`, `Created`, `MatchLaws`): which rows pass, in which order, what is bound in them, which walks a MATCH finds.

**Expressions** (`Ast`, `Grammar`, `Printing`, `ReadBack`, `Precedence`, `Parser`, `Scope`, `FreeNames`,
`EvalLaws`). The expression grammar as functions of the tokens ahead, the printer as a token sequence, exactly
which printed expressions are read back, what the binding powers mean, the parser as a class with a position,
the scope checker against the evaluator, and the laws of evaluation through the values of an expression's parts.

**Catalog** (`Catalog`). Registration of names and the length-prefixed, framed codec over unordered maps.

A class keeps its mutable state in fields that its methods reassign; what a method leaves behind is stated
as a function of the old state (`Flushed`, `Register`, ...), and the properties are lemmas about those
functions. What comes from outside is a parameter: the checksum, the fate of each read and write, expression
evaluation under a row, arithmetic on values, UTF-8 validity.

## What the code does not promise

Where a property turned out not to hold of the code, the code is modelled as it is and the exact condition is
proved.

- Torn pages: the double-write buffer drops the pages of a batch beyond 128 and the flusher does not split its
  batches, so a batch flush is torn-safe if and only if it has at most 128 pages (`TornPages.TornSafeIffFits`).
- A write error that is not a sync error leaves its pages unsynced, and the next flush overwrites their staged
  copies. Whatever fails, recovery finds no torn page if and only if every page written and not synced is staged
  (`TornPages.TornSafeExactly`, `TornPages.NextFlushCovers`, `TornPages.WriteErrorExposes`).
- A stage or write error in the single-frame flush, and nothing else there, leaves the frame with `io_inflight` set
  (`PoolState.FlushedKeeps`), and it stays so for good: never evicted, never written back again
  (`PoolRun.StuckForGood`). `flush_all` then returns `Ok` with a dirty unpinned page behind, exactly if there is such
  a frame (`Pool.BufferPool.FlushAll`). A read error during read-ahead leaves the
  reserved frames in flight likewise (`Pool.BufferPool.FillReserved`).
- The 16-bit pin counter wraps: one more guard keeps the pool consistent if and only if the frame does not have 65535
  already (`PoolState.PinnedExactly`).
- Halloween safety needs expansions to start from allocated nodes: a number that names an id is looked up lazily and can
  find a node the query itself creates (`Halloween.DrainLate`, with the exact ids for which it does). Plans whose
  expansions start from variables that scans and expansions bind are safe, and every MATCH plan is one
  (`Starts.SafePlanKnown`, `Starts.DrainMatch`). The condition is sufficient, not necessary: in `DrainLate` an id
  beyond those the query creates is not allocated either, and the outcome is that of reading first.
- The scope checker does not look into `base[index]`; soundness needs the indices to be in scope, and where every part
  is reached it holds exactly then (`Scope.IndexSlips`, `Scope.Exact`, `Scope.CaseSlips`).
- A catalog name longer than 65535 bytes is written with a truncated length and never read back
  (`Catalog.CatalogRoundTrip`).
- A self-loop followed in both directions gives its walk twice: paths are distinct from every start if and only if no
  followed edge is a self-loop (`Trails.BothOnceIff`).
- ORDER BY over a key that mixes strings and numbers does not sort by a total preorder, and the passes can differ from the
  lexicographic sort (`Sorting.MixedKeysDiffer`). A key orders the rows at hand if and only if none of its values there
  can be compared with neither of two that differ (`Sorting.KeyOrdersExactly`); without lists that is: its values are of
  one family, nulls aside, or no two comparable ones differ (`Sorting.KeyOrdersIff`).
- What is printed for an expression is not always read back. IS [NOT] NULL is read after the operators, so the printer's own
  `(x IS NULL AND y)` is rejected (`ReadBack.InfixRejected`): an operator is read back if and only if IS [NOT] NULL does not
  stand on its left (`ReadBack.OperatorIff`). The first dot of a slice is taken for a property access unless the lower bound
  ends before it (`ReadBack.SliceIff`). After a minus, the postfixes of a parenthesis or a list are not read, and the lexer
  joins a minus with a number (`ReadBack.MinusIff`). A `*` that opens an argument list stands for all of it
  (`ReadBack.StarOpens`). Where the parts of an expression are printable, it is read back if and only if it is
  (`ReadBack.ReadsBackIff`).
- DISTINCT in an aggregate sorts the values and drops those equal to the one before, so equal values that another keeps apart
  are both counted: `1, 1.0, 1` and `1, 'a', 1` count as three (`Aggregates.DistinctSlips`). Where the values can be ordered,
  each is left once if and only if no value that is neither less nor greater stands between two equal ones
  (`Aggregates.DistinctExactly`).
- A MATCH plan looks at the first label of the first node alone, and starts the next expansion after an unnamed node from a
  name that no row has. Its pattern is honoured in every graph if and only if every node on the way has a variable and no
  other label is asked for, or nothing can fit and a node on the way has no variable (`MatchLaws.HonouredIff`, with what it
  finds in any case in `MatchLaws.MatchMeans` and `MatchLaws.UnnamedLoses`). Within one MATCH a relationship may come twice.
- The optimizer passes rebuild every plan as it was (`Plan.OptimizeKeeps`).
- CREATE makes a new node for every node pattern, bound or not, so its edges only ever join new nodes
  (`Creating.ExecuteCreateGrows`).

## Model

| member | source | states |
|---|---|---|
| `Frames.UpdateChecksum` | src/buffer/pool.rs:818-821 | stamping a page changes its checksum field alone and makes it verify |
| `Frames.Frame.Reset` | src/buffer/frame.rs:90-99 | a reset descriptor is empty, unmapped, unpinned and idle; the bytes stay |
| `PoolState.PageTableInjective` | src/buffer/pool.rs:81-90 | in a consistent pool two pages never share a frame |
| `PoolState.PinnedKeeps` | src/buffer/pool.rs:328-338 | a pin on the frame of a mapped page keeps every invariant and the page map shown, and counts one guard more |
| `PoolState.PinnedExactly` | src/buffer/pool.rs:328-338 | it does so if and only if the frame's 16-bit pin counter does not wrap |
| `PoolState.WrittenKeeps` | src/buffer/pool.rs:58-64 | bytes written through a guard change the shown page map at that page only |
| `PoolState.DirtiedKeeps` | src/buffer/pool.rs:81-90 | set_dirty keeps the invariants: dirty frame, `rec_lsn` the least LSN since the last flush |
| `PoolState.UnpinnedKeeps` | src/buffer/pool.rs:114-118 | dropping a guard gives back exactly its pin |
| `PoolState.UnreferencedKeeps` | src/buffer/pool.rs:741-745 | a second chance for a referenced frame keeps the invariants and the shown map |
| `PoolState.EvictedKeeps` | src/buffer/pool.rs:716-737 | evicting an unpinned clean frame keeps the shown page map: the page is on disk as shown |
| `PoolState.InvalidatedKeeps` | src/buffer/pool.rs:924-966 | invalidating a page empties its frame and reverts what is shown of it to the disk |
| `PoolState.FlushedKeeps` | src/buffer/pool.rs:815-861 | whatever fate a write-back meets, the invariants and the shown map stand; the frame is clean exactly after success, and left with I/O in flight exactly after a stage or write error; other frames with I/O in flight are untouched, on disk too |
| `PoolState.StuckKeeps` | src/buffer/pool.rs:829-837 | a frame left claimed by a stage or write error keeps its state and its bytes |
| `PoolState.ReservedKeeps` | src/buffer/pool.rs:378-390 | reserving an empty frame for a load keeps the invariants |
| `PoolState.FilledKeeps` | src/buffer/pool.rs:570-581 | bytes read into a reserved frame are not shown to anyone |
| `PoolState.PublishedKeeps` | src/buffer/pool.rs:606-615 | publishing a reserved frame that holds its own page keeps the shown map |
| `PoolState.AbandonedKeeps` | src/buffer/pool.rs:601-605 | giving a reserved frame up keeps the shown map |
| `PoolState.LoadedKeeps` | src/buffer/pool.rs:394-433 | a load that verifies ends with a mapped, pinned frame that shows the page as on disk |
| `Pool.BufferPool.constructor` | src/buffer/pool.rs:205-250 | a new pool shows the data file, has no guard and is healthy |
| `Pool.BufferPool.Write` | src/buffer/pool.rs:58-64 | the shown page map changes at the guard's page, to the new bytes |
| `Pool.BufferPool.SetDirty` | src/buffer/pool.rs:81-90 | the frame is dirty with that LSN as its last, and with the least LSN since its last flush as rec_lsn; nothing else of it changes, nor the shown map |
| `Pool.BufferPool.Read` | src/buffer/pool.rs:67-73 | a guard shows the current bytes of its page |
| `Pool.BufferPool.Unfix` | src/buffer/pool.rs:627-640 | one guard fewer, one pin less on its frame, nothing shown changes |
| `Pool.BufferPool.WriteBack` | src/buffer/pool.rs:815-861 | one write-back: the new state is a function of the old and of the fate of the write; a sync error poisons the pool, no other error does |
| `Pool.BufferPool.FlushSingleFrame` | src/buffer/pool.rs:770-861 | refused on a poisoned pool, a no-op on an unmapped, pinned or busy frame, else one write-back; the shown map stays |
| `Pool.BufferPool.PushGhost` | src/buffer/pool.rs:864-877 | ghost queue and set hold the same distinct pages within capacity; the oldest is forgotten when full |
| `Pool.BufferPool.VisitFrame` | src/buffer/pool.rs:700-754 | reclaims exactly an unpinned, idle frame that is not dirty; a dirty one is flushed or passed; a busy one is untouched; the reference bit is cleared; an evicted page is counted, and remembered as a ghost exactly if it was not referenced |
| `Pool.BufferPool.FindEmpty` | src/buffer/pool.rs:687-696 | an empty idle frame if there is one, else nothing changes |
| `Pool.BufferPool.SweepForVictim` | src/buffer/pool.rs:682-757 | a victim was unpinned and idle and is empty now; no victim after two rounds means no frame could be reclaimed or each was dirty and is clean now |
| `Pool.BufferPool.FindFreeFrame` | src/buffer/pool.rs:650-668 | without faults a reclaimable frame is found within two sweeps; WouldBlock means every frame is pinned or in flight |
| `Pool.BufferPool.PromoteGhost` | src/buffer/pool.rs:437-445 | a loaded page leaves ghost queue and set, the others keep their order |
| `Pool.BufferPool.ReadPage` | src/buffer/pool.rs:397-405 | the page at its own offset, or a device error |
| `Pool.BufferPool.ReserveRange` | src/buffer/pool.rs:528-558 | the first absent pages of the range, in order, get distinct empty frames, none published; it stops early only with the budget spent or no frame free |
| `Pool.BufferPool.FillReserved` | src/buffer/pool.rs:570-581 | each reserved frame holds the bytes of its own page; after a failed read all of them stay reserved |
| `Pool.BufferPool.PublishFilled` | src/buffer/pool.rs:584-621 | a reserved frame is mapped to its page, clean and unpinned, if and only if that page is intact on disk and carries its own id; otherwise it is empty; no other page joins the table, none leaves it, and no frame is left loading |
| `Pool.BufferPool.PrefetchRange` | src/buffer/pool.rs:513-624 | read-ahead of at most half the pool changes nothing shown, on every fault path; the pages that get a frame are mapped exactly if they are intact and carry their own id; nothing outside the range joins the table, and without a fault no frame is left loading |
| `Pool.BufferPool.LoadPage` | src/buffer/pool.rs:378-433 | a guard exactly if the read succeeds and the checksum verifies; the frame is then clean, idle, referenced, with one pin and the bytes read; a corrupt page is InvalidData and not mapped |
| `Pool.BufferPool.PinResident` | src/buffer/pool.rs:328-338 | the hit path: one more guard, one more pin and the reference bit on that frame, one more hit, nothing else, as long as the frame's pin counter does not wrap |
| `Pool.BufferPool.MissPage` | src/buffer/pool.rs:351-445 | the miss path: a guard for the page, or an error that leaves guards and shown map alone; success is guaranteed on an intact page of a fault-free pool with a reclaimable frame |
| `Pool.BufferPool.FixPage` | src/buffer/pool.rs:308-462 | a guard whose page shows its current bytes; page 0 alone is InvalidInput; a resident page always succeeds; WouldBlock only if no frame can be reclaimed; a poisoned pool stays frozen; by no path does a page enter the table unless its checksum holds, and none but the page and what is read ahead |
| `Pool.BufferPool.DirtyCandidates` | src/buffer/pool.rs:893-905 | exactly the dirty, unpinned, idle frames, ascending |
| `Pool.BufferPool.FlushAll` | src/buffer/pool.rs:908-914 | `Ok` leaves a dirty page that nobody has pinned exactly where a frame was stuck with I/O in flight; such frames and pinned ones are untouched; without faults it succeeds; the shown map stays |
| `Pool.BufferPool.Invalidate` | src/buffer/pool.rs:924-966 | a resident page is dropped, any other call is a no-op |
| `Pool.SweptEnd` | src/buffer/pool.rs:698-757 | after two rounds of the hand every frame that could be reclaimed was dirty and is clean, every other is untouched |
| `Pool.WithoutIs` | src/buffer/pool.rs:441-444 | removal from the ghost queue takes out that page only and keeps the order |
| `PoolRun.Run` | src/buffer/pool.rs:308-914 | from any valid pool and the guards already held, over every sequence of fix, write, set_dirty, show, drop, prefetch, flush, evict and free operations, what the run shows is what a flat page map allows, at every point of the run; between any two points, a failure of storage is remembered, and from it on nothing reaches the disk and no page stops being dirty except by being freed; frames left with I/O in flight stay as they are |
| `PoolRun.TraceStep` | src/buffer/pool.rs:770-861 | one step more of a run, fault or not, keeps all that between every earlier point and the new one |
| `PoolRun.StuckForGood` | src/buffer/pool.rs:826-837 | a frame once left with I/O in flight is never reclaimed, evicted or written back again, its page stays mapped to it and keeps its bytes, in memory and on disk |
| `PoolRun.FixStep` | src/buffer/pool.rs:308-462 | fixing a page is a step the flat map allows, and leaves stuck frames stuck |
| `PoolRun.LastWriteShows` | src/buffer/pool.rs:308-462 | in such a run a page has the bytes of the last write to it, or those it started with |
| `PoolRun.GuardStep` | src/buffer/pool.rs:58-118 | an operation through a held guard is one the flat map allows |
| `PoolRun.PoolStep` | src/buffer/pool.rs:308-914 | so is an operation of the pool itself, with or without faults |
| `PoolRun.FreeStep` | src/buffer/pool.rs:924-966 | freeing a page forgets its unflushed bytes and touches no other page |
| `Handshake.StepKeeps` | src/buffer/pool.rs:58-64 | each step of a writer or a flusher keeps pins and claims consistent, and the I/O mutex held by exactly the waiting writer or locked flusher |
| `Handshake.RunKeeps` | src/buffer/pool.rs:791-816 | so does every interleaving |
| `Handshake.WritersExcludeFlushers` | src/buffer/pool.rs:791-816 | for any number of threads and in every interleaving, no writer holds the bytes while a flusher is past its pin check, and a flush writes in place the bytes it staged |
| `Handshake.BytesStayPut` | src/buffer/frame.rs:249-260 | between its check and its release, only the flusher itself changes the bytes |
| `Sentinel.StepKeeps` | src/buffer/pool.rs:321-392 | each lock section of a loader, waiter, prefetcher or evictor keeps the sentinel protocol |
| `Sentinel.RunKeeps` | src/buffer/pool.rs:321-505 | so does every interleaving |
| `Sentinel.SingleLoader` | src/buffer/pool.rs:321-392 | in every interleaving each page has at most one demand loader, its sentinel is there exactly while it loads, and no guard carries the sentinel id |
| `Sentinel.OnlyLoaderEndsSentinel` | src/buffer/pool.rs:419-433 | only that loader ever replaces or removes the sentinel |
| `FlushSteps.VectoredIsPerPage` | src/buffer/flusher.rs:286-295 | a vectored write of consecutive pages is the per-page writes |
| `FlushSteps.WritevIsPageWrites` | src/buffer/flusher.rs:286-295 | at byte level, one write of the concatenated pages at the first offset is each page written at its own offset |
| `FlushSteps.VectoredIsOneWrite` | src/buffer/flusher.rs:286-295 | so the one write of an extent does to the file what the model does to its page map: every page of the map is at its own offset in the file, before and after |
| `FlushSteps.PutPagesAt` | src/buffer/flusher.rs:286-295 | each page of an extent is on disk afterwards, every other page is as before |
| `FlushSteps.PutPagesKeeps` | src/buffer/flusher.rs:286-303 | writing claimed pages in place keeps the pool's invariants and the shown map |
| `FlushSteps.MarkedCleanKeeps` | src/buffer/flusher.rs:230-237 | marking a written frame clean keeps them too |
| `Flusher.SortByPageIs` | src/buffer/flusher.rs:155-156 | the pending list is sorted: same entries, ascending pages |
| `Flusher.ClaimPending` | src/buffer/flusher.rs:123-149 | exactly the eligible candidates are claimed: mapped, unpinned, idle, and their `rec_lsn` durable |
| `Flusher.RefreshChecksums` | src/buffer/flusher.rs:278-284 | checksums of claimed frames are refreshed, nothing else |
| `Flusher.GroupEnd` | src/buffer/flusher.rs:206-215 | the extent is the longest run of consecutive pages within MAX_BATCH_BYTES |
| `Flusher.WriteExtent` | src/buffer/flusher.rs:253-304 | written means on disk; a sync error, and only it, poisons; a poisoned pool refuses and is untouched |
| `Flusher.SettleExtent` | src/buffer/flusher.rs:218-238 | after an extent every claim in it is released, and frames are clean exactly if it was written |
| `Flusher.WriteExtents` | src/buffer/flusher.rs:204-241 | the extents partition the batch; after a failed sync every later extent is refused |
| `Flusher.FlushBatch` | src/buffer/flusher.rs:114-250 | the whole batch: exactly the eligible candidates, each with its own page, in page order, in maximal extents; every page that changed on disk was resident, unpinned and idle, and its earliest unflushed change was durable (or it had none); clean exactly if written; every claim released on every exit; stuck frames passed over; poisoned exactly by a lost sync |
| `Flusher.BatchAhead` | src/buffer/flusher.rs:123-149 | write-ahead: only pages resident in an eligible frame change on disk, and a page whose body changed was dirty with its least LSN durable; the reserved LSN alone counts as none |
| `TornPages.StepKeeps` | src/buffer/pool.rs:818-854 | each step of staging, writing and syncing keeps a whole copy of every page of the flush |
| `TornPages.RunKeeps` | src/buffer/flusher.rs:158-250 | so does every run of flushes that fit the double-write buffer |
| `TornPages.FlushesAreTornSafe` | src/buffer/flusher.rs:158-250 | at every crash point of every such run each page is wholly old or wholly new in place, or has a whole staged copy |
| `TornPages.GrownIs` | src/buffer/flusher.rs:206-215 | the extents of a batch are the longest runs of consecutive pages within one vectored write |
| `TornPages.TornSafeExactly` | src/buffer/flusher.rs:158-250 | for every run of flushes, whatever fails and however long the batches, at every crash point: no page is left torn if and only if every page written and not synced is staged, and the flush is torn-safe if and only if it is staged with bytes the page may have |
| `TornPages.TornSafeIffFits` | src/wal/doublewrite.rs:85-110 | a batch flush, in the extents of the flusher, is torn-safe at every crash point if and only if it has at most DOUBLEWRITE_CAPACITY pages |
| `TornPages.UnstagedPageTears` | src/wal/doublewrite.rs:85-91 | a larger batch has a crash point with a torn page and no copy: all extents before that of the first dropped page written and synced, and that one written |
| `TornPages.NextFlushCovers` | src/buffer/flusher.rs:218-228 | after any run, write errors included, the next flush once staged leaves no page to tear if and only if its staged pages include every page still unsynced |
| `TornPages.WriteErrorExposes` | src/buffer/flusher.rs:218-228 | so a write error that is not a sync error leaves its page to tear once the next flush has staged another |
| `Plan.CreateFootprintOf` | src/cypher/planner.rs:942-967 | the footprint accumulated in the loop is what the pattern declares |
| `Plan.ConflictsExactly` | src/cypher/planner.rs:856-885 | footprints conflict exactly if some node or relationship created is one the plan would read |
| `Plan.ReadsExactly` | src/cypher/planner.rs:893-939 | a plan's read footprint is what its scans and expansions read, wherever they stand in it, and nothing else |
| `Plan.ReadsSame` | src/cypher/planner.rs:887-940 | the rewrite changes neither what a plan reads nor whether it is a pipeline breaker |
| `Plan.InsertsExactly` | src/cypher/planner.rs:699-845 | barriers are added exactly at the writes whose footprint conflicts with an input that is not a pipeline breaker, and nowhere else |
| `Plan.BarriersUnique` | src/cypher/planner.rs:699-845 | only one plan has them exactly there |
| `Plan.EraseUndoesInsert` | src/cypher/planner.rs:699-828 | without its barriers the rewritten plan is the original |
| `Plan.InsertIdempotent` | src/cypher/planner.rs:699-828 | a second rewrite changes nothing |
| `Plan.OptimizeKeeps` | src/cypher/planner.rs:73-79 | both optimizer passes leave every plan as it is, barriers included |
| `Graphs.ScanFrom` | src/graph/engine.rs:1803-1838 | an adjacency scan gives exactly the edges of a matching type, with the far end |
| `Graphs.NeighboursAllocated` | src/graph/engine.rs:1803-1870 | neighbours in a well-formed graph are allocated ids |
| `PlanLaws.NeighboursMean` | src/graph/engine.rs:1803-1870 | the neighbours of a node are the far ends of its edges in the direction and of a type asked for, outgoing ones first, each list in order |
| `Trails.Bfs` | src/cypher/physical.rs:972-1042 | the queue loop ends, with or without an upper bound, and returns the trails level by level |
| `Trails.QueueExtensions` | src/cypher/physical.rs:1029-1038 | exactly the extensions by an edge not on the path are queued, in adjacency order |
| `Trails.TrailsExact` | src/cypher/physical.rs:972-1042 | the result holds exactly the walks from the start without a repeated relationship whose length is within the hop bounds |
| `Trails.TrailsOrderedOnce` | src/cypher/physical.rs:972-1042 | lengths never decrease, and no path comes twice if no node lists an edge twice |
| `Trails.OneWayDistinct` | src/cypher/physical.rs:1007-1014 | which is so for one-directional expansion |
| `Trails.BothDistinctIff` | src/cypher/physical.rs:1015-1026 | and, followed in both directions over a well-formed graph, if and only if no followed edge is a self-loop |
| `Trails.BothOnceIff` | src/cypher/physical.rs:972-1042 | so with both directions no path comes twice from any start if and only if no followed edge is a self-loop, for all bounds that admit one hop |
| `Trails.SelfLoopTwice` | src/cypher/physical.rs:1015-1026 | a walk over a self-loop of its start comes twice, at one hop already |
| `Sorting.StableSortIs` | src/cypher/physical.rs:553-561 | on a list that the comparison orders, sorting gives a stable sort: the same elements, in order, equal ones in their input order |
| `Sorting.StableSortUnique` | src/cypher/physical.rs:553-561 | there is only one, so any stable sort_by gives it |
| `Sorting.StableSortPermutes` | src/cypher/physical.rs:553-561 | sorting rearranges, whatever the comparison |
| `Sorting.SortTwice` | src/cypher/physical.rs:550-562 | a stable sort by a key of a stable sort by others is a stable sort by that key, then the others |
| `Sorting.PassesAreLexicographic` | src/cypher/physical.rs:545-563 | sorting by each ORDER BY key from last to first is one stable sort under the lexicographic order of all keys, for keys that order the rows at hand |
| `Sorting.FamilyPreorder` | src/cypher/physical.rs:2130-2133 | a key whose values on the rows at hand are numbers, strings or booleans, and nulls, orders them, ascending or descending |
| `Sorting.CompareReverse` | src/cypher/value.rs:393-421 | for all values, lists included: comparing the other way round gives the reverse, or no answer either |
| `Sorting.CompareChain` | src/cypher/value.rs:393-421 | for all values, lists included: comparisons with an answer chain, less and less is less, and equals may replace each other |
| `Sorting.KeyOrdersExactly` | src/cypher/value.rs:393-421 | a key orders the rows at hand if and only if none of its values there, lists included, can be compared with neither of two that differ |
| `Sorting.KindOrders` | src/cypher/value.rs:409-417 | a key whose values are lists of one kind, of any depth with numbers, strings or booleans at the leaves, and nulls anywhere, orders the rows at hand |
| `Sorting.KeyOrdersIff` | src/cypher/value.rs:393-421 | without lists: if and only if its values there are of one family, nulls aside, or no two of them that can be compared differ |
| `Sorting.MixedKeysDiffer` | src/cypher/physical.rs:545-563 | where it does not, the passes can differ from the lexicographic sort: two numbers and a string |
| `Ordered.StringsCompare` | src/cypher/value.rs:405-406 | strings compare as in a dictionary: by the first character that differs, a proper prefix first, equal only if they are the same |
| `Ordered.CompareMeans` | src/cypher/value.rs:393-421 | for all values: null comes last, false before true, numbers of either kind by size, strings as in a dictionary, lists by their first elements that differ and then by length; nothing else compares |
| `Ordered.SortRearranges` | src/cypher/physical.rs:553-561 | sorting by any comparison rearranges the list, place by place, and elements that compare equal keep their order |
| `Physical.BuiltMeans` | src/cypher/physical.rs:2144-2263 | a built operator has exactly the rows of its plan's meaning to give |
| `Physical.ResetIsBuild` | src/cypher/physical.rs:45-46 | after any pulls, reset leaves an operator tree as just built |
| `Physical.ResetReplays` | src/cypher/physical.rs:45-46 | so a reset at any point replays the plan's rows |
| `Operators.NextSingleRow` | src/cypher/physical.rs:189-195 | one empty row, then the end |
| `Operators.NextScanned` | src/cypher/physical.rs:223-307 | the next live node of the scan; an empty cursor is filled again; the cursor ends up right after that node |
| `Operators.NextNodeById` | src/cypher/physical.rs:1124-1137 | the node with that id, once, if it is there |
| `Operators.NextExpanded` | src/cypher/physical.rs:352-436 | the next row of a one-hop or variable-length expansion: the rest of the buffer, then what the next input rows bring; the buffer that is left behind |
| `Operators.FillPending` | src/cypher/physical.rs:365-434 | the buffer an input row fills |
| `Operators.NextFiltered` | src/cypher/physical.rs:458-479 | the next row whose predicate is true; anything but a boolean or null is an error |
| `Operators.NextProjected` | src/cypher/physical.rs:499-513 | the projection of the next row; nothing is left behind but the input as its pull left it |
| `Operators.SortRows` | src/cypher/physical.rs:550-562 | the sorting loop from the last ORDER BY item to the first |
| `Operators.GroupAll` | src/cypher/physical.rs:1846-1862 | the grouping loop is the partition by key in order of first appearance |
| `Operators.Aggregated` | src/cypher/physical.rs:1846-1881 | one row per group, or the first aggregate error |
| `Operators.NextBuffered` | src/cypher/physical.rs:544-572 | sort, aggregation and barrier take in their whole input before their first row |
| `Operators.NextSkipped` | src/cypher/physical.rs:601-616 | the rows after the first n |
| `Operators.NextLimited` | src/cypher/physical.rs:645-663 | the first n rows; the input is not pulled beyond them |
| `Operators.NextApplied` | src/cypher/physical.rs:1162-1182 | for each outer row the inner plan from its start, rows laid over the outer row |
| `Operators.BuildTable` | src/cypher/physical.rs:1228-1236 | the hash table holds, under each key, the left rows with that key in order |
| `Operators.ProbeIsNestedLoop` | src/cypher/physical.rs:1244-1280 | probing it is the nested loop on equal key strings |
| `Operators.NextJoined` | src/cypher/physical.rs:1225-1281 | the next row of that nested loop, right rows outside |
| `Operators.NextRow` | src/cypher/physical.rs:39-47 | for every read-only operator, a pull takes the next row off what remains: row, end or error, and the rest after it |
| `Operators.Drain` | src/cypher/physical.rs:2273-2311 | draining a built plan gives exactly the rows it means, and fails exactly if it means an error |
| `PlanLaws.ScanMeans` | src/cypher/physical.rs:223-307 | a scan gives the live nodes, with its label if it has one, in the order of their ids, each with its label and properties |
| `PlanLaws.NodeByIdMeans` | src/cypher/physical.rs:1124-1137 | a scan by id gives that node if it is live |
| `PlanLaws.FilterMeans` | src/cypher/physical.rs:458-479 | a filter gives exactly the rows on which its predicate is true, in their order, and fails exactly if its input does or the predicate is neither a truth value nor null on some row |
| `PlanLaws.ProjectMeans` | src/cypher/physical.rs:499-513 | a projection gives one row for each, with each name bound to its last expression's value and nothing else, and fails exactly if an expression does |
| `PlanLaws.ExpandMeans` | src/cypher/physical.rs:352-436 | an expansion gives, row after row, a row for every fitting edge at the node the row names whose far end is live, in order, with the relationship and that node bound |
| `PlanLaws.VarLenMeans` | src/cypher/physical.rs:1046-1110 | a variable-length expansion gives, row after row, a row for every walk from the node the row names, with the list of its relationships and its end bound |
| `PlanLaws.StartIdMeans` | src/cypher/physical.rs:380-388 | a row names a node by a node value, or by a number taken modulo 2^64 |
| `PlanLaws.SkipMeans` | src/cypher/physical.rs:601-616 | SKIP gives the rows after the first n; n is a number, cut off toward zero and wrapped to 64 bits, and 0 for anything else |
| `PlanLaws.LimitMeans` | src/cypher/physical.rs:645-663 | LIMIT gives the first n rows, and fails only if the input fails before them |
| `PlanLaws.ApplyMeans` | src/cypher/physical.rs:1162-1182 | every outer row with every inner row, the outer ones in turn; where both bind a name, the inner row stands |
| `PlanLaws.JoinMeans` | src/cypher/physical.rs:1225-1281 | a hash join gives, right row after right row, exactly the left rows with the same text under every key, in order, under the right row |
| `PlanLaws.EagerMeans` | src/cypher/physical.rs:544-572 | a barrier gives the rows of its input |
| `Operators.Execution.Next` | src/cypher/physical.rs:39-47 | the same of an operator tree in place |
| `Operators.Execution.Restart` | src/cypher/physical.rs:45-46 | reset in place, even after an error: the plan's rows come again |
| `Operators.OrderByMeans` | src/cypher/physical.rs:545-563 | a Sort operator is one stable lexicographic sort of its rows, where each item orders those rows |
| `Operators.OrderByItem` | src/cypher/physical.rs:2130-2133 | an ORDER BY item does so if and only if none of its values on the rows can be compared with neither of two that differ; without lists, if and only if they are of one family, nulls aside, or no two of them that can be compared differ |
| `Operators.OrderByKind` | src/cypher/physical.rs:2130-2133 | so does an item whose values are lists of one kind |
| `Ordered.OrderByRanks` | src/cypher/physical.rs:545-563 | of two rows, by the first ORDER BY item that tells them apart, the lesser comes first, or the greater if the item is descending; if none does, they keep their order; for items that order the rows |
| `Ordered.StringColumn` | src/cypher/physical.rs:545-563 | so a column of strings comes out as in a dictionary, or backwards |
| `Operators.GroupsAddUp` | src/cypher/physical.rs:1846-1862 | the group sizes add up to the number of input rows |
| `Operators.CountCounts` | src/cypher/physical.rs:1897-1930 | `count(*)` of a group is its size |
| `Operators.ExtremeIs` | src/cypher/physical.rs:1962-1985 | MIN and MAX of any values, mixed or lists too, keep one of them, and none is less or greater |
| `Aggregates.AggregateMeans` | src/cypher/physical.rs:1897-1987 | an aggregate is its function of the values its argument has on the rows: COUNT their number, COLLECT their list, SUM their sum from 0 from the left or a failed addition, AVG that sum from 0.0 divided by their number, MIN and MAX one that none is less or greater than, and null of none |
| `Aggregates.AggregationMeans` | src/cypher/physical.rs:1846-1881 | an aggregation gives one row per group: two rows are in the same group if and only if their keys have the same values, groups come in order of first appearance, and each row has the key values and the aggregates of exactly its group's rows; it fails exactly if an aggregate has no value |
| `Aggregates.DistinctExactly` | src/cypher/physical.rs:1925-1928 | DISTINCT leaves every value at least once; where the values can be ordered, exactly once if and only if no value stands between two equal ones that is neither less nor greater than they are |
| `Aggregates.DistinctSlips` | src/cypher/physical.rs:1925-1928 | otherwise one is counted twice: for all values a and b that differ and are not less or greater, over a, b, a |
| `Creating.RunCreate` | src/cypher/physical.rs:697-836 | both passes over the pattern, up to the first error, as one function of graph and row |
| `Creating.RunCreateRel` | src/cypher/physical.rs:757-826 | one relationship pattern: an edge between bound nodes, or nothing if one is not bound |
| `Creating.AddNodeGrows` | src/graph/engine.rs:852-870 | a new node is the only change |
| `Creating.AddEdgeGrows` | src/graph/engine.rs:997-1010 | an edge between new nodes changes nothing of the old graph |
| `Creating.AddEdgeMirrored` | src/graph/engine.rs:997-1010 | a new edge is in the outgoing and the incoming list alike, and no other edge has its id |
| `Creating.CreateNodesMakes` | src/cypher/physical.rs:711-752 | one new node per node pattern, in order, with its first label, under consecutive ids; edges untouched |
| `Creating.CreateRelMakes` | src/cypher/physical.rs:757-829 | one edge from the first bound node to the second, of the first type, at the front of both adjacency lists |
| `Creating.ExecuteCreateGrows` | src/cypher/physical.rs:697-836 | CREATE only adds: what was allocated is as before, adjacency included, and every new node shows in the footprint |
| `Created.PropertiesMean` | src/cypher/physical.rs:720-732 | the properties of a pattern: under each name the value of the last expression of that name with a storable value, and no other name; they fail exactly if an expression does |
| `Created.CreateNodesMean` | src/cypher/physical.rs:711-748 | each new node has its pattern's first label and its properties as they are on the incoming row; the row binds each variable to its last node with id, label and properties, and is as before otherwise |
| `Created.CreateRelMeans` | src/cypher/physical.rs:757-826 | a relationship pattern whose ends name nodes makes one edge between them, with its first type and its properties, first in both lists, and binds it; it fails exactly if a property does or an end is missing; if an end names no node, nothing changes |
| `Created.CreateRelsMean` | src/cypher/physical.rs:757-829 | the second pass takes every relationship pattern between two node patterns, in order, up to the first that fails |
| `Created.CreateMeans` | src/cypher/physical.rs:697-836 | CREATE makes its nodes, then its edges on the graph and the row with them |
| `Created.NodesSucceed` | src/cypher/physical.rs:711-752 | the nodes are made exactly if all their properties have values |
| `Halloween.CollectReadsIs` | src/cypher/planner.rs:887-940 | the footprint collected on top of another is the union |
| `Halloween.FillSame` | src/cypher/physical.rs:223-307 | a scan that does not conflict finds the ids it found before |
| `Halloween.TrailsSame` | src/cypher/physical.rs:972-1042 | walks from an allocated node are the same in the grown graph |
| `Halloween.RemainingSame` | src/cypher/physical.rs:839-919 | an operator tree that does not conflict, or has materialised, still has the same rows to give |
| `Halloween.Rewritten` | src/cypher/planner.rs:699-845 | what the rewrite puts under a write: the read, or a barrier over it, never a conflict |
| `Halloween.SourceMeans` | src/cypher/physical.rs:895-912 | creating from the rewritten input is reading first: same rows, or the read's error before any of them |
| `Halloween.DrainCreate` | src/cypher/physical.rs:839-866 | draining Create over the rewritten plan, each row pulled from the graph as grown so far, ends as if all rows had been read from the starting graph first: same rows, same graph, same error |
| `Halloween.LatePull` | src/cypher/physical.rs:1046-1100 | a pull of a plan that takes its start from a number gives the row as the graph has it at that moment |
| `Halloween.DrainLate` | src/cypher/physical.rs:839-866 | draining Create over that plan, for which no barrier is put in, ends as reading first does if and only if the number is not the id of a node that one of the rows but the last creates; the ids are known if and only if the number is an allocated id, or there are no rows |
| `Starts.SafeMeans` | src/cypher/physical.rs:380-388 | a variable that the plan binds by scans and expansions, and renames at most, names in every row no node or an allocated one, over every well-formed graph |
| `Starts.SafePlanKnown` | src/cypher/physical.rs:1076-1080 | so a plan whose expansions start from such variables looks up allocated ids alone |
| `Starts.PlanMatch` | src/cypher/planner.rs:269-371 | the loop that builds a MATCH plan; it has one exactly if the pattern is not empty |
| `Starts.MatchPlanIs` | src/cypher/planner.rs:269-371 | a MATCH plan is built element by element: a leading node is a scan for its first label under its name; a relationship is an expansion with its direction, types, variable and hop bounds from the last node's name to the next node's variable; any other node adds nothing |
| `MatchLaws.MatchMeans` | src/cypher/planner.rs:269-371 | in every graph, a MATCH plan for a path of single hops whose nodes and relationships have names of their own tells of exactly the walks that start at a live node with the first label and step over fitting edges to live nodes; labels of later nodes are not looked at, and a relationship may come twice |
| `MatchLaws.UnnamedLoses` | src/cypher/planner.rs:318-322 | after a node on the way without a variable the plan gives no row |
| `MatchLaws.HonouredIff` | src/cypher/planner.rs:269-371 | so the whole pattern is honoured in every well-formed graph if and only if every node on the way has a variable and only the first has a label, and only one; or a node on the way has none and the pattern cannot fit anything |
| `Starts.MatchPlanShaped` | src/cypher/planner.rs:269-371 | every MATCH plan, whatever its pattern, is such a plan, and no row of it is an error |
| `Starts.DrainMatch` | src/cypher/physical.rs:839-866 | `MATCH ... CREATE ...`, for every pattern of both and every well-formed graph, ends as if all rows of the plan so built had been read first |
| `Grammar.ParseExpression` | src/cypher/parser.rs:1004-1040 | the grammar of expressions consumes at least one token |
| `Printing.RoundTrip` | src/cypher/parser.rs:1004-1040 | printing and parsing is the identity at token level for every printable expression, at every binding power and before every token that stops an expression; keywords are no names |
| `Printing.LeftReads` | src/cypher/parser.rs:1004-1013 | as a left operand every printable expression but IS [NOT] NULL is read back, and the infix loop goes on with what follows |
| `Printing.NullReads` | src/cypher/parser.rs:1015-1037 | IS [NOT] NULL, also repeated, is read back by the loop after the operators |
| `Printing.NegateTrip` | src/cypher/parser.rs:1055-1064 | a minus over what the primary reads whole |
| `Printing.UnaryRoundTrip` | src/cypher/parser.rs:1065-1070 | a printed operand without prefix is read back whole, and its postfixes are read on |
| `Printing.NamedTrip` | src/cypher/parser.rs:1116-1173 | a name or a call with its postfixes is read by the primary already |
| `Printing.ClosedTrip` | src/cypher/parser.rs:1072-1114 | a literal, list, map, CASE or parenthesis is read by the primary without its postfixes |
| `Printing.LiteralTrip` | src/cypher/ast.rs:817-834 | literals |
| `Printing.InfixTrip` | src/cypher/ast.rs:744-766 | parenthesised operators of every binding power |
| `Printing.NotTrip` | src/cypher/ast.rs:747 | NOT in parentheses |
| `Printing.PropTrip` | src/cypher/ast.rs:735 | after the base, the postfix loop reads a printed property access and goes on |
| `Printing.IndexTrip` | src/cypher/ast.rs:736 | the same of an index |
| `Printing.SliceTrip` | src/cypher/ast.rs:737-743 | the same of a slice, with and without bounds |
| `Printing.BoundReads` | src/cypher/parser.rs:1198-1206 | a lower bound that is IS NULL or a minus over a closed primary ends before the dots |
| `Printing.ListTrip` | src/cypher/ast.rs:750-753 | lists, never taken for comprehensions |
| `Printing.MapTrip` | src/cypher/ast.rs:754-759 | maps |
| `Printing.CallTrip` | src/cypher/ast.rs:768-772 | calls, with DISTINCT and `*` |
| `Printing.CaseTrip` | src/cypher/ast.rs:774-782 | CASE, with and without subject and default |
| `Printing.ComprehensionTrip` | src/cypher/ast.rs:783-788 | list comprehensions |
| `Printing.ReduceTrip` | src/cypher/ast.rs:792-794 | reduce |
| `Printing.QuantifierTrip` | src/cypher/ast.rs:795-803 | quantifiers |
| `ReadBack.ReadsBackIff` | src/cypher/ast.rs:729-803 | an expression whose parts are printable is read back if and only if it is printable itself, and otherwise at no binding power and before nothing |
| `ReadBack.OperatorIff` | src/cypher/parser.rs:1008-1037 | an operator that is not a regular expression is read back if and only if its left operand is not IS [NOT] NULL; its right operand may be |
| `ReadBack.InfixRejected` | src/cypher/parser.rs:1008-1037 | the text printed for an operator with IS [NOT] NULL on its left, as `(x IS NULL AND y)`, is rejected whatever follows; so is that of a regular expression |
| `ReadBack.MinusIff` | src/cypher/parser.rs:1055-1064 | a minus is read back if and only if its operand is read whole by the primary and is not a number without a sign |
| `ReadBack.SliceIff` | src/cypher/parser.rs:1190-1222 | a slice is read back if and only if its base is an operand without prefix and its lower bound, if any, is one that ends before the dots |
| `ReadBack.AccessIff` | src/cypher/parser.rs:1176-1190 | a property access or an index is read back if and only if its base is an operand without prefix, and the key is no keyword |
| `ReadBack.DotsTaken` | src/cypher/parser.rs:1180-1183 | an operand before the dots of a slice takes the first for a property access and fails at the second |
| `ReadBack.StarOpens` | src/cypher/parser.rs:1151-1157 | a call whose first argument starts with `*`, and is more than that, is not read back |
| `Precedence.ChainMeans` | src/cypher/parser.rs:1571-1582 | a chain of any operators without parentheses is read as the tree whose root is the last of the loosest operators: OR, XOR, AND, comparison, sum, product, power, each from the left |
| `Precedence.ChainReads` | src/cypher/parser.rs:1004-1013 | at any binding power, the operators that bind at least that tightly are taken, and the rest is left |
| `Precedence.NotTakes` | src/cypher/parser.rs:1045-1053 | NOT takes in comparisons and tighter operators and stops before AND, XOR and OR |
| `Parser.ExprParser.Advance` | src/cypher/parser.rs:133-139 | one token on, never past the end of input |
| `Parser.ExprParser.Expect` | src/cypher/parser.rs:142-150 | consumes the token exactly if it is the expected one |
| `Parser.ExprParser.ReadExpression` | src/cypher/parser.rs:1004-1040 | the Pratt loop reads what the grammar reads, and fails where it fails |
| `Parser.ExprParser.ReadInfix` | src/cypher/parser.rs:1478-1532 | one operator and its right side |
| `Parser.ExprParser.ReadNulls` | src/cypher/parser.rs:1017-1037 | IS NULL and IS NOT NULL, as often as they come |
| `Parser.ExprParser.ReadUnary` | src/cypher/parser.rs:1042-1070 | a prefix operator, or a primary and its postfixes |
| `Parser.ExprParser.ReadPrimary` | src/cypher/parser.rs:1072-1114 | a primary |
| `Parser.ExprParser.ReadIdent` | src/cypher/parser.rs:1116-1173 | a name, a call, or one of the words that stand for something else |
| `Parser.ExprParser.ReadPostfix` | src/cypher/parser.rs:1176-1242 | the postfix loop |
| `Parser.ExprParser.ReadSubscript` | src/cypher/parser.rs:1190-1237 | an index, a slice or empty brackets |
| `Parser.ExprParser.ReadList` | src/cypher/parser.rs:1244-1300 | a list, or a comprehension after backtracking to the saved position |
| `Parser.ExprParser.ReadMap` | src/cypher/parser.rs:1302-1322 | a map |
| `Parser.ExprParser.ReadCase` | src/cypher/parser.rs:1324-1363 | a CASE |
| `Parser.ExprParser.ReadReduce` | src/cypher/parser.rs:1365-1386 | a reduce |
| `Parser.ExprParser.ReadQuantifier` | src/cypher/parser.rs:1388-1405 | a quantifier |
| `Parser.Reread` | src/cypher/parser.rs:1004-1040 | the parser object reads a printed expression back, to its last token |
| `Scope.Sound` | src/cypher/semantic.rs:224-316 | an accepted expression whose dynamic indices are in scope never fails with an undefined variable, at any depth, in a context that binds the scope |
| `Scope.SoundComprehend` | src/cypher/interpreter.rs:424-450 | in every turn of a comprehension |
| `Scope.SoundFold` | src/cypher/interpreter.rs:460-476 | of a reduce |
| `Scope.SoundCount` | src/cypher/interpreter.rs:480-523 | and of a quantifier |
| `Scope.IndexSlips` | src/cypher/semantic.rs:236-239 | the checker does not look into a dynamic index: any unbound name there is accepted and fails |
| `Scope.Exact` | src/cypher/interpreter.rs:103-387 | for every evaluator and every expression all parts of which are reached: what evaluates is in scope, and unless an operation fails a variable is undefined if and only if the check or the check of the indices fails |
| `Scope.EagerReached` | src/cypher/interpreter.rs:103-387 | every part is reached where there is neither CASE nor a bound variable |
| `Scope.BodiesReached` | src/cypher/interpreter.rs:460-523 | and in the bodies of reduce and quantifiers over non-empty lists |
| `Scope.ComprehensionReached` | src/cypher/interpreter.rs:424-450 | and in a comprehension of which some item passes the filter |
| `Scope.CaseSlips` | src/cypher/interpreter.rs:395-414 | not in a CASE: the result it does not take may be out of scope and nobody notices |
| `Scope.Evaluate` | src/cypher/interpreter.rs:103-533 | the evaluator with its loops computes the meaning of an expression, whose laws follow |
| `Scope.EvaluateComprehension` | src/cypher/interpreter.rs:424-450 | the loop of a comprehension |
| `Scope.EvaluateReduce` | src/cypher/interpreter.rs:460-476 | the loop of a reduce |
| `Scope.EvaluateQuantifier` | src/cypher/interpreter.rs:480-523 | the counting loop of a quantifier |
| `Scope.EvaluateAlternatives` | src/cypher/interpreter.rs:395-414 | the loop over CASE alternatives |
| `Scope.QuantifierMeans` | src/cypher/interpreter.rs:480-523 | over conditions that are true or false, all, any, none and single are what they say |
| `Scope.CountItemsIs` | src/cypher/interpreter.rs:487-494 | the loop counts the true and the null conditions |
| `EvalLaws.OperationLaw` | src/cypher/interpreter.rs:103-393 | an expression without alternatives or binders gives what its operation makes of the values of its parts, left to right; IS NULL is true exactly on null, a list and a map have exactly their parts; it fails with the first part that fails |
| `EvalLaws.CaseTakes` | src/cypher/interpreter.rs:395-414 | CASE gives the result of the first alternative whose condition equals the subject, or is true without one |
| `EvalLaws.CaseDefaults` | src/cypher/interpreter.rs:395-414 | the default, or null without one, only if every alternative is passed over |
| `EvalLaws.CaseFails` | src/cypher/interpreter.rs:395-414 | and fails with the subject, or with the first condition that fails or without a subject is neither a truth value nor null |
| `EvalLaws.ComprehensionLaw` | src/cypher/interpreter.rs:424-450 | a comprehension lists, in order, the projections of exactly the items whose filter is neither false nor null, and fails exactly if an item does |
| `EvalLaws.ReduceLaw` | src/cypher/interpreter.rs:460-476 | a reduce is the left fold of its body, the accumulator bound over the item |
| `EvalLaws.ReduceFails` | src/cypher/interpreter.rs:460-476 | and fails with the first turn that fails |
| `EvalLaws.QuantifierLaw` | src/cypher/interpreter.rs:480-523 | all, any, none and single over conditions with nulls among them |
| `EvalLaws.QuantifierFails` | src/cypher/interpreter.rs:487-494 | and they fail with the first condition that fails |
| `FreeNames.CheckFree` | src/cypher/semantic.rs:224-316 | the checker accepts an expression if and only if the names free in it, other than in dynamic indices, are in scope; and those in the indices too if and only if all its free names are |
| `Catalog.LERoundTrip` | src/catalog/mod.rs:375-398 | little-endian numbers of any width are read back |
| `Catalog.LEDigits` | src/catalog/mod.rs:375-398 | the lowest byte comes first |
| `Catalog.EntryLayout` | src/catalog/mod.rs:339-344 | an entry is its id in four bytes, the length of its name in two, and the name |
| `Catalog.RegisterKeeps` | src/catalog/mod.rs:102-111 | registration keeps both maps inverse and ids dense, gives no id twice and changes none |
| `Catalog.ReachableInv` | src/catalog/mod.rs:90-111 | so every catalog reached by registration is consistent |
| `Catalog.SectionReadsBack` | src/catalog/mod.rs:337-373 | for every iteration order a section is read back: both maps and the next id |
| `Catalog.CatalogRoundTrip` | src/catalog/mod.rs:195-223 | decoding undoes encoding, for every iteration order, if and only if every name has at most 65535 bytes |
| `Catalog.FrameRoundTrip` | src/catalog/mod.rs:233-264 | unframing undoes framing of a body below 4 GiB |
| `Catalog.PrefixRejected` | src/catalog/mod.rs:249-264 | every strict prefix of a frame is rejected |
| `Catalog.DamageRejected` | src/catalog/mod.rs:249-264 | so is a frame whose magic number or checksum is overwritten, by however little, or whose body is overwritten with bytes of another checksum |
| `Catalog.EncodeSection` | src/catalog/mod.rs:337-345 | the loop over the map, in whatever order it comes, writes the section in that order |
| `Catalog.DecodeSectionAt` | src/catalog/mod.rs:351-373 | the decoding loop at a position |
| `Catalog.DecodeBytes` | src/catalog/mod.rs:208-223 | three sections, one after the other |
| `Catalog.SchemaCatalog.constructor` | src/catalog/mod.rs:90-97 | an empty catalog |
| `Catalog.SchemaCatalog.GetOrCreateLabel` | src/catalog/mod.rs:102-111 | a known name keeps its id, a new one gets the next; both maps know it |
| `Catalog.SchemaCatalog.GetOrCreateRelType` | src/catalog/mod.rs:131-140 | the same of relationship types |
| `Catalog.SchemaCatalog.GetOrCreatePropertyKey` | src/catalog/mod.rs:160-169 | the same of property keys |
| `Catalog.SchemaCatalog.Encode` | src/catalog/mod.rs:195-201 | the bytes of the three sections, each in some order |
| `Catalog.SchemaCatalog.Frame` | src/catalog/mod.rs:233-242 | the frame is read back as the catalog it was made from |

## Left out

- Pool.BufferPool.FixPage: one atomic step; the two-phase load with its sentinel is the subject of `Sentinel`, and the 256 shard maps are one page table. That the page's frame does not have 65535 pins is required, because its 16-bit counter wraps beyond.
- PoolState.FlushedKeeps: a failed write or sync leaves arbitrary bytes in place, except where the bytes written are those already there: it is assumed that a failed rewrite of identical bytes cannot damage them.
- Pool.BufferPool.Write: requires that no I/O is in flight on the frame; the source spins until then.
- Pool.BufferPool.Unfix: requires that the writer has called `set_dirty` for what it wrote, which the source leaves to its callers. The saturating double unpin is not modelled.
- Pool.BufferPool.Invalidate: requires an unpinned idle frame; the source spins for the I/O and trusts callers for the pin.
- Pool.BufferPool.SweepForVictim: twice the frame count is not wrapped to 32 bits.
- Pool.BufferPool.PrefetchRange: what the access tracker decides to prefetch is a parameter of `FixPage`.
- Handshake.WritersExcludeFlushers: sequentially consistent steps; fences and weak memory are not modelled.
- TornPages.FlushesAreTornSafe: assumes that staging is durable once it returns; recovery reads the staged copies. A page of a batch is in the file already: a frame is filled by reading its page (src/buffer/pool.rs:405), and a read past the end fails (src/io/posix.rs:144-150). The direct write of a page past the end (`write_page`) is not modelled.
- Trails.Bfs: adjacency lists are finite sequences; the cap of 65536 edges per scan and hop counts beyond 32 bits are not modelled.
- Graphs.ScanFrom: label and type names always resolve; the fallbacks for unknown names, which change the meaning of a scan, are not modelled, nor is the shared namespace of labels and types.
- Operators.NextRow: expression evaluation is an abstract function of the row, and storage errors inside scans are left out. What an operator does after it has returned an error is only that it can be reset.
- Operators.Drain: gives rows as maps; the column order of `execute_plan` is left out. UNWIND has no plan operator here.
- Operators.NextBuffered: the aggregation loop gathers its rows first and groups them then.
- Sorting.KeyOrdersExactly: floats are reals, so NaN and the rounding of large integers are left out.
- Sorting.StableSortIs: where the comparison does not order the list, which order the library's sort gives is left open; the model's is that of insertion.
- Halloween.DrainCreate: for read-only inputs; MERGE, SET, REMOVE and DELETE are not executed in the model. Storage errors while creating are left out, errors of property expressions are not.
- MatchLaws.MatchMeans: for paths of single hops with names of their own; which rows there are, not how often or in which order, which follows from `PlanLaws.ScanMeans` and `PlanLaws.ExpandMeans`. Property maps of a MATCH pattern, which the planner does not look at either, are not in the model's patterns.
- Aggregates.DistinctExactly: for values that can be ordered; otherwise the library's sort decides what stands next to what.
- Starts.DrainMatch: one pattern of a query's first MATCH; WHERE, OPTIONAL MATCH and clauses before it are covered only as far as `Starts.SafePlanKnown` and `Halloween.DrainCreate` go. Evaluating a variable is assumed to look it up in the row.
- Creating.RunCreate: the engine is a graph value that is passed on; the type id that a created relationship is bound with is a parameter.
- Printing.RoundTrip: at token level; the lexer is left out except that it joins a minus with a number and takes a call such as `date('x')` for a literal, and so are string escapes and source spans. For printable expressions, which leave out what is not read back: IS [NOT] NULL on the left of an operator or as the base of a postfix, a minus over other than a closed or named primary or over a number without a sign, lower slice bounds that are operands, a `*` that opens a longer argument list, regular expressions, floats without a fraction, local times, CASE without subject and alternatives, names that are keywords, and a call that the lexer takes for a literal. Names are taken to have the form of identifiers. String concatenation, which prints as `+` and is read as addition, is not an operator of the model.
- ReadBack.ReadsBackIff: for expressions with printable parts; whether one with an unprintable part can be read back after all is not stated. EXISTS and pattern comprehensions are left out: their patterns are one abstract token.
- Parser.ExprParser.ReadIdent: EXISTS is a failure, since it goes on to patterns and clauses.
- Scope.Sound: one way; the converse holds only where every part is reached (`Scope.Exact`), because CASE and empty lists skip what they do not come by.
- Scope.Evaluate: operators, functions, property access and slicing on values are parameters; which operation is applied to which values is `EvalLaws.OperationLaw`.
- Catalog.FrameRoundTrip: for bodies below 4 GiB; the length field wraps beyond, and what then happens depends on the checksum.
- Catalog.SchemaCatalog.GetOrCreateLabel: for a name not yet known, requires fewer than 2^32 - 2 names so far; the counter wraps beyond.
- Whole-query planning, the lexer, clauses, transactions, the WAL, B+ trees, the RDF store, the server and the command line are not part of this model.
- File-system calls, NUMA placement and the internals of the checksums are not part of this model.
- That log records reach the disk before the pages they describe is checked by the batch flusher only, and is stated only for it.
