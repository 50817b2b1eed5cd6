# Verified model of OpenSY's algorithmic cores

This project models, in Dafny, the parts of OpenSY whose correctness is an argument rather than a
reading of the code, and proves what their comments and tests promise.

**Cluster linearization** (`src/cluster_linearize.h`). A cluster is a set of transactions with
ancestor and descendant closures. The code orders such a cluster so that the fee collected by every
prefix is as large as possible. Orders are compared by their *feerate diagrams*: the fees and sizes of
the prefixes, or of the chunks, of an order. `Dominates(g, a, b)` is defined without chunks: for every
slope, every prefix of `b` is matched by some prefix of `a` that lies as high along that slope.
`DominatesIffDiagram` proves that this is exactly "the piecewise linear diagram through the chunks of
`a` is nowhere below that of `b`". The classes `DepGraph`, `LinearizationChunking`,
`AncestorCandidateFinder` and `SearchCandidateFinder` keep the fields of the source's classes. Fees and
sizes are unbounded integers, a set type is a finite set of positions iterated in ascending order, and
random numbers are function parameters. `Linearize` is optimal from a stated number of iterations on. All three
guarantees of `PostLinearize` are proved: connected chunks, optimality for trees of either shape, and that replacing a
leaf by one that pays more and moving it to the end does no harm. `CompareChunks` (`src/util/feefrac.cpp`), which walks along two
diagrams at once, is proved to decide exactly that order.

**Coin caches** (`src/coins.cpp`, `src/coins.h`). A view of the unspent outputs is a database under any
number of write-back caches. `CoinsViews` gives every operation on values and says what a stack shows;
`CoinsRuns` proves that whole runs over any stack show at every level what plain maps would hold.
`CoinsTables` and `CoinsCursors` model the linked list through the flagged entries, and `CoinsCaches` the
objects, which do to their fields what is specified on values. Two promises turn out to hold only under a
condition, which is proved exact: spending reports success also for a coin that is cached as spent
(`SpendReports`, `SpendTwice`), and writing back hands over the best block only if the cache knows it
(`FlushMovesBest`, `FlushForgetsBest`).

**Check queue** (`src/checkqueue.h`). The master, the workers and the shared counters are one transition
system; its steps are the critical sections and the execution of one check, in any interleaving. Wake-ups
without a notification may happen at any time.

**Headers sync** (`src/headerssync.cpp`). A peer's chain is downloaded twice, first keeping one-bit
commitments only. The steps are functions on the state; a run is any sequence of messages. Hashes, block
proofs, the permitted difficulty transitions and the commitment function are arbitrary functions. The
buffer may have any size, as in the source. With a size of zero, which is the default of the parameter, the
second download compares difficulties with the starting block instead of the predecessor. So what every run
releases is permitted in its difficulty throughout exactly if the size is not zero (`BufferSizeDecides`, with
the run `EmptyBufferForgetsDifficulty`), and a peer that serves its chain twice always succeeds exactly under
a condition on its messages that then matters (`WholeSyncSucceeds`).

**Address manager** (`src/addrman.cpp`). `Consistent` ties the entries, the two tables, both indexes, the
random order and all counters together. Every method of the class keeps it, leaves no tried slot empty
that was occupied, and uses no id twice (`Evolves`). Slots that hold -1 are absent keys of a map. Hashes
are arbitrary functions. The manager's own check, `CheckAddrman`, is proved to pass exactly if what it looks at is right
(`Passes`), and `ConsistentIffPasses` says what it does not look at.

**Block index** (`src/chain.cpp`). Blocks are objects with parent and skip pointers. A tree is a set of
blocks that holds the parents of its blocks and whose skip pointers were built in order.

**256-bit arithmetic** (`src/arith_uint256.cpp`, `src/arith_uint256.h`). Numbers are sequences of 32-bit
limbs of any width; `Value` is the number they stand for. All operations are stated on that value.

**Bech32 and Base58** (`src/bech32.cpp`, `src/base58.cpp`). The checksum's remainder is linear over the
exclusive or, and one of its steps is injective; the round trips and the detection of error bursts follow
for sequences of any length. On strings, a burst is detected unless it only changes the case of letters or
moves the last separator, and `SeparatorMoved` shows that the latter can go unnoticed. Base58 numbers are digits to either base; decoding is proved to be the exact
inverse of encoding, and the digit buffers large enough for every length.

Where the code differs from what is written about it, the model follows the code: a cursor over a cache
visits flagged entries, of which only the dirty ones are written; `DecodeBase58` never looks at its limit
for an empty text, so an empty result passes any limit, also a negative one.

## Model

| member | source | states |
|---|---|---|
| FeeFracs.ExcessTransitive | src/util/feefrac.h:150-180 | comparing feerates by cross-multiplication is transitive through any fraction of positive size |
| AncestorFinders.BetterTransitive | src/util/feefrac.h:183-188 | the order with ties broken towards the smaller size is transitive on positive sizes |
| Clusters.FilterTopological | src/cluster_linearize.h:446-452 | keeping only some transactions of a topological order leaves a topological order |
| Chunkings.ChunksAreChunking | src/cluster_linearize.h:409-424 | the merge loop yields a partition of the order into chunks of non-increasing feerate, each of whose proper prefixes is strictly lower than the chunk |
| Chunkings.ChunkingUnique | src/cluster_linearize.h:405-424 | those two conditions determine the chunks: any other such partition is the same one |
| Chunkings.PrefixBelow | src/cluster_linearize.h:405-424 | every prefix of an order lies on or below the line through any chunk of it, extended both ways |
| Diagrams.BestBoundary | src/cluster_linearize.h:405-424 | for every slope, the prefix lying highest along that slope can be taken to end at a chunk boundary |
| Diagrams.DominatesIffDiagram | src/util/feefrac.h:214-233 | comparing all prefixes along all slopes is the same as comparing the real-valued piecewise linear diagrams through the chunks |
| Gathering.GatheringTheorem | src/cluster_linearize.h:518-526 | moving a set to the front does not make the diagram worse, when the set is at least as good as the first chunk and none of its intersections with a chunk prefix is better than the set |
| DepGraphs.DepGraph.constructor | src/cluster_linearize.h:66 | the empty graph is valid |
| DepGraphs.DepGraph.Remap | src/cluster_linearize.h:90-112 | with an injective mapping the new graph has the mapped positions and feerates, its ancestry is contained in the mapped ancestry, and for an acyclic graph it is isomorphic |
| DepGraphs.AllMapped | src/cluster_linearize.h:90-112 | re-adding only the reduced parents restores every ancestor |
| DepGraphs.DepGraph.AddTransaction | src/cluster_linearize.h:134-147 | the first unused position gets the feerate and is related to itself only; all other positions keep their relations |
| DepGraphs.DepGraph.RemoveTransactions | src/cluster_linearize.h:158-172 | the relation is restricted to the remaining positions, unused entries at the end are dropped, and closure is kept |
| DepGraphs.DepGraph.AddDependencies | src/cluster_linearize.h:178-199 | ancestors stay reflexive and transitive, descendants stay their inverse, and the new relation is the old one with the new edges added and closed |
| DepGraphs.AddDependenciesIsClosure | src/cluster_linearize.h:178-199 | after adding dependencies, one transaction is an ancestor of another exactly when a path of old ancestry steps and new edges connects them |
| DepGraphs.GetReducedParents | src/cluster_linearize.h:209-220 | in an acyclic graph the result is the set of maximal strict ancestors; in any graph it lies within the strict ancestors |
| DepGraphs.FeeRate | src/cluster_linearize.h:247-252 | the loop adds up the feerates of exactly the given set |
| DepGraphs.GetConnectedComponent | src/cluster_linearize.h:264-280 | the result contains the transaction, is connected, and nothing in it is related to anything left outside it |
| DepGraphs.AppendTopo | src/cluster_linearize.h:314-324 | exactly the selected transactions are appended, once each, in an order compatible with their dependencies |
| LinearizationChunkings.ChunkLinearization | src/cluster_linearize.h:409-424 | the loop over feerates computes the feerates of the chunks |
| LinearizationChunkings.BuildChunks | src/cluster_linearize.h:446-471 | the chunks with their sets are those of the order restricted to what is left, also after a leading part is dropped |
| LinearizationChunkings.LinearizationChunking.constructor | src/cluster_linearize.h:475-483 | the visible chunks are those of the whole order |
| LinearizationChunkings.LinearizationChunking.MarkDone | src/cluster_linearize.h:496-516 | after any subset is marked done, by the skipping path or by rebuilding, the visible chunks equal chunking from scratch the original order restricted to what is left |
| LinearizationChunkings.FirstChunkDone | src/cluster_linearize.h:503-508 | when exactly the first chunk is done, the remaining chunks are unchanged, so skipping one is enough |
| LinearizationChunkings.LinearizationChunking.IntersectPrefixes | src/cluster_linearize.h:527-551 | the result is an intersection of the given set with a chunk prefix, at least as good as the set, non-empty if the set is, and can be moved to the front without loss whenever the set is at least as good as the first chunk |
| LinearizationChunkings.PrefixPartClosed | src/cluster_linearize.h:527-551 | the intersection of a closed set with a chunk prefix of a topological order is closed |
| AncestorFinders.AncestorCandidateFinder.constructor | src/cluster_linearize.h:578-602 | the stored feerates are those of the ancestor sets, although each is derived from another transaction's |
| AncestorFinders.AncestorCandidateFinder.MarkDone | src/cluster_linearize.h:610-621 | after removing a closed set the stored feerates are those of the remaining ancestor sets |
| AncestorFinders.AncestorCandidateFinder.FindCandidateSet | src/cluster_linearize.h:640-653 | the result is the ancestor set of a remaining transaction and no remaining ancestor set is better |
| SearchBounds.PotentialIsBest | src/cluster_linearize.h:838-848 | the greedy potential set is at least as good as any set between the included and the not excluded transactions |
| SearchBounds.PotentialBounds | src/cluster_linearize.h:818-823 | a set between the included and the not excluded transactions that beats the best has no higher feerate than the potential set |
| SearchBounds.JumpAhead | src/cluster_linearize.h:850-870 | including the ancestors of the potential set loses no best closed set |
| Searching.AddItem | src/cluster_linearize.h:832-902 | every closed set that beats the best and lies between the included and undecided transactions is still offered by the queue, or the best has caught up with it |
| Searching.SplitItem | src/cluster_linearize.h:907-979 | an item is split exactly if it is promising, and else nothing changes; splitting loses nothing, both children have strictly fewer undecided transactions, and the queue stays within its capacity |
| SearchLoops.StartQueue | src/cluster_linearize.h:793-812 | the queue starts with one item per connected component, which together cover what is left |
| SearchLoops.BestPart | src/cluster_linearize.h:793-812 | some component's share of a closed set is at least as good as the whole set |
| SearchLoops.MakeRoom | src/cluster_linearize.h:986-1003 | the first item can always be processed breadth-first or depth-first without exceeding the capacity |
| SearchLoops.Explore | src/cluster_linearize.h:981-1015 | for every budget the loop keeps the item at index k within capacity minus its undecided count, never reads an empty queue, loses nothing, leaves the queue empty if budget remains, counts exactly the splits of promising items as iterations, and uses no more of them than the queue had work |
| SearchLoops.SplitLessWork | src/cluster_linearize.h:907-1015 | replacing an item by its children lowers a measure that does not depend on the budget |
| SearchLoops.StartingWork | src/cluster_linearize.h:793-812 | the items that the search starts with are together no more work than one item with all that is left |
| SearchLoops.FindBest | src/cluster_linearize.h:752-1021 | on the sorted graph, the search is optimal if it stops within its budget, never worse than the given set, and uses no more iterations than a bound on the number of transactions left |
| SearchFinders.SearchCandidateFinder.constructor | src/cluster_linearize.h:704-727 | sorting and renumbering by feerate gives an isomorphic graph whose order is by feerate |
| SearchFinders.SearchCandidateFinder.FindCandidateSet | src/cluster_linearize.h:752-1021 | the result is non-empty, closed and no worse than the given set; below the iteration limit no closed subset has a higher feerate; and it takes no more iterations than a bound on the number of transactions left, so from that limit on it is optimal |
| SearchFinders.SearchCandidateFinder.MarkDone | src/cluster_linearize.h:1027-1033 | what is left, seen in original positions, loses exactly the given set |
| Linearizing.MaximalIsGatherable | src/cluster_linearize.h:1094-1110 | a closed set of highest feerate can be moved to the front of every order without loss |
| Linearizing.InitialBest | src/cluster_linearize.h:1082-1091 | the set that a round starts from is closed, at least as good as the first remaining chunk of the old order, and no remaining ancestor set is better |
| Linearizing.Linearize | src/cluster_linearize.h:1055-1130 | the result is a topological permutation that dominates the old order, and dominates every topological order when reported optimal, which it is from a stated number of iterations on |
| Merging.BestOfBoth | src/cluster_linearize.h:1348-1364 | the chosen set can be moved to the front of both remaining orders without loss |
| Merging.MergeLinearizations | src/cluster_linearize.h:1338-1373 | the result is a topological permutation whose diagram dominates those of both inputs |
| FixingLinearizations.FixedIsTopological | src/cluster_linearize.h:1377-1405 | placing each transaction directly behind its last ancestor makes any permutation topological |
| FixingLinearizations.FixedKeepsTopological | src/cluster_linearize.h:1377-1405 | a topological order is left unchanged |
| FixingLinearizations.FixLinearization | src/cluster_linearize.h:1377-1405 | the array ends up as that permutation, without ever running past its front |
| PostGroups.SwapDominates | src/cluster_linearize.h:1288-1303 | swapping two adjacent groups, the later one of a feerate that is not lower, does not make the diagram worse |
| PostGroups.SettleWorks | src/cluster_linearize.h:1265-1305 | merging and swapping the last group forward keeps the order topological, does not make it worse, and keeps groups connected, tight and of non-increasing feerate |
| PostGroups.PassWorks | src/cluster_linearize.h:1249-1307 | a whole pass does so for every prefix of the order |
| PostGroups.GroupsPermute | src/cluster_linearize.h:1249-1307 | a pass permutes the order |
| Reversals.ReversedDominates | src/cluster_linearize.h:1160-1170 | one order dominates another exactly if the reversed one does in the reversed graph with negated fees |
| PostLinearizing.InsertRepresents | src/cluster_linearize.h:1251-1262 | linking in a new one-transaction group keeps the circular lists well-formed |
| PostLinearizing.MergeRepresents | src/cluster_linearize.h:1272-1286 | the pointer updates of a merge represent the concatenated groups |
| PostLinearizing.SwapRepresents | src/cluster_linearize.h:1287-1302 | the pointer updates of a swap represent the exchanged groups |
| PostLinearizing.SettleLast | src/cluster_linearize.h:1265-1305 | the inner loop over linked entries terminates and represents the settled groups |
| PostLinearizing.BuildGroups | src/cluster_linearize.h:1249-1307 | the outer loop represents the groups of the pass, forwards or backwards |
| PostLinearizing.WriteBack | src/cluster_linearize.h:1309-1329 | walking the lists writes the groups into the array, forwards or backwards |
| PostLinearizing.ForwardPass | src/cluster_linearize.h:1244-1329 | a forward pass gives a topological order at least as good, whose chunks are exactly its groups, each connected |
| PostLinearizing.BackwardPass | src/cluster_linearize.h:1244-1329 | a backward pass gives a topological order at least as good |
| PostLinearizing.PostLinearize | src/cluster_linearize.h:1149-1331 | for every topological input the array ends up as a forward pass over a backward pass makes it: topological, at least as good as either, with connected chunks, and at least as good as every topological order if each transaction has at most one child or each has at most one parent |
| PostTrees.OneLine | src/cluster_linearize.h:1140-1141 | if every transaction has at most one child, the descendants of each form a chain |
| PostTrees.SolidMerge | src/cluster_linearize.h:1272-1286 | a group merged into one that leads up to its last transaction leaves no closed part of a higher feerate than the whole |
| PostTrees.PassSolid | src/cluster_linearize.h:1154-1156 | with at most one child each, no group of a forward pass has a closed part of a higher feerate |
| PostTrees.SolidDominates | src/cluster_linearize.h:1140-1141 | groups without such parts, by non-increasing feerate, are at least as good as every topological order of the same transactions |
| PostTrees.TreePass | src/cluster_linearize.h:1154-1156 | with at most one child each, a forward pass gives an order at least as good as every topological one |
| PostLinearizing.BackwardTree | src/cluster_linearize.h:1154-1156 | with at most one parent each, a backward pass does |
| PostLinearizing.TreeOptimal | src/cluster_linearize.h:1140-1141 | post-linearizing a tree of either shape is optimal |
| MovedLeaves.GroupsWith | src/cluster_linearize.h:1249-1307 | a pass that starts with a transaction which none of the following depends on makes the groups it makes without it, and that transaction a group of its own among them |
| MovedLeaves.LeafMoved | src/cluster_linearize.h:1142-1146 | post-linearizing an order with a transaction without children moved to its end is at least as good as the order |
| MovedLeaves.ReplacedLeaf | src/cluster_linearize.h:1142-1146 | so it is when that transaction also pays a higher fee: the diagram is nowhere below the one before |
| DiagramComparing.CompareChunks | src/util/feefrac.cpp:10-73 | walking along both diagrams gives the order of the two piecewise linear functions: which of them is nowhere below the other, both, or neither |
| DiagramComparing.OrderIsDominance | src/util/feefrac.h:226-234 | for two orders of one cluster that comparison tells which of them dominates the other |
| DiagramComparing.AboveFurther | src/util/feefrac.cpp:38-66 | between neighbouring points of either diagram it is enough to compare at the ends |
| CoinsViews.GetCoinIsLookup | src/coins.cpp:48-67 | looking a coin up through any stack of caches returns what the view holds |
| CoinsViews.FetchKeepsView | src/coins.cpp:48-61 | a lookup, which copies the coin into every cache on the way, changes no view and keeps all flags accurate |
| CoinsViews.AddIsUpdate | src/coins.cpp:69-108 | adding is a map update that keeps the flags accurate exactly if the output is unspendable, overwriting is announced, or nothing is overwritten |
| CoinsViews.SpendIsRemoval | src/coins.cpp:130-150 | spending removes the coin from the view and keeps the flags accurate |
| CoinsViews.SpendReports | src/coins.cpp:130-150 | spending reports success exactly for coins of the view and for coins with an entry in the cache, and returns the coin of the view |
| CoinsViews.SpendTwice | src/coins.cpp:130-150 | an input on which spending a coin that the view no longer holds reports success |
| CoinsViews.UncacheKeepsView | src/coins.cpp:275-288 | dropping an unmodified entry changes no view |
| CoinsViews.UncacheDropsClean | src/coins.cpp:275-288 | the entry is gone exactly if it is not dirty, and no other entry changes |
| CoinsViews.FetchOnlyCopies | src/coins.cpp:48-61 | a lookup changes no other entry and not the best block; it copies the coin of the parent, without flags, exactly if there is no entry and the parent has the coin |
| CoinsViews.AddFlagsEntry | src/coins.cpp:69-108 | adding is refused exactly if an unspent cached coin would be overwritten unannounced; the entry is dirty, and fresh exactly if it was or no dirty one is overwritten and no overwriting announced; nothing else changes |
| CoinsViews.SpendErasesFresh | src/coins.cpp:130-150 | spending erases a fresh entry and leaves any other as a dirty spent one; nothing else changes |
| CoinsViews.WriteTakesDirty | src/coins.cpp:183-249 | exactly the dirty entries replace those of the parent cache, where a spent one that is fresh there is erased |
| CoinsViews.WriteMovesView | src/coins.cpp:183-249 | writing accurate entries to a base makes it show what the cache showed; it fails exactly for a null block hash given to the database, never for a misapplied flag |
| CoinsViews.FlushMovesView | src/coins.cpp:251-260 | flushing keeps the view and the best block, empties the cache and makes the base show the view |
| CoinsViews.SyncMovesView | src/coins.cpp:262-273 | syncing keeps the view, keeps exactly the unspent entries, none of them dirty, and makes the base show the view |
| CoinsViews.BestFetchKeepsView | src/coins.cpp:173-177 | asking for the best block, which every cache on the way remembers, changes no view and no best block |
| CoinsViews.FlushMovesBest | src/coins.cpp:247-260 | writing back hands over the best block exactly if the cache has one, the base has none of its own, or what is below the base agrees with it |
| CoinsViews.FlushForgetsBest | src/coins.cpp:247-260 | an input on which a cache that never asked for its best block makes its base forget its own |
| CoinsRuns.StepRefines | src/coins.cpp:48-288 | every step at any level of a stack does to the shown maps what the same step does to plain maps |
| CoinsRuns.RunRefines | src/coins.cpp:48-288 | every run over any stack shows at every level what plain maps hold, and throws nothing but for a null block hash |
| CoinsTables.AddFlags | src/coins.h:125-138 | the entry is flagged, and the circular list holds exactly the flagged entries |
| CoinsTables.SetClean | src/coins.h:173-180 | the entry is unflagged and unlinked, and the list holds exactly the flagged entries |
| CoinsTables.CleanedUsage | src/coins.h:281-287 | erasing the spent entries frees no counted memory |
| CoinsCursors.NextAndMaybeErase | src/coins.h:276-290 | the next flagged entry is returned, and the current one is erased, cleaned or kept |
| CoinsCursors.WriteAll | src/coins.h:258-292 | writing only the flagged entries writes everything that writing all entries would |
| CoinsCaches.WriteToCache | src/coins.cpp:183-249 | the loop over the cursor writes the whole batch, fails exactly on a misapplied flag, and keeps the list and the memory count exact |
| CoinsCaches.CoinsDatabase.BatchWrite | src/txdb.cpp:96-159 | the database becomes the written one, or stays as it was for a null block hash |
| CoinsCaches.CoinsCache.FetchCoin | src/coins.cpp:48-61 | the stack becomes the fetched one at every level |
| CoinsCaches.CoinsCache.GetCoin | src/coins.cpp:63-67 | the coin of the view is returned, and it is not spent |
| CoinsCaches.CoinsCache.AddCoin | src/coins.cpp:69-108 | the stack becomes the one with the coin added, or stays as it was when that throws |
| CoinsCaches.CoinsCache.SpendCoin | src/coins.cpp:130-150 | the stack becomes the one with the coin spent, and the moved coin is the fetched one |
| CoinsCaches.CoinsCache.HaveCoin | src/coins.cpp:163-166 | whether the view holds the coin |
| CoinsCaches.CoinsCache.GetBestBlock | src/coins.cpp:173-177 | the best block of the stack is returned and remembered |
| CoinsCaches.CoinsCache.Uncache | src/coins.cpp:275-288 | the entry is dropped exactly if it is not dirty, every other entry stays, and the stack becomes the specified one |
| CoinsCaches.CoinsCache.BatchWrite | src/coins.cpp:183-249 | the stack becomes the written one, failing exactly on a misapplied flag |
| CoinsCaches.CoinsCache.Flush | src/coins.cpp:251-260 | the stack becomes the flushed one |
| CoinsCaches.CoinsCache.Sync | src/coins.cpp:262-273 | the stack becomes the synced one, with an empty list of flagged entries |
| CoinsCaches.CoinsCache.SanityCheck | src/coins.cpp:316-346 | recomputing the memory and counting the dirty entries gives the stored memory count and the length of the list |
| CheckQueues.BatchSize | src/checkqueue.h:116-124 | a batch is not empty, is no larger than the queue, and respects the limit |
| CheckQueues.BatchIsShare | src/checkqueue.h:116-121 | a batch is as large as the limit and an equal share for all threads, idle ones counted twice, allow, and at least one |
| CheckQueues.SkippedAfterFailure | src/checkqueue.h:125-134 | a batch just taken is worked on exactly if no failure is recorded |
| CheckQueues.StepKeeps | src/checkqueue.h:72-137 | every enabled step of every thread is defined, so that no counter wraps around, and keeps the invariant |
| CheckQueues.EveryRunIsCorrect | src/checkqueue.h:72-189 | in every interleaving the counter of unfinished checks is exact, and every finished round executed or skipped all its checks and returned no failure exactly if all its checks pass, else the failure of one of them |
| CheckQueues.RoundEnds | src/checkqueue.h:99-106 | the result that the master returns belongs to this round's checks: none exactly if all of them pass |
| CheckQueues.WaitingMasterHasWorker | src/checkqueue.h:84-110 | while the master waits without having been notified, some worker holds a batch |
| CheckQueues.WorkerProgress | src/checkqueue.h:82-133 | a thread that holds a batch can always do a step that leaves less work |
| CheckQueues.MasterCanReturn | src/checkqueue.h:72-137 | from every state in which the master waits for completion it can return without waking a thread that was not notified |
| CheckQueues.StepLowers | src/checkqueue.h:72-137 | while the master is inside, every step lowers a measure or makes the master return; only a wake-up without a notification may leave it as it is |
| CheckQueues.EveryRunReturns | src/checkqueue.h:72-137 | in every interleaving the master has returned once more steps other than such wake-ups were done than the measure allows |
| CheckQueues.NeverStuck | src/checkqueue.h:72-137 | until the master returns, such a step is always possible |
| HeadersSyncSafety.PresyncAllKeeps | src/headerssync.cpp:136-210 | what the first download keeps is the work, the last header and exactly the commitment bits of a linked chain |
| HeadersSyncSafety.RedownloadOneKeeps | src/headerssync.cpp:212-275 | an accepted header extends a chain of headers that name their predecessors, are permitted in their difficulty, or with a buffer size of zero permitted after the starting block, and whose bits agree with the stored ones until the work is enough |
| HeadersSyncSafety.PopKeeps | src/headerssync.cpp:277-291 | released headers are rebuilt exactly; one is released once more headers than the buffer's size follow, or once the work is enough |
| HeadersSyncSafety.ProcessExplained | src/headerssync.cpp:65-134 | a message of any content keeps the released headers explained by a chain that agrees with the commitments |
| HeadersSyncSafety.PresyncAnswer | src/headerssync.cpp:76-100 | in the first download a message succeeds exactly if it extends the chain as permitted and leaves room for its commitments, and more is asked for exactly if it succeeded and is full or brings enough work |
| HeadersSyncSafety.RedownloadAnswer | src/headerssync.cpp:101-134 | in the second download a message succeeds exactly if it continues the chain and agrees with the commitments until the work is enough; more is asked for exactly if it succeeded, is full and the work is not enough; all headers are released once it is, and else all but the last ones |
| HeadersSyncSafety.RedownloadAccepts | src/headerssync.cpp:212-275 | with a buffer size above zero that is to say that both downloads together are accepted |
| HeadersSyncSafety.ContinuesIsLinked | src/headerssync.cpp:226-238 | with a buffer size above zero a message continues the chain exactly if the whole chain is linked |
| HeadersSyncSafety.IgnoredAnswer | src/headerssync.cpp:69-74 | an empty message, or one after the end, is refused and changes nothing |
| HeadersSyncSafety.EveryRunIsSafe | src/headerssync.cpp:65-291 | whatever the peer sends and for every buffer size, the released headers are the front of such a chain that agrees with the commitments of one with enough work, and memory stays bounded |
| HeadersSyncSafety.SameBitAtSameHeight | src/headerssync.cpp:247-267 | at each checked height with a commitment, the second download's header has the bit of the first one's header at the same height |
| HeadersSyncSafety.HonestPeerSucceeds | src/headerssync.cpp:89-134 | a peer that serves its chain again gets all of it released, exactly if the first header of each message may follow an empty buffer |
| HeadersSyncSafety.WholeSyncSucceeds | src/headerssync.cpp:17-291 | from the start, serving a chain with enough work twice ends with everything released that was served the second time, always with a buffer size above zero and else exactly under that condition on the messages |
| HeadersSyncSafety.EmptyBufferForgetsDifficulty | src/headerssync.cpp:226-238 | with a buffer size of zero, a run of three messages releases two headers of which the second changes the difficulty of the first as is not permitted |
| HeadersSyncSafety.BrokenRun | src/kernel/chainparams.h:66-72 | concrete rules and headers for that run, with a buffer size of zero |
| HeadersSyncSafety.BufferSizeDecides | src/headerssync.cpp:226-238 | all runs under all rules of a buffer size release only permitted chains, exactly if that size is not zero |
| HeadersSyncs.ChainedIsLinked | src/headerssync.cpp:226-238 | with a buffer size above zero the second download makes sure of the same as the first |
| HeadersSyncStates.HeadersSyncState.constructor | src/headerssync.cpp:17-46 | the sync starts in its first phase at the given block |
| HeadersSyncStates.HeadersSyncState.Finalize | src/headerssync.cpp:48-61 | everything kept is dropped |
| HeadersSyncStates.HeadersSyncState.ProcessNextHeaders | src/headerssync.cpp:65-134 | the fields and the result are those specified for a message, of which the three answers say when it succeeds, asks for more and what it releases |
| HeadersSyncStates.HeadersSyncState.ValidateAndStoreHeadersCommitments | src/headerssync.cpp:136-172 | the loop over a message's headers does what is specified for the first download |
| HeadersSyncStates.HeadersSyncState.ValidateAndProcessSingleHeader | src/headerssync.cpp:174-210 | one header of the first download is checked and committed to as specified |
| HeadersSyncStates.HeadersSyncState.ValidateAndStoreRedownloadedHeader | src/headerssync.cpp:212-275 | one header of the second download is checked and buffered as specified |
| HeadersSyncStates.HeadersSyncState.PopHeadersReadyForAcceptance | src/headerssync.cpp:277-291 | the loop releases the headers that are specified to be ready |
| AddrMans.AddrMan.constructor | src/addrman.cpp:109-125 | the empty manager is consistent |
| AddrMans.AddrMan.Create | src/addrman.cpp:416-430 | a new id gets the entry, both indexes and the counters |
| AddrMans.AddrMan.SwapRandom | src/addrman.cpp:432-454 | two places of the random order are exchanged, with the positions stored in their entries |
| AddrMans.AddrMan.Delete | src/addrman.cpp:456-471 | an entry in no table is removed from everything |
| AddrMans.AddrMan.ClearNew | src/addrman.cpp:473-489 | a slot of the new table is cleared, and its entry deleted if that was its only slot |
| AddrMans.AddrMan.LeaveNew | src/addrman.cpp:495-505 | the loop over all buckets, stopped early, finds every slot of the entry |
| AddrMoves.AllVisited | src/addrman.cpp:495-509 | after all buckets no reference is left, so the assertion on the count holds |
| AddrMoves.KeepsEvicted | src/addrman.cpp:516-541 | moving a tried entry back to its slot of the new table keeps every table, index and counter right |
| AddrMans.AddrMan.MakeTried | src/addrman.cpp:491-548 | the entry is tried, in its hashed slot and no other, an entry evicted from there is new, in its own slot, the rest of both tables and all that is known of the addresses stays, and everything stays consistent |
| AddrMans.AddrMan.PlaceNew | src/addrman.cpp:599-623 | the entry takes the slot exactly if it is free or another entry holds it that is terrible or, for a new entry, has other slots; else a new entry is deleted again |
| AddrMans.AddrMan.AddSingle | src/addrman.cpp:550-624 | an address that is not routable changes nothing; one that is not known is inserted exactly if its slot yields, with its source, services and time less the penalty; a known one gets the union of the services and the later time, and another slot exactly if it has news, is new, may have more slots, is lucky and the slot yields; nothing else becomes known, and the manager stays consistent |
| AddrMans.AddrMan.Refresh | src/addrman.cpp:566-595 | the services and the time of a known address are updated, and another slot is wanted exactly if four tests pass |
| AddrMans.RefreshedTime | src/addrman.cpp:566-573 | the time of a known address only moves forward, not beyond the announced time less the penalty, and ends up at most an interval behind it |
| AddrMans.AddrMan.Good | src/addrman.cpp:626-679 | the times of the address and of the manager are set and its failures forgotten; it becomes tried exactly if it is known as new and either no other entry holds its tried slot or no test is asked for, and its id is recorded as a collision exactly in the other case, while there is room; the manager stays consistent |
| AddrMans.AddrMan.Attempt | src/addrman.cpp:693-711 | only the statistics of the address change, and the manager stays consistent |
| AddrMans.AddrMan.Connected | src/addrman.cpp:877-894 | only the time of the address changes, and the manager stays consistent |
| AddrMans.AddrMan.SetServices | src/addrman.cpp:896-910 | only the services of the address change, and the manager stays consistent |
| AddrMans.AddrMan.ResolveCollisions | src/addrman.cpp:912-973 | the manager stays consistent, and every collision was looked at and is left exactly if it was to wait |
| AddrMans.AddrMan.Resolve | src/addrman.cpp:916-971 | a collision waits, is dropped or replaces the tried entry as its times decide, which for the last is a successful connection at this time; the slot it wants is always taken |
| AddrMans.AddrMan.SelectTriedCollision | src/addrman.cpp:975-1001 | the tried entry that a live collision waits for always exists |
| AddrMans.CollisionTaken | src/addrman.cpp:916-1001 | the slot that a live collision wants is occupied by a tried entry, so the branch for a free slot and the lookup of id -1 cannot be reached |
| AddrMans.CollisionsKept | src/addrman.cpp:660-670 | occupied tried slots never become empty and ids are never used again, so recorded collisions stay collisions |
| AddrMans.AddrMan.GetAddr | src/addrman.cpp:812-851 | the returned addresses are distinct, qualify, and respect both limits; if fewer than the limit are returned, all that qualify are; nothing but the random order changes, whose front is shuffled by the given random numbers |
| AddrMans.LimitIsLargest | src/addrman.cpp:817-824 | the number of addresses returned at most is the largest one that meets both limits, of which zero is none |
| AddrMans.KeptIf | src/addrman.cpp:69-92 | an entry is not terrible exactly if it was tried within the last minute, or its time is neither in the future nor too old and it has not failed too often |
| AddrChecks.CheckAddrman | src/addrman.cpp:1063-1166 | the check returns zero exactly if everything it looks at is right and the key is not null |
| AddrChecks.ConsistentIffPasses | src/addrman.cpp:1063-1166 | a state is consistent exactly if it passes and has no id beyond the counter, no stale address in the index, and a counter for each network |
| AddrChecks.ConsistentPasses | src/addrman.cpp:1048-1061 | every consistent state passes the check |
| AddrChecks.MissedCounter | src/addrman.cpp:1152-1163 | a family of inconsistent states that pass: a missing network counter is made up for by an unused one |
| Chains.SkipsBack | src/chain.cpp:69-81 | from height one on, the skip height is below the height and not negative |
| Chains.BlockIndex.GetAncestor | src/chain.cpp:83-108 | following skip pointers returns what walking back block by block would, and null exactly for heights out of range |
| Chains.BlockIndex.BuildSkip | src/chain.cpp:115-119 | the tree with the new block is built |
| Chains.LastCommonAncestor | src/chain.cpp:155-178 | the highest block that is an ancestor of both is returned |
| Chains.Chain.SetTip | src/chain.cpp:16-24 | stopping at the first block already there still leaves every ancestor of the tip at its height |
| Chains.MetOldChain | src/chain.cpp:20-23 | below a block that was already there the old chain is right |
| Chains.Chain.FindFork | src/chain.cpp:50-59 | the highest ancestor that the chain contains is returned, or null if there is none |
| Limbs.Add | src/arith_uint256.h:117-127 | addition modulo two to the width |
| Limbs.Negate | src/arith_uint256.h:59-66 | negation modulo two to the width |
| Limbs.Subtract | src/arith_uint256.h:129-133 | subtraction modulo two to the width |
| Limbs.Increment | src/arith_uint256.h:155-162 | adding one modulo two to the width, although the carry stops early |
| Limbs.Complement | src/arith_uint256.h:51-57 | the complement is the largest number minus the number |
| Limbs.CompareTo | src/arith_uint256.cpp:101-111 | the sign of the comparison of the numbers |
| LimbProducts.MultiplyBy | src/arith_uint256.cpp:47-57 | the product with one limb modulo two to the width |
| LimbProducts.Multiply | src/arith_uint256.cpp:59-73 | the product modulo two to the width; no row overflows its 64-bit accumulator |
| LimbProducts.FitsTwoLimbs | src/arith_uint256.cpp:66-68 | a product of limbs with two limbs added fits into 64 bits |
| LimbShifts.ShiftLeft | src/arith_uint256.cpp:13-28 | the product with a power of two modulo two to the width, for every shift |
| LimbShifts.ShiftRight | src/arith_uint256.cpp:30-45 | the quotient by a power of two, for every shift |
| LimbDivision.Bits | src/arith_uint256.cpp:155-168 | the position of the highest one bit, plus one |
| LimbDivision.Divide | src/arith_uint256.cpp:75-99 | the quotient rounded down; an error exactly for the divisor zero |
| CompactTargets.SetCompact | src/arith_uint256.cpp:173-193 | the value is the represented magnitude modulo two to the 256; overflow is reported exactly if the magnitude does not fit, a negative number exactly if it is not zero and has the sign |
| CompactTargets.GetCompact | src/arith_uint256.cpp:195-216 | the mantissa is the three leading bytes, or two if a third would look like a sign, and no assertion fails |
| CompactTargets.EncodingRoundsDownOnce | src/arith_uint256.cpp:173-216 | an encoded number decodes to at most itself, and encoding that again gives the same code |
| CompactTargets.EncodingIsClosest | src/arith_uint256.cpp:173-216 | of all numbers that can be written in compact form and are not above a number, its encoding is the largest |
| CompactTargets.Recode | src/arith_uint256.cpp:173-216 | decoding and encoding what was encoded gives the same code, with either sign |
| CompactTargets.GetBlockProof | src/chain.cpp:121-134 | two to the 256 divided by the target plus one, rounded down, and zero for a target that is zero, negative or too large; no division by zero |
| CompactTargets.NotAllOnes | src/chain.cpp:126-133 | the successor of an accepted target is not zero |
| Bech32Checksums.StepLinear | src/bech32.cpp:177-214 | a step of the remainder is linear over the exclusive or |
| Bech32Checksums.StepInjective | src/bech32.cpp:177-214 | a step maps only the zero remainder to zero |
| Bech32Checksums.AbsorbedLinear | src/bech32.cpp:130-216 | the remainder of a sum of sequences is the sum of the remainders |
| Bech32Checksums.ChecksumIsTheOne | src/bech32.cpp:341-353 | exactly one choice of six symbols gives the wanted remainder, and it is the created checksum |
| Bech32Checksums.BurstDetected | src/bech32.cpp:130-216 | a change within six consecutive symbols of a sequence of any length changes the remainder |
| Bech32s.ChecksumVerifies | src/bech32.cpp:326-353 | six symbols verify under an encoding exactly if they are its created checksum |
| Bech32s.BurstNeverVerifies | src/bech32.cpp:326-339 | a change within six consecutive symbols never verifies under the same encoding |
| Bech32s.BurstNeverDecodes | src/bech32.cpp:373-400 | changing at most six consecutive characters after the separator gives a string that does not decode under the same encoding, unless only the case of letters or the last separator changed |
| Bech32s.SeparatorMoved | src/bech32.cpp:373-400 | two strings that differ in six consecutive characters, with another last separator, and both decode under the same encoding |
| Bech32Vectors.VectorDecodes | src/test/bech32_tests.cpp:36-46 | a test vector of BIP 350 that uses every symbol is what is encoded, and decodes, under Bech32m |
| Bech32s.EncodedDecodes | src/bech32.cpp:357-400 | what is encoded decodes to the same encoding, human-readable part and values |
| Bech32s.DecodedEncodes | src/bech32.cpp:357-400 | what is decoded encodes to the same string in lower case |
| Bech32s.DecodesOnce | src/bech32.cpp:373-400 | a string decodes in at most one way |
| Bech32s.ComputePolyMod | src/bech32.cpp:130-216 | the loop computes the remainder |
| Bech32s.CheckCharacters | src/bech32.cpp:287-309 | all characters are printable and letters are of one case |
| Bech32s.Encode | src/bech32.cpp:357-371 | the string of the part, the separator, the values and the checksum |
| Bech32s.Decode | src/bech32.cpp:373-400 | the decoding of the string, and a failure exactly if it has none |
| PowerBounds.RoomForDigits | src/base58.cpp:98-100 | for every length, the buffer of base-58 digits has room for every number of so many bytes |
| PowerBounds.RoomForBytes | src/base58.cpp:53-55 | for every length, the buffer of bytes has room for every number of so many base-58 digits |
| Digits.MulAdd | src/base58.cpp:101-114 | the inner loop multiplies the number in the buffer and adds to it, leaves its digits without leading zeros, and has nothing left to carry |
| Recoding.RecodeTwice | src/base58.cpp:40-127 | writing digits to another base, with the same number of leading zeros, and back gives them again |
| Base58.TableOfAlphabet | src/base58.cpp:19-38 | the lookup table gives every character of the alphabet its index |
| Base58.EncodedDecodes | src/base58.cpp:40-127 | decoding what was encoded gives the bytes back |
| Base58.DecodedEncodes | src/base58.cpp:40-127 | encoding what was decoded gives the text back |
| Base58.EncodeBase58 | src/base58.cpp:89-127 | the text of the bytes, for every length |
| Base58.DecodeBase58 | src/base58.cpp:40-87 | accepted exactly if the string is, apart from surrounding spaces, the encoding of bytes within the limit, and these are returned |

## Left out

- Integer widths of cluster linearization: fees and sizes are unbounded, so the source's 64-bit fees, 32-bit sizes and their overflow are not modelled.
- `GetReducedChildren`, `FindConnectedComponent`, `IsConnected` and `IsAcyclic`: mirror images of, or one call to, operations that are modelled.
- `DepGraph::Compact` and all reservation of memory other than the search queue's capacity.
- Coins: the content of a coin that was moved from, and the state of a child cache after its base has thrown.
- Coins: `SetBackend`, `EmplaceCoinInternalDANGER`, `ReallocateCache`, `AccessByTxid`, `AddCoins`, `HaveInputs` and the error catcher; the first two bypass the stack, the others are loops or wrappers over modelled operations.
- CoinsCaches.CoinsDatabase.BatchWrite: writes one batch, without the partial ones and the marks for a crash between them.
- Coins: partial batches of the database and recovery from a crash between them.
- Coins: a table of entries with links is a value that the objects reassign, so pointers to entries do not alias.
- Check queue: the stop request of the destructor; workers may wake up at any time, so their notifications are not modelled; what a check yields is fixed per check.
- CheckQueues.MasterCanReturn: says that a return is always possible; that all runs reach it is stated by `CheckQueues.EveryRunReturns` and `CheckQueues.NeverStuck`.
- Headers sync: the locator, the limit on commitments as computed from clock times, and the wrap-around of total work at 256 bits.
- Address manager: `Select_` and `GetChance` (floating point and random termination), serialization, the loop of `Add_`, `FindAddressEntry_`, `Size_`, and `GetEntries_`.
- AddrChecks.CheckAddrman: says when the result is zero, not which of the other codes is returned, because that depends on the order of an unordered map.
- Address manager: `GetNetClass` is taken to be the network of an address.
- AddrMans.AddrMan.ResolveCollisions: visits the collisions in any order, of which the source's ascending one is one.
- Block index: `LocatorEntries`, `FindEarliestAtLeast`, `GetMedianTimePast` and `GetBlockProofEquivalentTime`.
- Arithmetic: `getdouble`, hexadecimal conversion, `EqualTo`, decrement, the bitwise operators and 64-bit operands; limbs are sequences that methods return, so operands do not alias.
- Bech32: `LocateErrors`, its tables over the field of 1024 elements, and the error positions that `CheckCharacters` collects.
- Base58: the checksum of `EncodeBase58Check` and `DecodeBase58Check`, whose hash is not part of this model, and strings too long for 32-bit lengths.
