# Verified models of the cores of a Bitcoin Core fork

Dafny models of the parts of this repository whose correctness is least obvious from reading
one function, and proofs of what they promise. `dafny verify dfyconfig.toml` (Dafny 4.11) checks the
whole project.

Each component is modelled in the form the source has. Objects whose methods change fields are
classes; loops are loops; lists that are relinked in place are relinked in place. Such methods are
proved against functions and predicates on values, and lemmas prove what the source promises about
those.

| files | what they model |
|---|---|
| `Collections` | what several of the models need of lists, sets and maps in general |
| `FeeFrac`, `Diagram`, `NatSets` | feerates, chunkings and feerate diagrams: dominance, its pointwise meaning, the least concave majorant |
| `DepGraph` | the dependency graph kept as transitive closures, its updates and remapping |
| `Chunking`, `LinearizationChunking`, `Merge` | chunking a linearization, keeping the chunks while parts are removed, merging two linearizations |
| `PostLinearize`, `PostLinearizeTrees`, `PostLinearizeLeaf` | the linked list of groups inside a table, its joins and swaps, the two passes over it and what they guarantee |
| `Search`, `SearchFinder`, `AncestorFinder`, `Linearize` | branch and bound with its pruning, jump-ahead and component split; the two candidate finders; linearization |
| `CoinEntries`, `Coins` | the stack of coin caches with flagged entries on an intrusive circular list, down to a database |
| `AddrBook`, `AddrCheck`, `AddrMan` | the address manager: five indexes over one set of addresses, all operations, and its own consistency check |
| `AddrFile`, `AddrLoad`, `AddrRestore`, `AddrDisk` | saving and loading the address manager, and the round trip |
| `CheckQueue` | the check queue as a transition system over its critical sections |
| `HeadersSync` | the two-phase headers synchronisation with commitments and look-ahead buffer |
| `Limbs`, `ArithUint`, `Compact` | fixed-width integers over 32-bit limbs, the compact encoding, proof of work per block |
| `Chain` | the block tree with skip pointers, the active chain, forks and locators |
| `Base58` | Base58 and Base58Check, with the digit estimates |

Main results:

- **Cluster linearization.** A search that ends before its iterations are used up has found a set no
  topological subset beats (`CandidateSearch.Search`), and with as many iterations as there are
  subsets it always ends before; for any budget its result is that of a run of the source's steps. A
  linearization claimed optimal is nowhere below any other, and enough iterations always lead to that
  claim; for any budget it is what the source's rounds emit, and no round emits a lower feerate than
  that of the best ancestor set left (`Linearizing.Linearize`). `PostLinearize`, `MergeLinearizations`
  and `Linearize` never lower the feerate diagram at any point. What is promised of `PostLinearize`
  besides is proved too: its chunks are connected (`PostLinearization.PostLinearize`), it is optimal
  where every transaction has at most one child or every one at most one parent
  (`PostLinearizationTrees.TreesOptimal`), and it makes up for moving a transaction without descendants
  to the end (`PostLinearizationLeaf.MovedLeaf`). Diagrams are compared by how far they rise above every
  line; `Diagrams.DominatesIffDiagram` proves this to be pointwise comparison of the chunk diagrams.
  Copying a graph through reduced parents preserves ancestry on acyclic graphs, and of all others
  exactly on those whose cycles are pairs without further ancestors (`DepGraphs.RemapExact`, with
  `DepGraphs.CopyCyclic` where it does not).
- **Coin caches.** Any run over a stack of caches of any depth, with caches stacked, flushed and
  discarded on the way, shows at every level and finds what a stack of plain maps does, and one plain
  map tells all as long as none is discarded (`Coins.Replay`), for callers that deny overwriting only
  where there is nothing to overwrite. `AddCoin` keeps a cache sound if and only if its caller
  is honest in that sense.
- **Address manager.** The invariant behind the manager's own check is kept by every operation; when an
  address is inserted, moved, evicted or dropped, and what becomes of its slots and statistics, is
  exact (`AddrMan.AddrManImpl.AddSingle`, `AddrMan.AddrManImpl.MakeTried`); the check returns 0 exactly
  if all its conditions hold; saving and loading restores everything (`AddrDisk.Reload`). Loading is
  modelled for every stream.
- **Check queue.** In every interleaving the master's result is right, nothing stale is returned, no
  wakeup is lost, and every call ends.
- **Headers synchronisation.** What is released over a run is the leading part of one continuous chain
  that agrees with its commitments; below the work required, 14827 headers with 23 matched
  commitments lie above everything released (`HeadersSyncs.Download`); an honest replay is never
  turned down, and what is turned down in either phase is said exactly.
- **Arithmetic and chain.** Limb arithmetic is arithmetic modulo 2^n for every width, shifts and
  division included; the proof of a block is exactly floor(2^256 / (target + 1)); skip pointers lead
  where the parents lead.
- **Base58.** Both carry assertions hold for every input, since 256^n <= 58^(138n/100+1) and
  58^n <= 256^(733n/1000+1); decoding and encoding are inverse in both directions.

Where the code and its documentation differ, the model follows the code:

- `SpendCoin` is said to have no effect where there is no unspent coin (src/coins.h:433-438). On a
  cached entry that is spent already it reports success and may mark or erase the entry, which changes
  nothing that is seen (`Coins.SpendTwice`, `Coins.SpendFresh`); so it does on a spent coin answered
  from below. It is without effect if and only if neither is there (`Coins.CoinsViewCache.SpendCoin`).
- `Flush` and `Sync` are said to push all modifications to the base (src/coins.h:439-456). They hand
  the cache's own block hash down even where that is still null, and the base then no longer knows its
  own (`Coins.FlushForgetsBlock`). The best block seen stays if and only if the hash handed down is not
  null or the base had none of its own or the one seen below it (`Coins.CoinsViewCache.Flush`).

## Model

| member | source | states |
|---|---|---|
| `FeeFracs.BetterTransitive` | src/util/feefrac.h:119-139 | The order that breaks feerate ties by smaller size is total and transitive on non-empty pairs |
| `FeeFracs.RatesCompared` | src/util/feefrac.h:93-139 | Between non-empty pairs >> and << compare fee per size as real numbers, and > does so preferring the smaller size of two equal feerates |
| `Diagrams.DominatesIffDiagram` | src/cluster_linearize.h:1301-1301 | Dominance as used in all results below (one list rises at least as far above every line as the other) is exactly: the chunk feerate diagram of one list is nowhere below that of the other |
| `Diagrams.DiagramMajorizes` | src/cluster_linearize.h:373-389 | The diagram of the chunks lies on or above every prefix point of the linearization |
| `Diagrams.DiagramIsLeast` | src/cluster_linearize.h:373-389 | Any concave function on or above all prefix points is on or above the diagram of the chunks: it is the least concave majorant |
| `Diagrams.ChunkingUnique` | src/cluster_linearize.h:373-389 | A list has one chunking only |
| `Diagrams.DominatesInContext` | src/cluster_linearize.h:1125-1145 | Replacing a part of a list by one that dominates it never lowers the diagram of the whole |
| `Diagrams.MergeTight` | src/cluster_linearize.h:1243-1262 | Absorbing the previous group into one of higher feerate keeps the group tight: no inner point shows in any diagram |
| `Diagrams.SwapDominates` | src/cluster_linearize.h:1263-1271 | Moving a tight group of higher feerate before a tight one of lower feerate lowers the diagram nowhere |
| `Diagrams.ReversedDominates` | src/cluster_linearize.h:1113-1145 | A list read backwards with negated fees improves exactly when the list itself does: why a backward pass may work on negated fees |
| `Diagrams.MergeChunk` | src/cluster_linearize.h:378-384 | Absorbing the previous chunk while the new one has a strictly higher feerate gives a chunk again |
| `NatSets.SortSet` | src/cluster_linearize.h:301-311 | Sorting lists exactly the elements of a set, each once, in the order given |
| `DepGraphs.SumFeeRates` | src/cluster_linearize.h:246-251 | The loop over a set of transactions computes the sum of their fees and sizes |
| `DepGraphs.Reduce` | src/cluster_linearize.h:208-219 | Of a set exactly those are kept that no other one of it is above, and of those that are each other's ancestors the first; they cover, by ancestry, all of it, and none is an ancestor of another |
| `DepGraphs.GetReducedParents` | src/cluster_linearize.h:208-219 | A minimal set of parents whose ancestors, with the transaction itself, are all its ancestors |
| `DepGraphs.CycleLosesAncestor` | src/cluster_linearize.h:208-219 | Whatever the mapping, the copy of a graph with two transactions in a cycle over a third no longer has the third as an ancestor of either, so it is not the mapped graph |
| `DepGraphs.CopyCyclic` | src/cluster_linearize.h:89-111 | The copy of that graph in the same order, made: the third is an ancestor no more |
| `DepGraphs.FindConnectedComponent` | src/cluster_linearize.h:265-280 | The smallest set that contains the first position of todo and is closed under ancestry and descent within todo; it does not fall into unrelated parts |
| `DepGraphs.AppendTopo` | src/cluster_linearize.h:301-311 | Appends exactly the selected transactions, each once, by number of ancestors and then position; so ancestors come first |
| `DepGraphs.LinkedIsClosure` | src/cluster_linearize.h:177-198 | The relation AddDependencies computes is the closure of the old one and the new edges, even where those close a cycle |
| `DepGraphs.RemapComplete` | src/cluster_linearize.h:89-111 | Connecting every transaction to its reduced parents restores the whole ancestor relation if all cycles are pairs without further ancestors, on acyclic graphs above all |
| `DepGraphs.RemapExact` | src/cluster_linearize.h:89-111 | For every graph, cyclic or not: the copy is the mapped graph exactly if any two transactions that are each other's ancestors have no further ancestors |
| `DepGraphs.RemapLoses` | src/cluster_linearize.h:89-111 | The first two positions of a cycle keep only each other in the copy: every other ancestor of theirs is lost |
| `DepGraphs.RemapLower` | src/cluster_linearize.h:89-111 | No mapped ancestor is missing after remapping: by induction over the number of ancestors |
| `DepGraphs.DepGraph.Remapped` | src/cluster_linearize.h:89-111 | For an injective mapping the copy has the same fees and exactly the mapped ancestor relation if the graph is acyclic, and for any graph if and only if its cycles are pairs without further ancestors |
| `DepGraphs.DepGraph.AddTransaction` | src/cluster_linearize.h:133-146 | The new transaction takes the first free position, is related to itself only, and changes nothing else; ancestors and descendants stay reflexive, transitive and inverse |
| `DepGraphs.DepGraph.RemoveTransactions` | src/cluster_linearize.h:157-171 | Positions are dropped from all relations, trailing unused entries are cut, what remains keeps its indirect relations and stays reflexive, transitive and inverse |
| `DepGraphs.DepGraph.AddDependencies` | src/cluster_linearize.h:177-198 | Afterwards the stored relation is the least reflexive transitive one with the old relation and the new edges, cycles included, and descendants are its inverse |
| `Chunkings.ChunkLinearization` | src/cluster_linearize.h:374-389 | The result is the chunk sums of the only way to cut the linearization into chunks (feerates do not increase, no proper prefix of a chunk has a feerate as high as the chunk); total fee and size are conserved |
| `Chunkings.ChunksUnique` | src/cluster_linearize.h:406-436 | A structure that holds the chunks of a list holds what chunking it from scratch gives |
| `Chunkings.MoveToFront` | src/cluster_linearize.h:484-491 | A set none of whose intersections with chunk prefixes has a higher feerate, and not below the first chunk, can move to the front without lowering the diagram anywhere |
| `LinearizationChunkings.SkipFirst` | src/cluster_linearize.h:461-481 | Skipping the first chunk leaves the chunks of what remains |
| `LinearizationChunkings.LinearizationChunking.BuildChunks` | src/cluster_linearize.h:411-436 | Dropping the finished prefix and rechunking leaves exactly the chunks of what remains |
| `LinearizationChunkings.LinearizationChunking.MarkDone` | src/cluster_linearize.h:461-481 | After any MarkDone, on the path that only skips a chunk too, what remains keeps its order and the stored chunks are those of a fresh chunking |
| `LinearizationChunkings.LinearizationChunking.IntersectPrefixes` | src/cluster_linearize.h:492-516 | The result is exactly the intersection with the shortest prefix of the chunks that meets the argument and is not of lower feerate; it is topological if the argument is, and none of its own intersections with chunk prefixes beats it |
| `Merging.StepTopo` | src/cluster_linearize.h:1318-1333 | Moving a topological part of what remains to its front keeps the order valid |
| `Merging.StepProgress` | src/cluster_linearize.h:1313-1335 | Emitting next a set that may lead keeps the whole, emitted and remaining, nowhere below the input |
| `Merging.LeadsBoth` | src/cluster_linearize.h:1318-1330 | The better of the two first chunks, intersected with the other linearization, may lead both |
| `Merging.MergeLinearizations` | src/cluster_linearize.h:1302-1337 | The result is a linearization whose diagram is nowhere below that of either input |
| `PostLinearization.AppendRep` | src/cluster_linearize.h:1213-1229 | Putting a new group behind the last one keeps the table a circle of groups |
| `PostLinearization.SwapRep` | src/cluster_linearize.h:1263-1271 | Relinking three group pointers swaps two neighbouring groups of the circle |
| `PostLinearization.JoinRep` | src/cluster_linearize.h:1243-1262 | Chaining two groups and adding up the tail fields joins them in the circle |
| `PostLinearization.ImproveSwap` | src/cluster_linearize.h:1233-1271 | Swapping past a group it does not depend on keeps the order valid and the diagram nowhere below |
| `PostLinearization.ImproveJoin` | src/cluster_linearize.h:1243-1262 | Joining changes the grouping only, and the joined group is tight |
| `PostLinearization.TakeIn` | src/cluster_linearize.h:1213-1272 | Taking in one more transaction ends, and leaves the table standing for exactly the groups that moving it forward past and into groups of lower feerate gives, a valid order of what was read, nowhere below it |
| `PostLinearization.WriteBack` | src/cluster_linearize.h:1274-1292 | Writing the groups back, last first and each from its tail, gives exactly their transactions in order (reversed in a backward pass), a valid permutation of the input nowhere below it |
| `PostLinearization.Pass` | src/cluster_linearize.h:1206-1294 | One pass, backward or forward, gives exactly what moving each transaction forward in groups gives; it keeps the transactions, the order valid and the diagram nowhere below |
| `PostLinearization.MovedFalls` | src/cluster_linearize.h:1125-1145 | Once a group has moved as far as it gets, no group has a higher feerate than the one before it, and every group is a connected chunk |
| `PostLinearization.GroupsAreChunks` | src/cluster_linearize.h:1102-1116 | The groups of a forward pass are exactly the chunks of its result, and each of them is connected |
| `PostLinearization.PostLinearize` | src/cluster_linearize.h:1113-1295 | Both passes end and leave exactly what the backward and then the forward pass give: a topologically valid permutation of any valid input whose diagram is nowhere below the input, cut into chunks that are all connected |
| `PostLinearizationTrees.JoinedWhole` | src/cluster_linearize.h:1243-1262 | Where needed transactions form chains, a group that takes in one it depends on still has no part that could go first at a higher feerate |
| `PostLinearizationTrees.GroupsOptimal` | src/cluster_linearize.h:1102-1120 | Groups that cannot be split, in falling order of feerate, are nowhere below any other valid order |
| `PostLinearizationTrees.PassOptimal` | src/cluster_linearize.h:1117-1120 | A forward pass is optimal where transactions have at most one child each, a backward pass where they have at most one parent |
| `PostLinearizationTrees.TreesOptimal` | src/cluster_linearize.h:1102-1105 | Where every transaction has at most one child, or every one at most one parent, the result is nowhere below any linearization at all |
| `PostLinearizationLeaf.GroupedInserted` | src/cluster_linearize.h:1105-1122 | A pass that reads first a transaction nothing else needs only inserts it among the groups it makes of the others, behind exactly those of higher feerate |
| `PostLinearizationLeaf.LeafComesBack` | src/cluster_linearize.h:1121-1122 | A backward pass takes a leaf at the end at least to where it was: the result is nowhere below the linearization with the leaf at its old place |
| `PostLinearizationLeaf.MovedLeaf` | src/cluster_linearize.h:1105-1110 | Moving a leaf to the end of a linearization, with its fee raised or not, and improving the result in place gives one nowhere below the original |
| `CandidateSearch.GrowPot` | src/cluster_linearize.h:800-814 | The potential is the included set with exactly those undecided transactions above best that are above the result, found highest first |
| `CandidateSearch.OnePotential` | src/cluster_linearize.h:800-814 | Only one set is its own potential in that sense |
| `CandidateSearch.PotBound` | src/cluster_linearize.h:797-814 | No set between inc and inc + und that beats best has a feerate above the potential, topological or not |
| `CandidateSearch.JumpKeeps` | src/cluster_linearize.h:815-834 | Any set that can come of an item and beats best can take in the whole jump-ahead without getting worse |
| `CandidateSearch.ShrinkImp` | src/cluster_linearize.h:784-788 | Dropping from the end what is not above best leaves exactly the transactions above best |
| `CandidateSearch.Improve` | src/cluster_linearize.h:837-847 | The incumbent is replaced only by something better, and imp follows it |
| `CandidateSearch.AddItem` | src/cluster_linearize.h:797-863 | Exactly: the potential is built, the largest topological part of it taken in, the incumbent replaced if that is better, and an item queued unless nothing is left of the potential; nothing that beats best is lost and the queue keeps within its room |
| `CandidateSearch.ChooseSplit` | src/cluster_linearize.h:898-930 | The split transaction t minimizes 2^I(t) + 2^E(t), the ways to choose from what stays undecided when t is included and when it is excluded, and is the first such one |
| `CandidateSearch.SplitItem` | src/cluster_linearize.h:872-944 | An item is dropped exactly if nothing undecided is above best or its potential is not better; otherwise the first undecided transaction with its ancestors decides which one is excluded and then included; nothing that beats best is lost |
| `CandidateSearch.FewerSplits` | src/cluster_linearize.h:872-944 | Both outcomes of a split together take fewer further splits than there were ways to decide the item |
| `CandidateSearch.Start` | src/cluster_linearize.h:757-789 | The queue starts with exactly the connected components of todo by first position, and best with the one given or else the first component; for every topological set something at least as good stays reachable |
| `CandidateSearch.ProcessItem` | src/cluster_linearize.h:958-978 | Taking an item from either end and splitting it keeps everything better reachable |
| `CandidateSearch.Explore` | src/cluster_linearize.h:946-980 | The loop is a run of swaps of the first two items and steps at the back while the queue is crowded and at the front otherwise, up to an empty queue or the end of the iterations; it never outgrows the queue, never loses a better set, and splits at most as often as there are ways to decide the queued items |
| `CandidateSearch.Search` | src/cluster_linearize.h:717-986 | The result and the iterations taken are those of a run from the components; a candidate no worse than the one given; with iterations left, no non-empty topological subset has a strictly higher feerate; never as many iterations as there are subsets, so with that many allowed the result is optimal |
| `CandidateSearch.SearchedOnce` | src/cluster_linearize.h:717-986 | What a search finds, for any budget, and how long it takes are determined by its input and by which swaps were made |
| `SearchFinders.SearchCandidateFinder.constructor` | src/cluster_linearize.h:669-692 | Transactions are renumbered by decreasing feerate, then increasing size and position, and the graph remapped accordingly |
| `SearchFinders.SearchCandidateFinder.FindCandidateSet` | src/cluster_linearize.h:717-986 | In original positions: what a run of the search on the sorted copy ends with, for any budget; a non-empty topological subset of what remains, no worse than the one given; fewer iterations than allowed means none of strictly higher feerate exists |
| `SearchFinders.SearchCandidateFinder.MarkDone` | src/cluster_linearize.h:992-998 | Exactly the given transactions no longer remain |
| `AncestorFinders.AncestorCandidateFinder.constructor` | src/cluster_linearize.h:543-565 | Every remaining ancestor set is stored with its fees |
| `AncestorFinders.AncestorCandidateFinder.MarkDone` | src/cluster_linearize.h:575-586 | The stored feerates stay those of the remaining ancestor sets |
| `AncestorFinders.AncestorCandidateFinder.FindCandidateSet` | src/cluster_linearize.h:605-618 | The remaining ancestor set of highest feerate, the smallest size among those, and of the first transaction among those of one size |
| `Linearizing.ChunkingExists` | src/cluster_linearize.h:374-389 | Every list of transactions has a chunking |
| `Linearizing.OptimalMayLead` | src/cluster_linearize.h:1059-1075 | A set no topological set beats may lead any order of what remains |
| `Linearizing.OptimalStep` | src/cluster_linearize.h:1043-1086 | Emitting an optimal set next keeps what is emitted nowhere below any linearization |
| `Linearizing.InitialBest` | src/cluster_linearize.h:1045-1052 | Exactly the first remaining chunk of the old linearization unless some ancestor set beats it, and then the best of those; no ancestor set beats the result |
| `Linearizing.Improved` | src/cluster_linearize.h:1054-1068 | A quarter of what is left is charged, half of the rest allowed, and the result is what a search with that many iterations finds; without iterations nothing is searched or spent; nothing worse, and optimal when it ends early |
| `Linearizing.NextSet` | src/cluster_linearize.h:1043-1077 | The next set is what was found if that is proven optimal or there is no old linearization, and otherwise its shortest part that spoils no point of the old diagram; no remaining ancestor set has a higher feerate |
| `Linearizing.Linearize` | src/cluster_linearize.h:1019-1094 | For any budget the result is what rounds of the above emit, each by number of ancestors, and no ancestor set of what was left at a round has a higher feerate than what it emitted; a linearization of all transactions, nowhere below the old one; optimal is claimed exactly if every search ended early, and then it is nowhere below any linearization at all, which a large enough budget always achieves |
| `CoinEntries.Appended` | src/coins.h:132-144 | Splicing an entry in before the sentinel appends it to the circular list of flagged entries |
| `CoinEntries.Unlinked` | src/coins.h:180-187 | Splicing an entry out removes exactly it from the list |
| `CoinEntries.MergeSound` | src/coins.cpp:183-246 | A written entry is sound in the parent and shows what it showed in the child; a fresh one never meets an unspent coin |
| `CoinEntries.MergedSound` | src/coins.cpp:183-248 | Writing all flagged entries makes the parent show what the child showed |
| `CoinEntries.SyncedSound` | src/coins.cpp:261-272 | After a sync what is left of the child is clean and as the base shows it |
| `Coins.CoinsViewDB.BatchWrite` | src/txdb.cpp:108-157 | A write that succeeds leaves the database showing what the cache over it showed, under the block hash given; one that fails leaves it as it was |
| `Coins.CoinsViewCache.AddFlags` | src/coins.h:132-144 | Sets flags on one entry; a flagged entry keeps its place, an unflagged one is appended to the list; the list stays well formed |
| `Coins.CoinsViewCache.SetClean` | src/coins.h:180-187 | Clears the flags of one entry and takes exactly it off the list |
| `Coins.CoinsViewCache.NextAndMaybeErase` | src/coins.h:284-298 | Returns the successor read before the entry is dealt with; erases it if spent, unflags it if not, or leaves it if all is erased later |
| `Coins.CoinsViewCache.FetchCoin` | src/coins.cpp:48-64 | Changes no view; finds an entry exactly if one is cached or below, and what is found is what is seen |
| `Coins.CoinsViewCache.GetCoin` | src/coins.cpp:66-70 | The unspent coin seen at the key, if any; no view changes |
| `Coins.CoinsViewCache.AddCoin` | src/coins.cpp:72-111 | A script that starts with 0x6a or is longer than 10000 bytes leaves everything as it is; any other coin is seen at the key afterwards, and nothing else changes, unless an unspent cached coin was not to be overwritten, which throws; the flags of the entry are stated exactly; the cache stays sound exactly if denying was honest |
| `Coins.CoinsViewCache.EmplaceCoinInternalDANGER` | src/coins.cpp:113-117 | Enters the coin as dirty where the cache has no entry and changes nothing otherwise |
| `Coins.CoinsViewCache.SpendCoin` | src/coins.cpp:130-150 | The view loses exactly this key and the coin is handed out; where no unspent coin is seen, the call fails and leaves entries and list unchanged if and only if no entry is cached and no spent coin is answered from below; what it does to the entries otherwise is stated exactly |
| `Coins.CoinsViewCache.AccessCoin` | src/coins.cpp:154-161 | The unspent coin seen at the key, or the empty one; no view changes |
| `Coins.CoinsViewCache.HaveCoin` | src/coins.cpp:163-166 | Whether an unspent coin is seen at the key |
| `Coins.CoinsViewCache.HaveCoinInCache` | src/coins.cpp:168-171 | True exactly if the cache has an entry at the key and a coin is seen there |
| `Coins.CoinsViewCache.GetBestBlock` | src/coins.cpp:173-177 | The best block seen through the cache, which the cache keeps from then on; no view changes |
| `Coins.CoinsViewCache.SetBestBlock` | src/coins.cpp:179-181 | Changes the best block only |
| `Coins.CoinsViewCache.WriteEntry` | src/coins.cpp:186-244 | The parent entry becomes the merge of both; never throws between sound caches |
| `Coins.CoinsViewCache.BatchWrite` | src/coins.cpp:183-248 | The parent shows what the child showed, all flags of the child are dealt with, and the error for a misapplied fresh flag is unreachable |
| `Coins.CoinsViewCache.Uncache` | src/coins.cpp:274-287 | Exactly an unmodified entry at the key is forgotten; no view changes |
| `Coins.CoinsViewCache.Flush` | src/coins.cpp:250-259 | The view stays, the base shows the same and this cache is empty; levels further down are untouched; the base takes on this cache's block hash, so the best block seen stays if and only if that is set or the base had none of its own or the one seen below it; a flush that fails changes nothing |
| `Coins.CoinsViewCache.Sync` | src/coins.cpp:261-272 | The view stays, the base shows the same, no flagged or spent entry is left; the error for uncleared entries is unreachable; the best block seen stays under the same condition as for a flush; a failed sync has unflagged its entries and not changed the base |
| `Coins.CoinsViewCache.SanityCheck` | src/coins.cpp:315-346 | Over any well-formed list the check passes exactly if no entry is fresh alone without being spent and every spent one is either dirty or fresh, which is always so in a sound cache; the checks of the list itself always pass |
| `Coins.TakeStep` | src/coins.cpp:48-287 | One step on the top cache of any stack does to what every level shows what it does to a stack of plain maps, and finds the same; adding is told by the script alone; it fails exactly if a write to the database does |
| `Coins.Replay` | src/coins.cpp:48-287 | Any run of lookups, additions, spends, flushes, syncs and stacked, flushed or discarded caches shows at every level and finds what a stack of plain maps does, and at the top what one plain map does if no cache is discarded; it ends exactly at the first failing write to the database, up to where it found the same |
| `Coins.OneMapTells` | src/coins.cpp:48-287 | In a run that discards no cache the topmost of a stack of plain maps shows and finds what one plain map does |
| `Coins.TemporaryCache` | src/coins.h:440-456 | Discarding a temporary cache leaves everything as before it was stacked; flushing it first does at once what its steps did one by one |
| `Coins.SpendTwice` | src/coins.cpp:130-150 | The difference from the documentation, at a dirty spent entry: spending once more succeeds though no unspent coin is seen |
| `Coins.SpendFresh` | src/coins.cpp:130-150 | The same at a fresh spent entry, which the call erases |
| `Coins.FlushForgetsBlock` | src/coins.cpp:250-259 | Two caches and a database: flushing the upper one under a null hash makes the best block seen fall back to that of the database |
| `AddrBooks.MembersShift` | src/addrman.cpp:1063-1100 | Changing one entry changes each count by what that entry contributes |
| `AddrBooks.TriedGroupLimit` | src/addrman.cpp:25-57 | All addresses of one group share 8 of the 256 tried buckets |
| `AddrBooks.NewGroupLimit` | src/addrman.cpp:27-65 | Whatever the sources of one group offer shares 64 of the 1024 new buckets; addresses of one group from sources of one group share one |
| `AddrBooks.CreateKeeps` | src/addrman.cpp:416-430 | Creating an entry keeps the invariant, the entry having no slot yet |
| `AddrBooks.SwapRandomOk` | src/addrman.cpp:432-454 | Swapping two positions of vRandom keeps it and the back-pointers in step |
| `AddrBooks.DropKeeps` | src/addrman.cpp:456-471 | Deleting an entry without references, last in vRandom, keeps the invariant |
| `AddrBooks.UnrefKeeps` | src/addrman.cpp:473-489 | Emptying a slot of the new table keeps reference counts equal to the slots held |
| `AddrBooks.RefKeeps` | src/addrman.cpp:610-613 | Giving an entry a free slot at its position keeps the invariant |
| `AddrBooks.LeaveNewKeeps` | src/addrman.cpp:506-509 | An entry without references can stop being counted as new |
| `AddrBooks.EvictKeeps` | src/addrman.cpp:516-526 | Taking an entry out of its tried slot keeps all but the count of it |
| `AddrBooks.ReenterKeeps` | src/addrman.cpp:528-538 | An evicted entry is sound again once it holds its primary new slot |
| `AddrBooks.PlaceKeeps` | src/addrman.cpp:542-547 | An entry put into its tried slot is sound there |
| `AddrMan.AddrManImpl.constructor` | src/addrman.cpp:109-125 | A new manager is empty, has seen no success, and satisfies the invariant |
| `AddrMan.AddrManImpl.Find` | src/addrman.cpp:401-414 | The id found is that of the entry with the address, and -1 exactly if there is none |
| `AddrMan.IsTerrible` | src/addrman.cpp:75-98 | An entry is terrible exactly if it was not tried within a minute and its time lies over ten minutes ahead or over thirty days back, or it never succeeded in three attempts, or not in ten and for over a week |
| `AddrMan.AddrManImpl.Create` | src/addrman.cpp:416-430 | Exactly one entry is added everywhere it has to be |
| `AddrMan.AddrManImpl.SwapRandom` | src/addrman.cpp:432-454 | Two positions of vRandom are exchanged with the back-pointers of their entries |
| `AddrMan.AddrManImpl.Delete` | src/addrman.cpp:456-471 | Only this entry goes, from every index; its assertions hold; the invariant is kept |
| `AddrMan.AddrManImpl.ClearNew` | src/addrman.cpp:473-489 | The slot is emptied and its entry loses one reference, or is deleted if that was its last |
| `AddrMan.AddrManImpl.RemoveFromNew` | src/addrman.cpp:495-505 | Scanning the buckets from any start finds every slot of the entry: no reference is left |
| `AddrMan.AddrManImpl.EvictTo` | src/addrman.cpp:515-538 | The entry of a tried slot moves to its primary new slot with one reference, the one in the way loses exactly that reference, and no other slot or entry changes |
| `AddrMan.AddrManImpl.MakeTried` | src/addrman.cpp:491-548 | The entry leaves all its new slots for its tried slot, the one there before goes to its primary new slot, one in the way there loses exactly a reference, and no other slot or entry changes; the assertions cannot fail |
| `AddrMan.AddrManImpl.AddSingle` | src/addrman.cpp:550-624 | Inserted exactly if routable, and either unknown or newer than known, not tried, below eight references and with a draw of 0 for a further one, and the slot for the source is free or held by another entry that is terrible or has further references while the address has none; time and services of the entry, created or known, are exact; the entry pushed out loses one reference; nothing else changes; the invariant holds |
| `AddrMan.AddrManImpl.Add` | src/addrman.cpp:681-691 | Each address in turn is dealt with as for one alone, at some times and with some draw, one after the other; the result tells whether any was inserted; the invariant holds |
| `AddrMan.AddrManImpl.Good` | src/addrman.cpp:626-679 | Moves the address to the tried table exactly if it is new and, when asked to test first, its slot is free; otherwise only its statistics change and a collision is noted, up to ten; the time of the last success is noted in any case; the invariant holds |
| `AddrMan.AddrManImpl.Attempt` | src/addrman.cpp:693-711 | Exactly the attempt statistics of this address change, and a failure is counted once per success elsewhere |
| `AddrMan.AddrManImpl.Connected` | src/addrman.cpp:877-894 | The time of this address becomes the given one exactly if it is over twenty minutes older, and nothing else changes |
| `AddrMan.AddrManImpl.SetServices` | src/addrman.cpp:896-910 | Exactly the services of this address change |
| `AddrMan.AddrManImpl.ResolveOne` | src/addrman.cpp:914-971 | Each collision is dropped, left, or resolved as the times of both addresses say; resolving moves the new address to the tried table and the old one back |
| `AddrMan.AddrManImpl.ResolveCollisions` | src/addrman.cpp:912-973 | Every waiting collision has one turn and is decided by the times of both addresses at that turn: it stays exactly if they say to wait, and otherwise is dropped or resolved; the last one resolved gives the time of the last success; the invariant holds |
| `AddrMan.AddrManImpl.SelectTriedCollision` | src/addrman.cpp:975-1001 | The slot looked up always holds a tried entry, which is returned; an unknown collision is dropped instead |
| `AddrMan.AddrManImpl.GetAddr` | src/addrman.cpp:812-851 | No address twice, none unwanted, within the limit, and all wanted ones if below it; shuffling changes positions only |
| `AddrMan.AddrManImpl.Limit` | src/addrman.cpp:817-824 | At most as many as there are, as the percentage and as the number given, and no fewer: one more would exceed one of these |
| `AddrMan.AddrManImpl.Size` | src/addrman.cpp:1026-1046 | The number of entries of a network or any, new, tried or both |
| `AddrMan.AddrManImpl.CheckAddrman` | src/addrman.cpp:1063-1166 | Returns 0 exactly if every condition it tests holds, which is always so between operations |
| `AddrChecks.OkChecked` | src/addrman.cpp:1063-1166 | The invariant kept by all operations implies every condition of the check |
| `AddrChecks.NewExcess` | src/addrman.cpp:1132-1146 | A reference beyond the count of an entry, or to no new entry, fails the check |
| `AddrFiles.HeaderRead` | src/addrman.cpp:231-280 | A header with a compatibility field below 32 is corrupt, above 36 unsupported; counts below 0 or above 65536 new and 16384 tried entries are corrupt; since format 1 bit 30 of the bucket count is flipped |
| `AddrFiles.HeaderCut` | src/addrman.cpp:231-267 | A stream without these six fields in order is refused |
| `AddrFiles.InfosReadBack` | src/addrman.cpp:185-201 | Reading back as many entries as were written gives them |
| `AddrFiles.BucketsReadBack` | src/addrman.cpp:202-220 | Reading back the buckets gives the entries of the new table in bucket order |
| `AddrFiles.FileReadBack` | src/addrman.cpp:133-228 | Reading a written file gives back all it was written from |
| `AddrLoads.NewMid` | src/addrman.cpp:282-291 | The new entries of a file without repeated addresses satisfy the invariant, but for their slots |
| `AddrLoads.EnterKeeps` | src/addrman.cpp:293-310 | A tried entry put straight into its free slot keeps the invariant |
| `AddrLoads.ReferencedMid` | src/addrman.cpp:348-376 | Placing references, at old or primary slots, keeps the invariant |
| `AddrLoads.LoadedMid` | src/addrman.cpp:231-376 | From any file without repeated addresses and with possible times, all the manager checks of itself holds once entries without slots are gone |
| `AddrRestores.TablesBound` | src/addrman.cpp:268-280 | A sound manager never holds more entries than loading accepts |
| `AddrRestores.TriedAllBack` | src/addrman.cpp:293-314 | Every tried entry returns to its slot: none is lost |
| `AddrRestores.BucketsBack` | src/addrman.cpp:348-376 | Every reference returns to the slot it came from |
| `AddrRestores.SavedIsSound` | src/addrman.cpp:133-228 | The file of a sound manager is sound and reads back |
| `AddrRestores.RoundTrip` | src/addrman.cpp:133-376 | With the same asmap, saving and loading gives the same entries up to numbering, memory-only fields and vRandom order: same reference counts, same slots in both tables, nothing lost or added |
| `AddrDisk.Serialize` | src/addrman.cpp:133-228 | The file lists every new and every tried entry once and every slot of the new table, and reads back with the counts and key of the manager; the assertions on the counts hold |
| `AddrDisk.LoadNews` | src/addrman.cpp:282-291 | Reads the new entries, or fails where the data ends |
| `AddrDisk.LoadTried` | src/addrman.cpp:293-314 | Reads the tried entries, losing the invalid and those whose slot is taken |
| `AddrDisk.LoadBuckets` | src/addrman.cpp:316-331 | Reads all bucket entries, skipping those that refer to no saved entry |
| `AddrDisk.PlaceEntry` | src/addrman.cpp:348-376 | Gives one reference back to its old slot if bucketing is unchanged and it is free, else to the primary one if free |
| `AddrDisk.Prune` | src/addrman.cpp:378-388 | Deletes exactly the entries without slots |
| `AddrDisk.Unserialize` | src/addrman.cpp:231-399 | Every stream: fails as the format demands, or loads what the file says; what it accepts passes the check; a file without repeated addresses and with possible times is always accepted |
| `AddrDisk.Reload` | src/addrman.cpp:133-399 | Saving any manager and loading the file into a new one succeeds and restores every entry to its places |
| `CheckQueues.BatchSize` | src/checkqueue.h:116-121 | The largest batch that is no more than the bound and an equal share for every thread, idle ones and one more, but at least one check |
| `CheckQueues.TakesBatch` | src/checkqueue.h:112-126 | A batch is the end of the queue, and is run unless a failure is already known |
| `CheckQueues.StopsAtFirst` | src/checkqueue.h:127-136 | A batch is run up to its first failure, which is its result |
| `CheckQueues.StepKeeps` | src/checkqueue.h:72-189 | Every step of every thread, in any interleaving, keeps the invariant: nTodo is queued plus in-flight checks, counters count threads, no failure of the round is lost, no result of an earlier round is carried |
| `CheckQueues.RunKeeps` | src/checkqueue.h:72-189 | The invariant holds after every run |
| `CheckQueues.CompleteIsRight` | src/checkqueue.h:72-169 | In every run, when the master returns, it returns nothing exactly if no check added since its last return failed, and otherwise a failure of this round |
| `CheckQueues.NoLostWakeup` | src/checkqueue.h:98-110 | While the master sleeps the queue is empty and some worker has checks in flight |
| `CheckQueues.LastWakesMaster` | src/checkqueue.h:84-92 | The worker that counts off the last checks wakes the sleeping master |
| `CheckQueues.OwnStepEffort` | src/checkqueue.h:72-137 | Every own step of a thread but the return of the master takes off a measure of the work left |
| `CheckQueues.NeverStuck` | src/checkqueue.h:72-137 | While the master is in its loop some thread can take an own step |
| `CheckQueues.CompleteEnds` | src/checkqueue.h:166-169 | Until a call of the master returns, any interleaving takes no more own steps than the work left and one for each spurious wakeup, and no others but those wakeups |
| `HeadersSyncs.CompressRestores` | src/headerssync.h:34-52 | Dropping the previous hash and restoring it gives the header back |
| `HeadersSyncs.CommitInPeriod` | src/headerssync.cpp:196-206 | Of a commitment period of heights in a row exactly one carries a commitment |
| `HeadersSyncs.ManyCommits` | src/headerssync.cpp:14-20 | So many periods of headers have at least as many commitments |
| `HeadersSyncs.HeadersSyncState.SafelyBuried` | src/headerssync.cpp:281-295 | Whatever is released has 14827 accepted headers with at least 23 matched commitments above it, always so in the second phase, or else the work required is reached |
| `HeadersSyncs.HeadersSyncState.Finalize` | src/headerssync.cpp:52-64 | All download state is cleared; what was released stays safe |
| `HeadersSyncs.HeadersSyncState.ValidateAndProcessSingleHeader` | src/headerssync.cpp:178-214 | Accepts a header exactly if its difficulty transition is permitted and a due commitment has room; height, commitments and work, what the chain starts with and the sum of the proofs of its headers modulo 2^256, stay those of the accepted chain |
| `HeadersSyncs.HeadersSyncState.ValidateAndStoreHeadersCommitments` | src/headerssync.cpp:140-176 | Takes in a whole message exactly if all of it links up, is permitted at every header and keeps the commitments within their bound; once the starting work and the proofs of all headers sum to the work required, and only then, the second phase starts from the chain start |
| `HeadersSyncs.HeadersSyncState.PreviousBits` | src/headerssync.cpp:229-235 | The difficulty taken as previous is always that of the true predecessor |
| `HeadersSyncs.HeadersSyncState.CheckCommitment` | src/headerssync.cpp:250-271 | One commitment is taken off the queue and compared |
| `HeadersSyncs.HeadersSyncState.ValidateAndStoreRedownloadedHeader` | src/headerssync.cpp:216-279 | Accepts a header exactly if it links up, its difficulty is permitted and, below the work required, its commitment matches |
| `HeadersSyncs.HeadersSyncState.PopHeadersReadyForAcceptance` | src/headerssync.cpp:281-295 | Releases the oldest headers, links restored, keeping 14827 back unless the work required is reached |
| `HeadersSyncs.HeadersSyncState.ProcessNextHeaders` | src/headerssync.cpp:69-138 | A message of the first phase succeeds exactly if with it the chain links up, is permitted and its commitments fit; one of the second exactly if it links up, is permitted and agrees with the first up to the work required; phases, what is released and when more is wanted follow exactly; a replay of the first phase is accepted |
| `HeadersSyncs.TakeMessage` | src/headerssync.cpp:69-138 | One message leads where the specification of the progress of a sync says and releases what that says |
| `HeadersSyncs.Download` | src/headerssync.cpp:69-138 | Over every run of any messages the released headers, put together, are what the specification says, the leading accepted ones with links restored, one chain from the start, and safe |
| `HeadersSyncs.ReplayBatch` | src/headerssync.cpp:69-138 | One more full batch of the replayed chain is accepted |
| `HeadersSyncs.Replay` | src/headerssync.cpp:69-279 | A peer that serves its chain again, in any batching, is never turned down, and all headers are released once the work required is met |
| `Limbs.BitOrDisjoint` | src/arith_uint256.cpp:22-26 | Or-ing disjoint bits adds them |
| `ArithUint.RowStep` | src/arith_uint256.cpp:63-70 | One limb of one row of the product keeps the value, carry included |
| `ArithUint.ShiftStep` | src/arith_uint256.cpp:21-26 | One round of a left shift puts the spill of the limb below and the kept bits together |
| `ArithUint.LowerStep` | src/arith_uint256.cpp:38-43 | One round of a right shift puts the low bits of a limb on top of the one below |
| `ArithUint.DivRound` | src/arith_uint256.cpp:88-95 | One round of the long division keeps numerator = quotient * divisor + remainder and the bound on the remainder |
| `ArithUint.BaseUint.Set` | src/arith_uint256.h:81-88 | The value is the 64-bit number given |
| `ArithUint.BaseUint.Complement` | src/arith_uint256.h:62-68 | 2^n - 1 less the value |
| `ArithUint.BaseUint.Negate` | src/arith_uint256.h:70-77 | The value negated modulo 2^n |
| `ArithUint.BaseUint.Increment` | src/arith_uint256.h:166-173 | The value plus one modulo 2^n, by carrying through full limbs |
| `ArithUint.BaseUint.Decrement` | src/arith_uint256.h:183-190 | The value less one modulo 2^n, by borrowing through empty limbs |
| `ArithUint.BaseUint.AddAssign` | src/arith_uint256.h:128-138 | The sum modulo 2^n, also of a number with itself |
| `ArithUint.BaseUint.SubAssign` | src/arith_uint256.h:140-144 | The difference modulo 2^n |
| `ArithUint.BaseUint.MulSmall` | src/arith_uint256.cpp:48-57 | The product with a limb modulo 2^n; the 64-bit intermediate does not overflow |
| `ArithUint.BaseUint.MulAssign` | src/arith_uint256.cpp:60-73 | The product modulo 2^n; the 64-bit intermediates do not overflow |
| `ArithUint.BaseUint.ShiftLeft` | src/arith_uint256.cpp:14-28 | The value times 2^shift modulo 2^n, for every shift |
| `ArithUint.BaseUint.ShiftRight` | src/arith_uint256.cpp:31-45 | The value divided by 2^shift, rounded down, for every shift |
| `ArithUint.BaseUint.DivAssign` | src/arith_uint256.cpp:76-99 | Floor division; division by zero is an error that leaves zero behind |
| `ArithUint.BaseUint.CompareTo` | src/arith_uint256.cpp:102-111 | The sign of the comparison of the two values |
| `ArithUint.BaseUint.EqualTo` | src/arith_uint256.cpp:114-125 | Whether the value is the 64-bit number given |
| `ArithUint.BaseUint.Bits` | src/arith_uint256.cpp:156-168 | The length of the value in bits: 2^(r-1) <= value < 2^r, and 0 for 0 |
| `ArithUint.BaseUint.GetLow64` | src/arith_uint256.h:238-242 | The value modulo 2^64 |
| `CompactBits.CompactRounds` | src/arith_uint256.cpp:195-221 | Encoding rounds down by less than one unit in the last place of the mantissa, exactly for short numbers; the result fits and is in lowest terms |
| `CompactBits.CanonicalRoundTrip` | src/arith_uint256.cpp:175-221 | Encodings in lowest terms survive decoding and encoding: they are exactly those that are produced |
| `CompactBits.OverflowTest` | src/arith_uint256.cpp:188-191 | The test on word and size holds exactly when mantissa * 256^(size-3) reaches 2^256 |
| `CompactBits.SetCompact` | src/arith_uint256.cpp:175-193 | The value is mantissa * 256^(size-3) modulo 2^256, rounded down; overflow is flagged exactly when that reaches 2^256, negative exactly for a sign on a non-zero number |
| `CompactBits.GetCompact` | src/arith_uint256.cpp:195-221 | The compact encoding, with the sign on non-zero mantissas only; its assertions hold for every value |
| `CompactBits.TargetRoom` | src/chain.cpp:139-143 | Adding one to a target that fits never wraps |
| `CompactBits.GetBlockProof` | src/chain.cpp:131-144 | Exactly floor(2^256 / (target + 1)), and 0 for negative, overflowing or zero targets |
| `Chains.ClearsLowestBit` | src/chain.cpp:79-80 | n & (n - 1) clears exactly the lowest set bit |
| `Chains.SkipsTo` | src/chain.cpp:82-91 | An even height loses its lowest set bit; an odd one keeps its last bit and loses the two lowest above it |
| `Chains.GetSkipHeight` | src/chain.cpp:82-91 | The skip height is strictly below the height |
| `Chains.BlockIndex.AncestorAt` | src/chain.cpp:93-118 | The walk along parents reaches the ancestor of each height |
| `Chains.BlockIndex.GetAncestor` | src/chain.cpp:93-118 | The walk over skip pointers ends and gives what the plain walk along parents gives, null outside the heights |
| `Chains.BlockIndex.BuildSkip` | src/chain.cpp:125-129 | The skip pointer is the ancestor at the skip height; every block whose skip pointers were right stays right |
| `Chains.LastCommonAncestor` | src/chain.cpp:163-180 | The highest block both descend from or are, null if none; the assertion holds |
| `Chains.LocatorFalls` | src/chain.cpp:31-48 | Locator heights fall strictly from the block to the genesis block |
| `Chains.LocatorAt` | src/chain.cpp:33-46 | Entry k lies k blocks below the tip up to 10 and 9 + 2^(k-10) from then on, but never below the genesis block |
| `Chains.LocatorIsShort` | src/chain.cpp:41-45 | A locator of n > 12 entries needs a height above 9 + 2^(n-12): its length is logarithmic |
| `Chains.LocatorEntries` | src/chain.cpp:31-48 | The hashes of the ancestors at the locator heights |
| `Chains.CChain.Height` | src/chain.h:488-492 | The height of the tip, -1 for an empty chain |
| `Chains.CChain.Genesis` | src/chain.h:453-457 | The ancestor of the tip at height 0 |
| `Chains.CChain.At` | src/chain.h:465-471 | The block of the chain at a height, null outside |
| `Chains.CChain.Contains` | src/chain.h:473-477 | True exactly for the tip and its ancestors |
| `Chains.CChain.Next` | src/chain.h:479-486 | The child in the chain of a block of it, null for the tip and for other blocks |
| `Chains.CChain.SetTip` | src/chain.cpp:21-29 | Afterwards entry i is the ancestor of the tip at height i, despite the early stop |
| `Chains.CChain.FindFork` | src/chain.cpp:60-69 | The highest block of the chain the given one descends from or is, null if none |
| `Base58.EncodeRoom` | src/base58.cpp:98-100 | 138/100 digits to the byte always suffice: 256^n <= 58^(138n/100+1) |
| `Base58.DecodeRoom` | src/base58.cpp:53-55 | 733/1000 bytes to the digit always suffice: 58^n <= 256^(733n/1000+1) |
| `Base58.MulAdd` | src/base58.cpp:60-72 | The buffer times a factor plus a digit, in place; the carry is 0 at the end whenever the result fits; the length counts the significant digits |
| `Base58.DigitsUnique` | src/base58.cpp:79-85 | Digits without leading zeroes are determined by their value |
| `Base58.AlphabetTable` | src/base58.cpp:19-38 | The decoding table inverts the alphabet, which holds no space and one digit 0 |
| `Base58.MapTable` | src/base58.cpp:19-38 | The alphabet inverts the decoding table |
| `Base58.EncodeBase58` | src/base58.cpp:89-127 | A 1 for each leading zero byte, then the number in base 58; the carry assertion cannot fail |
| `Base58.DecodeBase58` | src/base58.cpp:40-87 | Every string without NUL: spaces around are skipped, other characters refused, results over the limit refused, and otherwise the bytes the digits stand for; the carry assertion cannot fail |
| `Base58.DecodeText` | src/base58.cpp:129-135 | Strings with a NUL are refused |
| `Base58.DecodeEncode` | src/base58.cpp:40-127 | Decoding an encoding gives the bytes back exactly if the limit admits them, for every byte string |
| `Base58.EncodeDecode` | src/base58.cpp:40-127 | Text that is accepted is the encoding of its result with only spaces around it |
| `Base58.EncodeBase58Check` | src/base58.cpp:137-144 | The encoding of the bytes with the first four bytes of their hash |
| `Base58.DecodeBase58Check` | src/base58.cpp:146-161 | Accepts exactly if the checksum matches; otherwise nothing is returned |
| `Base58.CheckRoundTrip` | src/base58.cpp:137-161 | Bytes written with a checksum are read back exactly if there are no more than the limit and than 2147483643 |
| `Base58.CheckAccepts` | src/base58.cpp:146-161 | Whatever is accepted is what some bytes are written as, give or take spaces around it |

## Left out

- Integers are unbounded unless their width is the point: fees, sizes, work, heights, times and counters do not overflow in the model.
- `SetType` is a set of naturals without a capacity; `GetReducedChildren`, `IsConnected` and serialization of graphs are not modelled.
- Random choices (search order, iteration order of hash maps, selections) are nondeterministic or parameters; nothing is said about their distribution, so neither that a further reference to an address with n gets through with odds of one in 2^n.
- `AddrManImpl::Select_`, `GetEntries_` and `FindAddressEntry_` are not modelled: the first is about odds, the others only read.
- The hash functions behind buckets, block hashes, salted commitments and checksums are arbitrary functions; `PermittedDifficultyTransition` is an arbitrary predicate.
- Locks and the request to stop the check queue are not modelled: its critical sections are atomic steps, and only runs without a stop request are considered.
- Entries of a coin cache are addressed by outpoint instead of by node address; the moved-from coin of an erased entry is the empty coin.
- Memory usage counters, pool allocators, reallocation and tracepoints of the coin cache are not modelled, nor are `AddCoins`, `HaveInputs` and `AccessByTxid`.
- `Coins.CoinsViewDB.BatchWrite`: the database is written at once or not at all, as a parameter says; partial batches, the head blocks kept meanwhile and simulated crashes are not modelled.
- `Coins.CoinsViewCache.SanityCheck`: does not compare the recomputed memory usage with its counter, since memory usage is not modelled.
- Files of the address manager are streams of typed fields; the byte layout of numbers and addresses, and addresses the old format cannot hold, are not modelled.
- `AddrDisk.Unserialize`: the state after a failed read is not described; the source discards the object.
- The bound on stored commitments of a headers sync, which depends on the clock, is a parameter; the locator it requests and the salted hasher are not part of this model.
- Bitwise operators on whole numbers, hex and floating-point conversion, and `GetBlockProofEquivalentTime` are not modelled.
- `pprev` and the height of a block are constants of the block in the model; the source sets them once, before the skip pointer.
- `FindEarliestAtLeast` and the status, time and file fields of a block are not modelled.
- Base58 lengths are unbounded; the source's sizes are `int`.
- Proof-of-work changes of this fork (LWMA, RandomX), script and transaction validation are not part of this model.
