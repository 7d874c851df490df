# Models of the index, text and query-shipping cores of openGauss contrib modules

This project models, in Dafny, the parts of the `contrib` tree whose correctness is not visible from
reading one function, and proves what they promise for all inputs, all runs or all reachable states.

* **Edit distance** (`EditDistance`, `Text`, `Levenshtein`). The distance is defined as the minimum cost over edit
  scripts and, independently, over chains of single changes. The full two-row program and the bounded one, with its
  sliding band, sentinels, lowered substitution cost and moving source pointer, are loops over arrays proved to compute it.
* **GiST trees** (`GistTree`, `Nearest`). Trees of any depth, their search by pruned descent, insertion, deletion and page
  splits, and the best-first scan as a state machine, for any operator class.
* **Variable-length range keys** (`ByteOrder`, `VarKey`, `VarReach`, `VarCodec`, `VarSplit`, `VarIndex`, `VarLoss`) and **fixed-length
  range keys** (`NumKey`), with `RangeKey`, `Halving` and `SplitOffsets` shared. Byte layout, union with truncation, the consistent test, picksplit, and what a search
  finds after any run.
* **N-dimensional boxes** (`Cube`, `CubeOrder`, `CubeDistance`, `CubeVolume`, `CubeIndex`, `CubeSplit`). Coordinates are reals, missing
  dimensions are zero, corners come in either order.
* **Foreign query shipping** (`Expressions`, `Collation`, `ForeignExpr`, `Deparse`, `DeparseRun`, `Reparse`, `RoundTrip`, `RoundTripLimit`,
  `ParamNumbers`, `CursorScan`). The collation analysis, the expression printer with its parameter list, a parser without
  operator precedence that reads the printed tokens back, and the batched cursor scan.
* **Smaller cores** (`GinScan`, `Metaphone`, `MetaphoneTrace`).

Loops, buffers and objects of the source are loops, arrays and classes here; each is proved against a function on values,
and the theorems are about those functions. Clocks, memory contexts, catalogs, collation-aware comparison and the remote server
are parameters.

Places where the code does less than one would expect, each with an example and with the exact condition:

* `gbt_var_picksplit` may lose items when it splits inner pages of a truncating type (`VarLoss.InnerSplitLosesAnItem`). Which
  splits do is decided by the hulls of both sides (`VarSplit.SplitKeepsEntry`), which trees do by their keys
  (`VarIndex.SearchesAreExactExactlyWhen`, `VarReach.SafeExactlyWhen`).
* "Contained by" on boxes is pruned as "overlaps", which is right exactly if the query spans zero on every axis an item may
  lack (`CubeIndex.ContainedByExactlyWhen`, `CubeIndex.MissingItem`).
* `rt_cube_size` takes every extent as positive, so `g_cube_picksplit` counts the gap between entries that are apart as if they
  shared it, and its seeds need not be the pair that wastes most (`CubeVolume.InterSizeIsSharedExactlyWhen`,
  `CubeSplit.WasteIsTrueExactlyWhen`, `CubeSplit.SeedsNeedNotWasteMost`).
* `cube_cmp_v0` is transitive on two dimension counts exactly if they are equal or one is zero
  (`CubeOrder.TransitiveExactlyWhen`, `CubeOrder.MixedDimensionsCycle`).
* A subscript applied directly to a Var of another relation prints as `$n::type[...]`, where the bracket belongs to the type
  name; all other printed expressions read back (`RoundTripLimit.PrintedIsReadBackExactlyWhen`).
* The start value of GIN scans over int8 and money is one above the least value, so `<` and `<=` miss that one key
  (`GinScan.Int8ScanIsCompleteExactlyWhen`, `GinScan.Int8LeastIsMissed`). For "char" it is byte 128 in the order of the
  index, so they miss every ASCII key (`GinScan.CharScanIsCompleteExactlyWhen`, `GinScan.CharIsMissed`).

## Model

| member | source | states |
|---|---|---|
| EditDistance.DistanceIsMinimum | contrib/fuzzystrmatch/levenshtein.cpp:32-62 | The distance is the least cost of any edit script from s to t: no script is cheaper, some script attains it |
| EditDistance.DistanceIsCheapestChain | contrib/fuzzystrmatch/levenshtein.cpp:32-62 | With non-negative costs it is also the least cost of any sequence of single insertions, deletions and substitutions anywhere in the string |
| EditDistance.TriangleInequality | contrib/fuzzystrmatch/levenshtein.cpp:63-370 | Going through a third string is never cheaper, for all non-negative costs |
| EditDistance.ReversedDistance | contrib/fuzzystrmatch/levenshtein.cpp:63-370 | The distance back is the distance with insertion and deletion cost swapped |
| EditDistance.ZeroExactlyForEqual | contrib/fuzzystrmatch/levenshtein.cpp:63-370 | With positive costs the distance is zero exactly for equal strings |
| EditDistance.LoweringKeepsD | contrib/fuzzystrmatch/levenshtein.cpp:145-146 | Lowering the substitution cost to deletion plus insertion changes no cell of the matrix |
| EditDistance.AtLeastTheoreticalMinimum | contrib/fuzzystrmatch/levenshtein.cpp:142-144 | The distance is at least the cost of the length difference, so the early return is right |
| EditDistance.AtMostTheoreticalMaximum | contrib/fuzzystrmatch/levenshtein.cpp:147-149 | The distance is at most that plus one substitution per common position, so a loose bound may be dropped |
| EditDistance.StepFromPreviousRow | contrib/fuzzystrmatch/levenshtein.cpp:216-225 | A cell is at least the smaller of its diagonal predecessor and the cell above it plus an insertion |
| EditDistance.TotalsGrowDownwards | contrib/fuzzystrmatch/levenshtein.cpp:318-361 | The least total cost of a path through a cell is no better than through both cells above it |
| EditDistance.DeadRowMeansFar | contrib/fuzzystrmatch/levenshtein.cpp:358-360 | If no cell of a row can stay within the bound, the distance exceeds the bound |
| Text.CharAtOffset | contrib/fuzzystrmatch/levenshtein.cpp:181-191 | The bytes at the accumulated offset of character k are character k, whatever the encoding |
| Text.SingleByteChars | contrib/fuzzystrmatch/levenshtein.cpp:181-181 | As many characters as bytes means that every character is one byte, so the fast path may compare bytes |
| Levenshtein.LevenshteinInternal | contrib/fuzzystrmatch/levenshtein.cpp:63-370 | The two-row loop over bytes returns the distance of the character sequences, for any costs, or reports strings that are too long |
| Levenshtein.LevenshteinLessEqualInternal | contrib/fuzzystrmatch/levenshtein.cpp:63-370 | The banded loop returns the exact distance if it is within the bound and bound + 1 otherwise; the exact distance always for a negative bound |
| Levenshtein.RestOfCharSame | contrib/fuzzystrmatch/fuzzystrmatch.cpp:162-171 | Backward byte comparison decides equality of the byte ranges |
| Levenshtein.CharSame | contrib/fuzzystrmatch/levenshtein.cpp:268-269 | Last byte, then length, then the rest decides equality of whole characters |
| Levenshtein.CacheLengths | contrib/fuzzystrmatch/levenshtein.cpp:173-191 | The cache holds the byte length of every character of s and a final zero, and is absent exactly if both strings are single-byte |
| Levenshtein.FirstRow | contrib/fuzzystrmatch/levenshtein.cpp:201-206 | Every cell of the first row inside the band is right |
| Levenshtein.FillRow | contrib/fuzzystrmatch/levenshtein.cpp:243-299 | The inner loop makes every cell in its range right from right cells of the previous row and leaves all others alone |
| Levenshtein.CellIsGood | contrib/fuzzystrmatch/levenshtein.cpp:266-276 | The minimum of three stored values that may be sentinels is again never too small, and exact where the bound can be met |
| Levenshtein.InitialStopColumn | contrib/fuzzystrmatch/levenshtein.cpp:150-169 | Every cell of the first row at or beyond the initial stop column is outside the bound |
| Levenshtein.BandStepsDown | contrib/fuzzystrmatch/levenshtein.cpp:216-225 | Moving the stop column right by one keeps everything outside the band dead in the next row |
| Levenshtein.FillBand | contrib/fuzzystrmatch/levenshtein.cpp:209-307 | One row of the bounded run keeps the band invariant, including the cell read just outside the band |
| Levenshtein.SlideStop | contrib/fuzzystrmatch/levenshtein.cpp:329-337 | Sliding the stop column left drops only cells outside the bound |
| Levenshtein.SlideStart | contrib/fuzzystrmatch/levenshtein.cpp:339-356 | Sliding the start column right drops only such cells, leaves sentinels in both rows and keeps s_data on the character before the band |
| Levenshtein.CrossedBand | contrib/fuzzystrmatch/levenshtein.cpp:358-360 | If the columns cross, the distance exceeds the bound |
| Levenshtein.FinalCell | contrib/fuzzystrmatch/levenshtein.cpp:365-369 | The cell returned after the last row is the distance or bound + 1 |
| Levenshtein.BandedRows | contrib/fuzzystrmatch/levenshtein.cpp:208-369 | All rows together return the smaller of distance and bound + 1, or the distance without a bound |
| GistTree.SearchIsFilter | src/gausskernel/storage/access/gist/gistget.cpp:216-372 | If every key covers the items below it and the inner test never rejects a covering key, the pruned descent returns exactly what the filter over all items returns, in order |
| GistTree.SearchIsFilterExactlyWhen | src/gausskernel/storage/access/gist/gistget.cpp:216-372 | On any tree and for any tests the descent returns what the filter returns exactly if no subtree with a match fails the inner test; otherwise it returns fewer items |
| GistTree.BuiltIsSound | src/gausskernel/storage/access/gist/gistutil.cpp:145-188 | In every tree whose keys are unions, every key covers every item below it |
| GistTree.InsertAddsItem | src/gausskernel/storage/access/gist/gist.cpp:582-625 | Insertion adds exactly one item |
| GistTree.InsertKeepsSound | src/gausskernel/storage/access/gist/gistutil.cpp:270-308 | Joining every key on the path with the new key keeps all keys covering |
| GistTree.DeleteRemovesItem | src/gausskernel/storage/access/gist/gistvacuum.cpp:158-199 | Deletion removes exactly the chosen item of the chosen page |
| GistTree.DeleteKeepsSound | src/gausskernel/storage/access/gist/gistvacuum.cpp:158-199 | Leaving the keys as they are after a deletion keeps them covering |
| GistTree.SplitKeepsItems | src/gausskernel/storage/access/gist/gist.cpp:1160-1215 | A page split, at the root or below it, keeps the multiset of items |
| GistTree.SplitKeepsSound | src/gausskernel/storage/access/gist/gist.cpp:1160-1215 | If side keys cover what their entries cover, a split keeps all keys covering |
| GistTree.RunKeepsSound | src/gausskernel/storage/access/gist/gist.cpp:499-640 | Every run of insertions, deletions and splits keeps all keys covering |
| GistTree.RunAccountsForItems | src/gausskernel/storage/access/gist/gist.cpp:499-640 | After any run the tree holds its first items and those inserted, without those deleted, as multisets |
| Nearest.StepKeepsInv | src/gausskernel/storage/access/gist/gistget.cpp:382-480 | One step of the queue keeps: nothing lost or doubled, reports in order, nothing pending nearer than a report |
| Nearest.ReportsInOrder | src/gausskernel/storage/access/gist/gistget.cpp:382-480 | Every run, however it breaks ties, reports items by increasing distance, none twice, all of them once the queue is empty |
| Nearest.StepWeighsOne | src/gausskernel/storage/access/gist/gistget.cpp:382-480 | Every step takes exactly one node or item off what is pending |
| Nearest.SomeEntryIsNearest | src/gausskernel/storage/access/gist/gistget.cpp:382-410 | While something is pending there is a next step |
| Nearest.MaximalRunsReportAll | src/gausskernel/storage/access/gist/gistget.cpp:382-480 | No run is longer than the number of nodes and items; every run that cannot be prolonged has that length and has reported every item once, by increasing distance |
| VarKey.ByteaIsValid | contrib/btree_gist/btree_bytea.cpp:40-61 | The bytea comparison is a total order that is dictionary order, as truncation needs |
| VarKey.UnionCovers | contrib/btree_gist/btree_utils_var.cpp:249-280 | Whatever a child key covers, the union covers after widening and cutting at common prefix + 2, although child keys may have been cut before |
| VarKey.UnionIsOrdered | contrib/btree_gist/btree_utils_var.cpp:249-280 | A union has its ends in order and an upper end at most two bytes past their common prefix |
| VarKey.UnionKeepsBeginnings | contrib/btree_gist/btree_utils_var.cpp:249-280 | The ends of a union are those of the hull, or with truncation their beginnings of at most common prefix + 2 bytes |
| VarKey.UnionTightens | contrib/btree_gist/btree_utils_var.cpp:249-280 | Even what an entry covers only loosely, exceeding its upper end behind the cut, the union covers strictly |
| VarReach.StandsByHead | contrib/btree_gist/btree_utils_var.cpp:133-156 | The items a key may stand for in a search are exactly those between its ends and those that extend the part of its upper end up to the cut |
| VarReach.SafeExactlyWhen | contrib/btree_gist/btree_utils_var.cpp:133-156 | No loosely covered item is missed exactly if the upper end is cut at common prefix + 2, or extends the lower end, or has only bytes 255 behind that cut |
| VarReach.NeverMissesIsReaches | contrib/btree_gist/btree_utils_var.cpp:133-156 | For truncating types a key rejects no query that x satisfies exactly if x lies between its ends or extends one of them, and equal ends mean x |
| VarReach.InnerTestAcceptsCovered | contrib/btree_gist/btree_utils_var.cpp:450-500 | The inner test accepts every query that a covered item satisfies, for all six strategies, with truncation and without |
| VarReach.InnerTestExactlyWhen | contrib/btree_gist/btree_utils_var.cpp:450-500 | For truncating types the inner test accepts a key exactly if a value between its ends, or extending one of them, satisfies the operator; < also accepts the lower end itself, and <> rejects only a key whose ends are both the query |
| VarReach.WholeKeyTestExactlyWhen | contrib/btree_gist/btree_utils_var.cpp:450-500 | Without truncation it rejects exactly if no value between the ends can satisfy the operator, apart from the end compared by < and > |
| VarReach.LeafTestIsOperator | contrib/btree_gist/btree_utils_var.cpp:450-500 | The leaf test is the operator |
| VarIndex.SearchFindsExactly | contrib/btree_gist/btree_utils_var.cpp:450-500 | For every tree built by unions and every run of insertions, deletions and page splits in which no entry is outrun, the search returns exactly the items satisfying the operator, for all six strategies |
| VarIndex.RunStaysLoose | contrib/btree_gist/btree_utils_var.cpp:249-445 | After every run of insertions, deletions and splits, whatever picksplit cuts, all keys have their ends in order and loosely cover every item below them |
| VarIndex.SearchesAreExactExactlyWhen | contrib/btree_gist/btree_utils_var.cpp:450-500 | After every such run all searches are exact exactly if below every inner key there are only items that lie between its ends or extend one of them |
| VarIndex.SafeKeysFindExactly | contrib/btree_gist/btree_utils_var.cpp:450-500 | After every such run all searches are exact if every inner key is safe, which its bytes alone decide |
| VarIndex.AnySplitKeepsLoose | contrib/btree_gist/btree_utils_var.cpp:370-445 | Every split that picksplit may make, of leaf or inner pages, keeps ends in order and loose coverage |
| VarIndex.KeepingSplitKeeps | contrib/btree_gist/btree_utils_var.cpp:370-445 | A split in which no entry is outrun keeps for both sides everything their entries stand for |
| VarIndex.LeafPagesSplitFreely | contrib/btree_gist/btree_utils_var.cpp:370-445 | Splitting a leaf page outruns no entry |
| VarIndex.PickSplitFits | contrib/btree_gist/btree_utils_var.cpp:370-445 | The halves and side keys that picksplit returns for the entries of a node are a split of that node |
| VarLoss.InnerSplitLosesAnItem | contrib/btree_gist/btree_utils_var.cpp:428-442 | A bytea tree of four pages and the split picksplit makes of its root: before it a search for "abcz" finds the item, after it the item is still there and the search does not find it |
| VarIndex.UnionKeepsCovers | contrib/btree_gist/btree_utils_var.cpp:188-280 | The union of any entries with ordered ends has ordered ends and covers what each entry covers, stands for or loosely covers |
| VarCodec.LeafFormReads | contrib/btree_gist/btree_utils_var.cpp:50-62 | A leaf-form key reads as one value twice and is recognised as leaf, for every length |
| VarCodec.NodeFormReads | contrib/btree_gist/btree_utils_var.cpp:50-62 | A node-form key reads as its two values behind the alignment padding and is never taken for a leaf |
| VarCodec.PutNode | contrib/btree_gist/btree_utils_var.cpp:162-186 | Writing two values in node form reads back as exactly those values |
| VarCodec.KeyCopy | contrib/btree_gist/btree_utils_var.cpp:64-79 | A copied key reads back as its ends, in leaf form exactly if both ends are one value and node form is not forced |
| VarCodec.NodeTruncate | contrib/btree_gist/btree_utils_var.cpp:162-186 | A truncated key reads back as both ends cut at the given length + 1 |
| VarCodec.NodeCpLen | contrib/btree_gist/btree_utils_var.cpp:94-128 | The loop returns the length of the common prefix of both ends |
| VarCodec.BinUnion | contrib/btree_gist/btree_utils_var.cpp:188-226 | An empty key becomes the entry in node form; otherwise the key reads as the smaller lower and the larger upper end |
| VarCodec.VarUnion | contrib/btree_gist/btree_utils_var.cpp:249-280 | The bytes returned read as the cut hull of all entries, in node form |
| Halving.HalvesPartition | contrib/btree_gist/btree_utils_var.cpp:412-426 | Every offset goes to exactly one side, the sides have floor and ceiling of half the entries, no left key sorts after a right key |
| RangeKey.HalvesOrderedByEnds | contrib/btree_gist/btree_utils_var.cpp:356-368 | No entry on the left has a larger lower end than one on the right, nor with equal ones a larger upper end |
| VarSplit.PickSplit | contrib/btree_gist/btree_utils_var.cpp:370-445 | The sides are the first and second half of the sorted offsets; the key buffers read as their hulls cut at the larger of both common prefixes + 2 |
| VarSplit.SideKeyKeepsBeginnings | contrib/btree_gist/btree_utils_var.cpp:428-442 | The ends of a side key are the beginnings of the ends of its hull, up to two bytes past the longer common prefix of both sides |
| VarSplit.Distribute | contrib/btree_gist/btree_utils_var.cpp:412-426 | The loop over the sorted entries fills both offset lists and makes each key buffer the hull of its side |
| VarSplit.LeafSplitKeepsItems | contrib/btree_gist/btree_utils_var.cpp:428-442 | After a split of exact leaf keys no query misses an item of its side |
| VarSplit.SplitKeepsEntry | contrib/btree_gist/btree_utils_var.cpp:428-442 | A side key keeps everything an entry may stand for exactly if the hull of its side does not outrun the entry: the entry was cut, the upper end of the hull continues it within the bytes kept by a byte below 255, and the lower end of the hull is no prefix of it |
| VarSplit.OutrunEntryLosesItem | contrib/btree_gist/btree_utils_var.cpp:428-442 | For every outrun entry there is an item it stands for that the side key turns away |
| NumKey.NumUnion | contrib/btree_gist/btree_utils_num.cpp:90-115 | The buffer holds the hull of all entries |
| NumKey.BinUnion | contrib/btree_gist/btree_utils_num.cpp:136-158 | The key is the entry at first and afterwards the hull of the old key and the entry |
| RangeKey.HullIsTightest | contrib/btree_gist/btree_utils_num.cpp:90-158 | The hull bounds every entry and both its ends belong to entries |
| NumKey.InnerTestAccepts | contrib/btree_gist/btree_utils_num.cpp:166-204 | The inner test accepts every query that an item in the range satisfies, for all six strategies |
| NumKey.InnerTestExactlyWhen | contrib/btree_gist/btree_utils_num.cpp:166-204 | The inner test rejects a key exactly if no value between its ends can satisfy the operator, except that < and > also accept a query equal to the end compared |
| NumKey.LeafTestIsOperator | contrib/btree_gist/btree_utils_num.cpp:166-204 | The leaf test is the operator |
| NumKey.SearchFindsExactly | contrib/btree_gist/btree_utils_num.cpp:166-204 | For every tree built by unions and every run of insertions, deletions and splits, the search returns exactly the items satisfying the operator |
| NumKey.KeyDistanceIsLowerBound | contrib/btree_gist/btree_utils_num.cpp:210-224 | For every order-compatible distance the distance of a key is at most that of any item it covers, and a leaf key's is the item's own |
| NumKey.KeyDistanceIsAttained | contrib/btree_gist/btree_utils_num.cpp:210-224 | The distance of a key is that of a value between its ends, or zero if the query lies strictly between them |
| NumKey.NearestFirst | contrib/btree_gist/btree_utils_num.cpp:206-224 | An ordered scan of any reachable tree reports items by increasing distance, takes at most as many steps as the tree has nodes and items, and has reported all items when it cannot go on |
| NumKey.PickSplit | contrib/btree_gist/btree_utils_num.cpp:226-264 | The sides are the halves of the sorted offsets, neither empty, each side key the hull of its entries |
| NumKey.PickSplitFits | contrib/btree_gist/btree_utils_num.cpp:226-264 | The halves and hulls that picksplit returns for the entries of a node are a split of that node |
| NumKey.Distribute | contrib/btree_gist/btree_utils_num.cpp:247-261 | The loop yields both offset lists and the hull of each side |
| Cube.CubeUnion | contrib/cube/cube.cpp:653-696 | The result has the larger dimension count and on every axis the least and greatest coordinate of both boxes, zero where one lacks the axis |
| Cube.CubeInter | contrib/cube/cube.cpp:712-771 | The result has on every axis the larger lower and the smaller upper end |
| Cube.UnionEncloses | contrib/cube/cube.cpp:653-696 | The union encloses both boxes and every box that encloses both encloses it |
| Cube.OverlapIsSharedPoint | contrib/cube/cube.cpp:1016-1052 | The overlap test holds exactly if the boxes share a point, in any mix of dimensions |
| Cube.ContainsByAxis | contrib/cube/cube.cpp:956-986 | The containment test compares exactly the axes of its second argument |
| Cube.ContainsIsSubset | contrib/cube/cube.cpp:956-986 | It is true containment exactly if zero lies within the first box on its excess axes |
| Cube.EnclosesIsSubset | contrib/cube/cube.cpp:956-986 | Enclosing on every axis is the subset relation of point sets |
| Cube.CmpZero | contrib/cube/cube.cpp:803-868 | The comparison yields zero exactly for the same dimension count and the same extent on every axis |
| CubeOrder.CmpAntisymmetric | contrib/cube/cube.cpp:803-868 | Swapping the arguments negates the comparison |
| CubeOrder.CmpIsLexicographic | contrib/cube/cube.cpp:803-868 | The comparison is lexicographic: lower ends on the common axes, upper ends there, the same against zero on the other axes, then the number of dimensions |
| CubeOrder.MixedDimensionsCycle | contrib/cube/cube.cpp:803-868 | Any two different positive dimension counts admit three boxes that compare in a circle |
| CubeOrder.TransitiveExactlyWhen | contrib/cube/cube.cpp:803-868 | On boxes of two dimension counts the comparison is transitive exactly if the counts are equal or one is zero |
| CubeDistance.CubeDistanceSquared | contrib/cube/cube.cpp:1071-1123 | The loops compute the squared distance, over all axes of either box |
| CubeDistance.DistanceIsLeast | contrib/cube/cube.cpp:1071-1123 | The sum is the least sum of squared coordinate differences between a point of one box and a point of the other: no two points give less and some two attain it, in any mix of dimensions |
| CubeDistance.DistanceSymmetric | contrib/cube/cube.cpp:1071-1123 | The sum is symmetric |
| CubeDistance.ZeroIsOverlap | contrib/cube/cube.cpp:1016-1123 | The sum is zero exactly if the boxes overlap |
| CubeDistance.EnclosingIsNoFurther | contrib/cube/cube.cpp:1071-1123 | Replacing a box by one that encloses it, in any dimensions, never increases the sum |
| CubeIndex.GCubeUnion | contrib/cube/cube.cpp:359-383 | The loop returns the union of all entries, and a null pointer for a single one |
| CubeIndex.UnionAllBounds | contrib/cube/cube.cpp:359-383 | The union of any entries encloses each of them and has at least as many dimensions |
| CubeIndex.UnionAllIsLeast | contrib/cube/cube.cpp:359-383 | Whatever encloses all entries encloses their union, which has the dimensions of one of them |
| CubeIndex.ContainedMeansOverlap | contrib/cube/cube.cpp:616-640 | A contained box overlaps the query exactly if the query spans zero on every axis the box lacks |
| CubeIndex.InternalAccepts | contrib/cube/cube.cpp:588-640 | The internal test accepts an enclosing key for every matching item; for "contained by" if the query spans zero beyond the item's dimensions |
| CubeIndex.InternalTestExactlyWhen | contrib/cube/cube.cpp:616-640 | For overlap and containment of the query the internal test accepts a key exactly if some item below it could match; for equality it accepts more exactly if dimensions or zero spans differ; for "contained by" it accepts no key in vain |
| CubeIndex.LeafTestMeans | contrib/cube/cube.cpp:588-614 | The leaf test in terms of points: shared points, same points and dimensions, and inclusion where the larger box spans zero |
| CubeIndex.SearchFindsExactly | contrib/cube/cube.cpp:588-640 | For every tree built by unions and every run of insertions, deletions and splits, in any mix of dimensions, the search is exact under that condition |
| CubeIndex.ContainedByExactlyWhen | contrib/cube/cube.cpp:616-640 | "Contained by" searches are exact on all trees of items with at least d dimensions exactly if the query spans zero from axis d on |
| CubeIndex.MissingItem | contrib/cube/cube.cpp:616-640 | For every other query a tree of two pages on which the search misses items |
| CubeVolume.CubeSize | contrib/cube/cube.cpp:787-798 | The loop computes the volume, whichever way the corners are stored |
| CubeVolume.VolumeIsAdditive | contrib/cube/cube.cpp:787-798 | If a box is cut in two across any axis, the volumes of the parts add up to its volume |
| CubeVolume.UnitHasVolumeOne | contrib/cube/cube.cpp:787-798 | The unit box has volume one in every dimension |
| CubeVolume.EnclosingIsLargerExactlyWhen | contrib/cube/cube.cpp:787-798 | Boxes of e dimensions are at least as large as every box of d dimensions they enclose exactly if e <= d |
| CubeVolume.InterIsShared | contrib/cube/cube.cpp:712-771 | The intersection of overlapping boxes holds exactly the points they share |
| CubeVolume.InterSizeIsSharedExactlyWhen | contrib/cube/cube.cpp:712-798 | The size of the intersection is the volume shared exactly if the boxes overlap or touch on some axis; otherwise it is the product of the gaps |
| CubeSplit.PickSeeds | contrib/cube/cube.cpp:466-492 | The seeds are the first pair with the greatest waste among the pairs examined, or the defaults if there is none |
| CubeSplit.WasteIsTrueExactlyWhen | contrib/cube/cube.cpp:474-480 | The waste compared is the volume of the union beyond what is shared exactly for entries that overlap or touch on some axis |
| CubeSplit.SeedsWasteMost | contrib/cube/cube.cpp:466-492 | If all candidates do, the seeds are the first pair with the greatest such waste |
| CubeSplit.SeedsNeedNotWasteMost | contrib/cube/cube.cpp:466-492 | Among [0,1], [100,101] and [50,60] the seeds are the first and the third, although the first and the second waste more |
| CubeSplit.PlacedPartitions | contrib/cube/cube.cpp:500-557 | Both sides are ascending, disjoint and together every offset seen, each seed on its own side |
| CubeSplit.PlacedBoxesAreTightest | contrib/cube/cube.cpp:500-557 | Each box is the exact bounding box of the entries on its side |
| CubeSplit.EntryIsWellChosen | contrib/cube/cube.cpp:511-555 | Every entry but the seeds is on the left exactly if it added less volume to the bounding box of the left seed and the earlier left entries than it would have added on the right; on a tie it is on the right |
| CubeSplit.Distribute | contrib/cube/cube.cpp:492-563 | The loop stays inside both buffers, writes the sides in order and the sentinel behind each |
| CubeSplit.PickSplit | contrib/cube/cube.cpp:436-563 | Best seeds, two non-empty ascending sides that partition all offsets, every entry where it enlarges the bounding box less, exact bounding boxes, buffers never overrun |
| CubeIndex.PickSplitFits | contrib/cube/cube.cpp:436-563 | The sides and boxes that picksplit returns for the entries of a node are a split of that node |
| Collation.JoinLaws | contrib/gauss_connector/deparse.cpp:668-703 | Merging collation states is commutative, associative and idempotent |
| Collation.LocCxt.Merge | contrib/gauss_connector/deparse.cpp:668-703 | Updating the outer context is the join of its state with the new one |
| Collation.LocCxt.DeriveState | contrib/gauss_connector/deparse.cpp:403-414 | The result state is safe exactly if the collation is the one the inputs derive from a foreign Var |
| Collation.LocCxt.AcceptsInput | contrib/gauss_connector/deparse.cpp:391-398 | An input collation is accepted exactly if it is none or the safe one |
| Collation.Walk | contrib/gauss_connector/deparse.cpp:247-707 | The walker accepts exactly the expressions the reference judgement accepts and joins their state into the caller's |
| Collation.WalkEach | contrib/gauss_connector/deparse.cpp:555-576 | The loop over a list, with its early exit, gives the verdict on the whole list |
| ForeignExpr.IsForeignExpr | contrib/gauss_connector/deparse.cpp:195-232 | An expression is shipped exactly if every node may be sent, whatever depends on a collation finds its inputs agreed on it, it brings in no collation of its own, and nothing in it is mutable; all said without the walker |
| ForeignExpr.JudgedExactly | contrib/gauss_connector/deparse.cpp:247-707 | The walker accepts exactly the expressions in which every type, function, operator, aggregate and sort operator is shippable, nothing is assigned, no Param is internal, no foreign system column but ctid and oid occurs and every input collation is agreed on; the state is then safe exactly if the collation is derived and unsafe exactly if the node brings in a non-default one its inputs do not derive |
| ForeignExpr.JoinAllIsSafe | contrib/gauss_connector/deparse.cpp:668-703 | Merged states are safe with c exactly if c is among them and the others are none, c or the default |
| Collation.SafeComesFromVar | contrib/gauss_connector/deparse.cpp:247-707 | A safe collation is that of a foreign Var occurring in the expression |
| Collation.AcceptedIsTraced | contrib/gauss_connector/deparse.cpp:247-707 | In every accepted expression each function, operator and aggregate with an input collation has a foreign Var of that collation below it |
| Collation.ListIsLeastUpperBound | contrib/gauss_connector/deparse.cpp:555-576 | The state of a list is the least state above the states of its elements |
| Collation.ListOrderIsIrrelevant | contrib/gauss_connector/deparse.cpp:555-576 | Lists with the same elements, in any order and multiplicity, get the same verdict and collation |
| DeparseRun.DeparseParam | contrib/gauss_connector/deparse.cpp:1588-1610 | The loop prints the position of the first equal entry, or appends the node and prints the new position |
| DeparseRun.DeparseExpr | contrib/gauss_connector/deparse.cpp:1378-1431 | The recursive printer appends exactly the tokens of the reference printer to the buffer and leaves its parameter list |
| DeparseRun.DeparseArrayRef | contrib/gauss_connector/deparse.cpp:1615-1651 | The same for subscripts with optional lower bounds |
| DeparseRun.DeparseFuncExpr | contrib/gauss_connector/deparse.cpp:1657-1709 | The same for casts and calls with VARIADIC on the last argument |
| DeparseRun.DeparseOpExpr | contrib/gauss_connector/deparse.cpp:1715-1757 | The same for prefix, postfix and infix operators |
| DeparseRun.DeparseBoolExpr | contrib/gauss_connector/deparse.cpp:1861-1890 | The same for NOT and for AND and OR over any number of arguments |
| DeparseRun.DeparseArrayExpr | contrib/gauss_connector/deparse.cpp:1924-1942 | The same for array constructors, with a cast on an empty one |
| DeparseRun.DeparseList | contrib/gauss_connector/deparse.cpp:1692-1709 | The loop over arguments, with its first-element flag, prints the whole separated list |
| RoundTrip.FirstToken | contrib/gauss_connector/deparse.cpp:1378-1431 | Every printed expression begins with a token that can begin an operand |
| RoundTrip.ParamsGrow | contrib/gauss_connector/deparse.cpp:1588-1610 | Printing changes the parameter list only at its end |
| RoundTrip.PrintedReadsBack | contrib/gauss_connector/deparse.cpp:1378-1942 | In any token context, reading what was printed gives the tree that was meant, followed by the casts behind it |
| RoundTripLimit.PrintedIsReadBackExactlyWhen | contrib/gauss_connector/deparse.cpp:1615-1651 | Printed tokens read back to the whole tree exactly if no subscript is applied directly to a Var of another relation |
| RoundTripLimit.BareParamSubscriptExample | contrib/gauss_connector/deparse.cpp:1630-1636 | Such a subscript, printed as a type name with a bracket behind it, is not read back |
| ParamNumbers.NumbersNameTheirValues | contrib/gauss_connector/deparse.cpp:1441-1485 | The numbers printed name, in order, exactly the outside values of the expression in the final list; the list keeps its entries, stays free of duplicates and gains exactly the values it lacked |
| ParamNumbers.ColumnsAreColumns | contrib/gauss_connector/deparse.cpp:1441-1485 | A Var of a scanned relation at this query level prints as its column and leaves the list alone; every other Var and every Param prints as a number with its type |
| ParamNumbers.ParamsAreOutside | contrib/gauss_connector/deparse.cpp:1441-1485 | Nothing but Params and Vars of other relations ever enters the list |
| CursorScan.Scan.CreateCursor | contrib/gauss_connector/gc_fdw.cpp:1557-1618 | A new cursor stands before the first row with an empty buffer |
| CursorScan.Scan.FetchMoreData | contrib/gauss_connector/gc_fdw.cpp:1623-1693 | One FETCH replaces the buffer by the next rows; none only if the end is reached |
| CursorScan.Scan.IterateRow | contrib/gauss_connector/gc_fdw.cpp:1010-1063 | A call returns the next remote row, or nothing once all were returned; a skipped scan changes nothing |
| CursorScan.Scan.IterateBatch | contrib/gauss_connector/gc_fdw.cpp:1161-1243 | A call returns a non-empty run of the next rows, at most 1000, or nothing once all were returned |
| CursorScan.RunRows | contrib/gauss_connector/gc_fdw.cpp:1010-1063 | The k-th call returns row k, all later ones nothing, with floor(N / fetch size) + 1 FETCHes on exhaustion |
| CursorScan.RunCalls | contrib/gauss_connector/gc_fdw.cpp:1161-1243 | Any mix of row and batch calls returns a prefix of the remote rows, each once and in order, and all of them when a call comes back empty, which it then does forever |
| CursorScan.RunSkipped | contrib/gauss_connector/gc_fdw.cpp:2558-2569 | A skipped scan returns nothing on any run and sends nothing |
| CursorScan.DrainAll | contrib/gauss_connector/gc_fdw.cpp:2558-2569 | One scan per remote node, each drained: of a spread relation together all rows once, in node order; of a replicated one the rows of the first node once |
| CursorScan.WhoDelivers | contrib/gauss_connector/gc_fdw.cpp:2558-2569 | A scan delivers exactly if its index is that of a node and, for a replicated relation, zero |
| CursorScan.ExhaustedFetches | contrib/gauss_connector/gc_fdw.cpp:1677-1678 | A fetch that comes up short, after full ones only, is number floor(N / fetch size) + 1 |
| GinScan.ExtractQuery | contrib/btree_gin/btree_gin.cpp:59-101 | The arrays hold the start entry, the partial-match flag and the query; unknown strategies are an error |
| GinScan.PrefixDecides | contrib/btree_gin/btree_gin.cpp:108-166 | From the start entry on, zero is returned for exactly the keys that satisfy the operator |
| GinScan.StopIsFinal | contrib/btree_gin/btree_gin.cpp:108-166 | Where a positive result stops the scan, no later key satisfies the operator |
| GinScan.CollectMatches | src/gausskernel/storage/access/gin/ginget.cpp:131-204 | The scan loop from the start entry collects exactly the matching entries, in order |
| GinScan.ScanEntries | contrib/btree_gin/btree_gin.cpp:50-166 | For every sorted index and each of the five strategies the scan returns exactly the entries satisfying the operator and not below the start value |
| GinScan.ScanIsCompleteExactlyWhen | contrib/btree_gin/btree_gin.cpp:50-58 | Nothing is missed exactly if no matching key lies below the start value: a fact about any two nested filters, from which the conditions of the types follow |
| GinScan.FoundRowsSatisfyOperator | contrib/btree_gin/btree_gin.cpp:172-181 | With a least start value the rows found are exactly those whose value satisfies the operator, so no recheck is needed |
| GinScan.NumericIsTotalOrder | contrib/btree_gin/btree_gin.cpp:357-382 | Any total order on numbers extended by the null sentinel is a total order with the sentinel strictly least |
| GinScan.NumericScanIsComplete | contrib/btree_gin/btree_gin.cpp:357-392 | Scans over numbers miss nothing although the type has no least value |
| GinScan.Int8ScanIsCompleteExactlyWhen | contrib/btree_gin/btree_gin.cpp:199-208 | Scans over 64-bit integers miss nothing exactly if the least integer is not indexed or not asked for by < or <= |
| GinScan.Int8LeastIsMissed | contrib/btree_gin/btree_gin.cpp:199-208 | An index of the least integer on which < 0 finds nothing |
| GinScan.CharScanIsCompleteExactlyWhen | contrib/btree_gin/btree_gin.cpp:329-335 | Scans over "char", which start at the least signed byte although bytes compare as unsigned, are complete exactly if no ASCII key satisfies < or <= |
| GinScan.AsciiQueriesFindNothing | contrib/btree_gin/btree_gin.cpp:329-335 | < and <= with an ASCII character find nothing in any index of "char" |
| GinScan.CharIsMissed | contrib/btree_gin/btree_gin.cpp:329-335 | An index of 'a' on which < 'b' finds nothing |
| Metaphone.Lookahead | contrib/fuzzystrmatch/fuzzystrmatch.cpp:290-302 | The loop returns the letter so many places ahead, or the terminator if the word ends before |
| Metaphone.SkipStaysInside | contrib/fuzzystrmatch/fuzzystrmatch.cpp:320-619 | No rule, first or later, moves past the terminator or emits more than two phonemes |
| Metaphone.MetaphoneInternal | contrib/fuzzystrmatch/fuzzystrmatch.cpp:320-619 | For every word and limit k the k + 1 bytes hold exactly the first k phonemes of the unlimited code and the terminator |
| Metaphone.Metaphone | contrib/fuzzystrmatch/fuzzystrmatch.cpp:226-264 | The SQL function with all its argument checks returns that text |
| Metaphone.ShorterLimitIsPrefix | contrib/fuzzystrmatch/fuzzystrmatch.cpp:226-264 | The result for a shorter limit is the beginning of the result for a longer one |
| MetaphoneTrace.PhonemesComeFromLetters | contrib/fuzzystrmatch/fuzzystrmatch.cpp:320-619 | The code of every word, letter by letter: nothing before the first letter, what its beginning says, and then at every letter that no free letter before it uses up exactly what is heard there, X as K and S, all told from the phonemes and the letters around; a word without letters has no code |
| MetaphoneTrace.InitialSays | contrib/fuzzystrmatch/fuzzystrmatch.cpp:350-412 | What is heard at the beginning and how many letters that uses up: N for GN, KN and PN, E for AE, H, R or W behind W, S for X, or the vowel itself |
| MetaphoneTrace.RuleSays | contrib/fuzzystrmatch/fuzzystrmatch.cpp:416-613 | At every later letter the rule says exactly what is heard there and skips exactly what that uses up, in terms of the letters one, three and four back and one to three ahead |
| Metaphone.OnlyFirstIsVowel | contrib/fuzzystrmatch/fuzzystrmatch.cpp:350-610 | Every phoneme but the first is one of sixteen consonants, and the first is one of these or a vowel |
| Metaphone.CaseDoesNotMatter | contrib/fuzzystrmatch/fuzzystrmatch.cpp:273-288 | A word and its upper-case form have the same code |

## Left out

- Levenshtein.LevenshteinLessEqualInternal: requires non-negative costs when a bound is given, as the theoretical bounds in the source presuppose them; 32-bit overflow of costs is not modelled in either version.
- VarIndex.SearchFindsExactly: runs with a split that outruns an entry are not promised an exact search, because they can lose items; VarIndex.RunStaysLoose and VarIndex.SearchesAreExactExactlyWhen say what holds after any run.
- VarCodec.NodeCpLen: the branch for multibyte encodings is not modelled (no type that truncates its keys takes it: its maximum length is zero there, contrib/btree_gist/btree_bytea.cpp:61); values are shorter than 2^28 bytes and headers are little-endian.
- VarCodec.BinUnion: the leaf-to-node transform of bit and varbit is not modelled.
- VarSplit.PickSplit: the sorted order of the entries is taken from the contract of qsort.
- CubeDistance.CubeDistanceSquared: the square root taken at the end is not modelled, and coordinates are reals without NaN or rounding.
- CubeIndex.GCubeUnion: trees join a single entry with itself, as the GiST core passes it twice (src/gausskernel/storage/access/gist/gistutil.cpp:174-178).
- RoundTrip.PrintedReadsBack: column references, literals with their type label, type names and operator names are single tokens; both explicit cast nodes mean the same cast and implicit casts vanish.
- DeparseRun.DeparseExpr: EXPLAIN placeholders, coordinator queries, aggregate printing and subquery aliases are not modelled.
- DeparseRun.DeparseBoolExpr: requires two arguments of AND and OR, as the expressions that reach the printer have them.
- CursorScan.RunCalls: the remote result is a fixed sequence; connection errors, rescans and closing the cursor are not modelled.
- GinScan.ScanEntries: page locking, posting trees and the pending list of the index core are not modelled; start values of the date, time, interval, network, macaddr and bit types are not examined.
- Metaphone.MetaphoneInternal: isalpha and toupper are parameters; the terminator is no letter and the only character whose upper case is zero.
- Penalty functions, compress and decompress, same, and per-type wrappers: heuristics or thin instances.
- Aggregate push-down SQL, target lists, ORDER BY and locking clauses of the deparser, cost estimates, connections and snapshots.
- Catalog lookups, memory contexts, TOAST and Datum packing.
- Double metaphone, soundex, chkpass, citext, earthdistance, dict_int, dict_xsyn, dblink, file_fdw, common_cipher and the hook modules: easy members, unseen libraries or I/O.
