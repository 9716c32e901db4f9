# A verified model of the database engine

This project models the storage and query engine in Dafny 4.11 and proves what its parts promise. It goes from the
bottom up, each layer proved against the one below it:

- `Disk`, `LruKReplacer`, `PoolState`, `BufferPool`: the disk as a map from (file, page) to 4096 bytes, and the buffer
  pool above it as a class with the source's tables, pins and dirty bits. `PoolState` is the pool as a value;
  `View` is what a page shows wherever it is, and `Safe` is the clients' protocol (a changed page is still pinned or
  has been marked dirty).
- `Bytes`, `BTreeCodec`, `BTreePage`: 16- and 32-bit little-endian fields, the node codec, and the decoded page object
  with its in-place operations.
- `BTreeNode`, `BTreeModel`, `BTreeStructure`, `BTreeOrder`, `BTreeInsert`, `BTreeInsertOrder`, `BTreeEntries`, `BTreeRead`,
  `BTreeDelete`, `BTreeLeftmost`, `BTreeShape`, `BTreeRuns`, `TreeSize`, `BTreeDuplicates`, `BTreeZero`: the B+ tree file as a value (decoded
  pages by page id) for any order from 2 up, its operations as functions, and their theorems. `Valid` is the structure
  that needs no condition on the keys (one parent each, equal leaf depth, fill, doubly linked leaf chain from page 1);
  `Ordered` adds that every leaf key lies within its bounding separators and separators strictly increase.
- `TreeStore`, `PageAccess`, `BPlusTree`: the tree as a class over the buffer pool, bytes and pins included, with order
  100. Every method's result and new file contents equal the functions above, the key count stored in the header page
  included. A ledger keeps account of pins held, pages added and pages rewritten.
- `LiteralKeys`: the same walks for the keys that SQL text hands to an index: floating-point numbers, or none.
- `SlottedPage`, `HeapPage`, `HeapDirectory`, `HeapModel`, `HeapFile`: slotted pages and the directory page byte by byte, the
  heap file as a value, and the class over the pool.
- `RowCodec`, `Expressions`, `ExpressionLaws`: rows as bytes, and predicates with the logic and the orders they stand for.
- `QueryOptimizer`, `QueryMeaning`, `Evaluation`: what plans mean, row by row, predicate pushdown, and where it moves type
  errors.
- `Floats`, `IndexSelection`, `IndexPlans`, `Joins`: index selection with sums rounded to double precision, and the index
  and join operators against plain scans and nested loops.
- `ColumnOrder`, `RowBags`, `PhysicalPlans`: the planner that picks among the operators, and what they yield together: the
  query's rows as a bag, under its columns in some order.
- `TableModel`, `TableSessions`, `Table`: a table with its indices, as a value, over whole sessions and as a class.
- `DatabaseBags`, `Engine`: the value side put together: tables built by sessions, and queries on them compared with what
  they mean over plain maps of rows.

Two conditions on keys come from the tree's code and appear throughout. (a) An equal separator is placed after its
equals, so separators stay strict only while a leaf split does not repeat one of the leaf's bounds; at most order / 2
live copies of a key suffice. (b) A promoted separator 0 below the root counts as absent; keys that are all non-negative
(given a) or all non-zero suffice. `InsertOrderedIff` says exactly when an insert keeps the order, `RunOrdered` that (a)
and (b) keep it over every run, and `DuplicatesBreakSearch` and `ZeroBreaksSearch` are runs at the engine's order of 100
that lose a live key without them. Structure and conservation of entries need neither condition.

Where documentation and code differ, the model follows the code, and where the code fails the model says exactly when:

- an insert that splits no root does not write the key count back to the header page, so a reopened index may count 0,
  and a delete of a live key then raises with two pins held (`BPlusTree.Delete`, `DeleteAfterReopening`, `Table.Delete`);
- a row with a text over its limit leaves the heap's directory page pinned (`Table.Insert`, `InsertOverlong`);
- an index join ignores the predicate pushed into its right side (`IndexJoinPredicateIff`, `IndexJoinDropsPredicate`);
- the second attempt at an index join looks for an index on the left table under the right key's name, and joins on that
  column whatever the left key is (`SecondProbeYields`, `SecondProbeGoesWrong`);
- pushing a conjunct into a scan evaluates it on rows that the query as written never lets it see, so a query that is
  answered can raise once it is optimized (`OptimizeAnswersIff`, `OptimizeCanFail`);
- an inequality with its literal on the left is used as if the column were on the left, and a strict one moves its bound
  by a whole unit even from a fractional literal (`TightenFlippedIff`, `TightenKeepsIff`, `FractionsDiffer`);
- `create_directory` unpins the page it wrote without marking it dirty; the flush that follows makes up for it
  (`FlushMakesUp`);
- a slotted page deletes slots without checking that they are in use (`DeleteUnusedIff`).

## Model

| member | source | states |
|---|---|---|
| BTreeInsertOrder.InsertOrderedIff | index/b_tree.py:28-157 | an insert, with its whole cascade of leaf, inner and root splits, leaves an ordered tree ordered if and only if the leaf split repeats no bound of the leaf and no separator 0 is dropped below the root |
| BTreeInsert.InsertValid | index/b_tree.py:28-157 | whatever the keys are, every insert keeps one parent per page, equal leaf depth, fill and the doubly linked leaf chain |
| BTreeInsert.SpiltPending | index/b_tree.py:111-145 | one step of the cascade: after an overfull inner page is halved the tree is sound but for the new page, which waits beside the recorded path |
| BTreeStructure.SplitLeafChained | index/b_tree.py:45-82 | splitting a leaf splices the new page into the doubly linked chain right after it, and no leaf is lost or listed twice |
| BTreeOrder.SplitLeafOrdered | index/b_tree.py:45-90 | the two halves keep all keys between their bounds when the middle key repeats neither bound |
| BTreeEntries.InsertEntries | index/b_tree.py:28-157 | with no condition on the keys, an insert adds exactly its entry to the entries along the leaf chain, at one place, and moves none past another |
| BTreeDelete.DeleteEntries | index/b_tree.py:225-239 | a delete that answers true removes exactly one matching entry, one that answers false changes nothing, and structure and order are kept although separators go stale |
| BTreeDelete.DeleteExact | index/b_tree.py:225-239 | in an ordered tree delete answers true exactly when the entry is live, wherever it lies along the chain |
| BTreeRead.SearchExact | index/b_tree.py:160-196 | in an ordered tree search returns every rid under the key and no other, across leaves and past empty ones |
| BTreeRead.RangeExact | index/b_tree.py:199-223 | a range scan takes exactly the entries in range, for either bound absent and for empty ranges |
| BTreeRead.EntriesSorted | index/b_tree.py:199-223 | the entries along the chain, and so every range scan, are in non-decreasing key order |
| BTreeRead.FullScan | index/b_tree.py:199-223 | with no condition on the keys the open range scan returns every entry |
| LiteralKeys.SearchWhole | index/b_tree.py:160-196 | searching for a floating-point number finds what its integer has, and nothing when it is not whole |
| LiteralKeys.RangeScanWhole | index/b_tree.py:199-223 | scanning between floating-point numbers is scanning between the integers just inside them |
| LiteralKeys.SearchNothingIff | index/b_tree.py:181-196 | searching for no key at all answers, with nothing, exactly on an index that is one empty leaf |
| BTreeLeftmost.InsertLeftmost | index/b_tree.py:253-263 | page 1 stays where the leftmost descent ends, through every split |
| BTreeRuns.RunConserves | index/b_tree.py:28-239 | over every run the entries stored are those inserted minus those whose delete answered true, with no condition on the keys |
| BTreeRuns.RunScansAll | index/b_tree.py:199-223 | over every run the open range scan returns exactly those entries' rids |
| BTreeRuns.RunOrdered | index/b_tree.py:28-239 | with at most order / 2 live copies of a key and keys all non-negative or all non-zero, every run keeps the tree ordered and holding exactly the live entries |
| BTreeRuns.RunAnswers | index/b_tree.py:181-239 | after such a run search returns each rid as often as it is live under the key, delete answers true exactly for live entries, and range scans are exact and sorted |
| BTreeDuplicates.DuplicatesBreakSearch | index/b_tree_page.py:158-171 | at order 100 a run of 154 inserts with too many copies of one key stores an entry that search does not find |
| BTreeZero.ZeroBreaksSearch | index/b_tree.py:92-145 | at order 100 a run of 7652 inserts of distinct keys stores an entry under 0 that search does not find: ascending even keys from -10200 make the page below the root promote 100 in place of 0, and a 1 then lands before the 0 |
| BTreeShape.ChainIsInOrder | index/b_tree.py:45-90 | in an ordered tree the leaf chain is exactly the leaves read left to right under the root |
| BTreeShape.ChainReachesLeaves | index/b_tree.py:45-90 | with no condition on the keys the chain holds exactly the leaves under the root |
| BTreeShape.HeightBound | index/b_tree.py:92-179 | a tree of height h has at least 2 (order / 2 + 1) ^ (h - 1) leaves, so its height is logarithmic |
| TreeSize.InsertGrows | index/b_tree.py:28-157 | an insert adds at most one leaf, and at most one page for every level and a new root |
| TreeSize.RunHeight | index/b_tree.py:28-239 | over every run the height is logarithmic in the number of operations, whatever the keys are |
| TreeSize.BackfillSmall | catalog/catalog.py:59-80 | an index filled from as many rows as a heap file can hold has at most five levels and at most six new pages a row |
| BTreeNode.InsertSorted | index/b_tree_page.py:126-135 | the place found for a key keeps a page's keys sorted, equal keys in insertion order |
| BTreePage.BTreePage.Insert | index/b_tree_page.py:126-135 | the in-place insert puts key and rid after all keys not greater |
| BTreePage.BTreePage.Lookup | index/b_tree_page.py:137-144 | the loop returns exactly the rids under the key, in page order |
| BTreePage.BTreePage.RemoveKey | index/b_tree_page.py:146-156 | removes the first matching pair in place, or nothing and says so |
| BTreePage.BTreePage.InsertPointer | index/b_tree_page.py:158-171 | puts a separator after its equals and the pointer to its right |
| BTreeCodec.DecodeEncode | index/b_tree_page.py:40-121 | a node written over any bytes reads back as the same node |
| BTreeCodec.EncodeFits | index/b_tree_page.py:40-79 | a node of at most 340 keys, so any of at most 101, fits into 4096 bytes |
| BTreePage.BTreePage.Serialize | index/b_tree_page.py:40-79 | the packing loops write exactly the node's bytes and leave the rest of the buffer |
| BTreePage.BTreePage.Deserialize | index/b_tree_page.py:81-121 | the unpacking loops read exactly the node the bytes encode |
| BPlusTree.BPlusTree.Insert | index/b_tree.py:28-157 | the method over pages in the pool does what the insert function does, root id in the header page included, with all pins returned, changed pages marked dirty and other files untouched |
| BPlusTree.BPlusTree.Search | index/b_tree.py:160-196 | returns what the search function does, changes nothing and returns all pins |
| BPlusTree.BPlusTree.RangeScan | index/b_tree.py:199-223 | returns what the range scan function does, changes nothing and returns all pins |
| BPlusTree.BPlusTree.Delete | index/b_tree.py:225-251 | does what the delete function does and stores the lower count; it fails if and only if the count in memory is 0 and the entry is live, which no session on a new index meets, and then the entry is gone and its leaf and the header stay pinned |
| BPlusTree.BPlusTree.New | index/b_tree.py:10-23 | a new index file is a header page and one empty leaf |
| BPlusTree.BPlusTree.Open | index/b_tree.py:24-25 | opening reads the root id and the stored key count back, and the object then fits the file |
| BPlusTree.Restart | index/b_tree.py:241-251 | after everything is flushed, a new pool over the same disk, with nothing pinned, opens an index with the very same pages and the key count last stored |
| BPlusTree.SearchTwice | index/b_tree.py:181-223 | searches and range scans before and after reopening give the same answers |
| BPlusTree.DeleteAfterReopening | index/b_tree.py:225-251 | a new index, one insert, a restart and the delete of that key: the delete fails and two pages stay pinned |
| Disk.BlankPastEnd | storage/disk_manager.py:10-40 | whatever lies past the end of a file reads as zero bytes, also once the file has grown over it |
| LruKReplacer.QueuesDecide | buffer/lru_k_replacer.py:23-47 | comparing the heads of bounded histories orders frames exactly as LRU-K does on whole access logs |
| LruKReplacer.SecondLastDecides | buffer/lru_k_replacer.py:3-47 | with K = 2 a frame used once goes before one used more, the earlier of two such; otherwise the last use but one decides |
| LruKReplacer.NoTies | buffer/lru_k_replacer.py:13-47 | two frames never tie, because access times are never shared |
| LruKReplacer.Replacer.Evict | buffer/lru_k_replacer.py:23-47 | gives up the one evictable frame that comes before all others in LRU-K order, none when there is none |
| PoolState.EvictionLosesIff | buffer/buffer_pool.py:29-36 | an eviction loses a page's contents exactly when its frame differs from the disk and is not dirty |
| PoolState.EmptyRoom | buffer/buffer_pool.py:6-14 | a new pool has 1024 free frames |
| PoolState.BroughtOk | buffer/buffer_pool.py:26-50 | fetching an absent page, whichever unpinned frame it takes, changes no page's contents under the protocol and pins exactly that page |
| PoolState.BroughtKeepsPinned | buffer/buffer_pool.py:26-50 | a pinned page is never evicted and stays in its frame |
| PoolState.UnpinSafeIff | buffer/buffer_pool.py:52-67 | an unpin breaks the protocol exactly when it drops the last pin of a changed page without saying so |
| PoolState.FlushedOk | buffer/buffer_pool.py:69-77 | a flush puts the page's contents on disk and changes nothing anybody sees |
| BufferPool.BufferPoolManager.FetchPage | buffer/buffer_pool.py:16-50 | returns what the page shows, adds one pin, and under the protocol leaves every page's contents; it fails exactly when the page is absent and every frame is pinned; a resident page's frame has just this access added to its log, an absent page takes a free frame or, with none free, the one that comes before all other unpinned ones in LRU-K order, whose log starts anew |
| BufferPool.BufferPoolManager.UnpinPage | buffer/buffer_pool.py:52-67 | gives back one pin, or answers false and changes nothing |
| BufferPool.BufferPoolManager.FlushAll | buffer/buffer_pool.py:83-86 | leaves every page's contents and pins, and with no unmarked change the disk then holds what every page shows |
| SlottedPage.RoomIff | storage/heap_file.py:22-24 | the heap's test of length plus header size is exactly the room an insert consumes |
| SlottedPage.ExtentsDisjoint | storage/page.py:32-57 | tuples never overlap each other or the slot array |
| SlottedPage.SlotBack | storage/page.py:60-74 | each slot reads back its tuple's offset, length and flag |
| SlottedPage.TupleBack | storage/page.py:60-74 | each tuple lies where its slot says |
| SlottedPage.InsertTupleBytes | storage/page.py:32-57 | writing a tuple's bytes below the lowest tuple disturbs no byte of header, slots or older tuples |
| SlottedPage.DeleteBytes | storage/page.py:76-83 | clearing a used slot's flag turns the page into the page with that slot dead and all else the same |
| SlottedPage.DeleteUnusedIff | storage/page.py:76-86 | deleting a slot never used leaves the page alone exactly when its two flag bytes are zero, as they are below the tuple area |
| SlottedPage.DeleteUnusedCounterexample | storage/page.py:76-86 | a page where the bytes for a slot never used are not zero |
| HeapPage.SlotPage.InsertTuple | storage/page.py:32-57 | the in-place writes give exactly the bytes of the page with one more slot |
| HeapPage.SlotPage.GetTuple | storage/page.py:60-74 | returns a live tuple's bytes, nothing for slots dead or never used |
| HeapPage.SlotPage.DeleteTuple | storage/page.py:76-86 | clears a set flag and says so; on a used slot that is a delete of its tuple |
| HeapPage.SlotPage.Scan | storage/page.py:88-92 | the live tuples in slot order |
| HeapDirectory.DirectoryFull | storage/directory_page.py:23-46 | with 682 data pages the directory page is full: one more entry would not fit |
| HeapDirectory.EntryBack | storage/directory_page.py:23-30 | each directory entry reads back the page id, room and tuple count last written |
| HeapDirectory.GrowDirectory | storage/directory_page.py:43-46 | raising the count and writing the entry gives exactly the bytes of the longer directory, for up to 682 data pages |
| HeapDirectory.DirectoryPage.UpdateDirectory | storage/directory_page.py:32-41 | refuses page 0, pages past the count and negative numbers, else records the entry in dictionary and bytes |
| HeapDirectory.DirectoryPage.FindPageWithEnoughSpace | storage/directory_page.py:48-52 | the lowest-numbered page with that much room |
| HeapModel.FreshPageFitsIff | storage/heap_file.py:22-41 | a fresh page holds a tuple exactly up to 4084 bytes |
| HeapModel.InsertableIff | storage/heap_file.py:14-45 | an insert is carried out exactly when it leaves the file within its limits |
| HeapModel.UsedDeletable | storage/page.py:76-86 | every slot handed out can be deleted, once or again |
| HeapModel.InsertRefines | storage/heap_file.py:14-45 | an insert answers a rid never handed out, on the lowest-numbered page with room or a new one, and adds only that tuple to the map |
| HeapModel.DeleteRefines | storage/heap_file.py:57-64 | a delete answers true exactly for a live rid and removes only that tuple |
| HeapModel.ScanExact | storage/heap_file.py:66-81 | a scan yields each live tuple once, in page and slot order, and nothing else |
| HeapModel.RunRefines | storage/heap_file.py:14-64 | over every session of inserts and deletes the source carries out, the live tuples are what a plain map would hold and the file stays within its limits |
| HeapModel.AnswersDistinct | storage/heap_file.py:14-45 | over every such session no rid is answered twice, whatever is deleted in between |
| HeapFile.HeapFile.InsertTuple | storage/heap_file.py:14-45 | the method over the pool's bytes inserts as the function does, keeps each directory entry equal to its page's own room and the file length equal to the directory's count, and returns all pins; for a refused row it changes nothing and keeps one pin on page 0 |
| HeapFile.HeapFile.GetTuple | storage/heap_file.py:47-55 | returns the tuple under a rid, nothing for slots dead or never used |
| HeapFile.HeapFile.DeleteTuple | storage/heap_file.py:57-64 | deletes as the function does, for used slots and for unused ones whose flag bytes are zero |
| HeapFile.HeapFile.Scan | storage/heap_file.py:66-81 | yields what the scan function does and changes nothing |
| HeapFile.FlushMakesUp | storage/heap_file.py:86-92 | a clean unpin of a changed page followed by a flush comes to the same as a dirty unpin |
| HeapFile.CreateDirectory | storage/heap_file.py:86-92 | makes page 0 an empty directory, and the write survives |
| RowCodec.PackedIff | catalog/schema.py:48-71 | a row has bytes exactly when every integer has 32 bits and every text is within its positive limit and within 65535 encoded bytes; it is refused, rather than an exception raised, exactly when the first value breaking this is a text over its limit |
| RowCodec.DecodeRow | catalog/schema.py:48-103 | a stored row reads back as itself, for any mix of fixed and variable columns |
| RowCodec.DecodeIff | catalog/schema.py:73-103 | any bytes decode exactly when they hold the header and every fixed column, each column then read where header and widths put it, a text cut short where the bytes end |
| RowCodec.SliceIs | catalog/schema.py:92-96 | slicing takes as many of the bytes asked for as there are |
| RowCodec.CellPlaces | catalog/schema.py:48-71 | each column's bytes and each length lie where the header layout says |
| RowCodec.Serialize | catalog/schema.py:48-71 | the loop packs every column of a row whose values are all acceptable, and otherwise refuses or raises at the first that is not, by whether it is a text over its limit |
| RowCodec.Deserialize | catalog/schema.py:73-103 | the loop over lengths and columns decodes the row, or raises on bytes missing |
| RowCodec.NewSchema | catalog/schema.py:31-45 | counts the varchars and gives each name its last index |
| Expressions.SplitHolds | execution/planner/query_optimizer.py:40-43 | taking a predicate apart keeps what it accepts, for any nesting of And and Or |
| Expressions.CombineHolds | execution/planner/query_optimizer.py:45-53 | putting conjuncts together keeps what they accept |
| Expressions.CombineConjuncts | execution/planner/query_optimizer.py:45-53 | the fold gives the left-nested conjunction, nothing for no conjuncts |
| QueryOptimizer.OptimizeKeepsRows | execution/planner/query_optimizer.py:7-38 | an optimized query of scans, filters and equi-joins over distinct tables means the same rows, in the same order, under the same columns; `OptimizeAnswersIff` says when it is answered at all |
| Evaluation.OptimizeAnswersIff | execution/planner/query_optimizer.py:7-89 | a query that raises no type error as written raises none when optimized if and only if every conjunct moved into a scan can be evaluated on all rows of that table |
| Evaluation.OptimizeCanFail | execution/planner/query_optimizer.py:71-89 | a join with an empty table under a filter that orders a text with a number: answered as written, not when optimized |
| ExpressionLaws.HoldsIff | execution/expressions/logical.py:12-30 | evaluating a predicate gives a true value exactly on the rows it accepts by the logic of And, Or and the relations compared |
| ExpressionLaws.CompareIff | execution/expressions/comparison.py:23-32 | each of the six operators relates numbers of any kinds by their values and texts by their order, <= and >= including equality |
| ExpressionLaws.TextLessIff | execution/expressions/comparison.py:23-32 | a text comes before another exactly when it is smaller, or ends, where they first differ |
| ExpressionLaws.TextTotal | execution/expressions/comparison.py:23-32 | of two different texts exactly one comes before the other |
| ExpressionLaws.TextTransitive | execution/expressions/comparison.py:23-32 | the order of texts is transitive |
| ExpressionLaws.OrHolds | execution/expressions/logical.py:27-30 | a disjunction holds when either side does |
| ExpressionLaws.ValueIff | execution/expressions/comparison.py:23-32 | evaluation that can raise has a value, the one evaluated, exactly when no text is put in order with a number |
| ExpressionLaws.UnboundRaises | catalog/schema.py:105-109 | a name that is not a column leaves the whole expression without a value |
| ExpressionLaws.NamesDecide | execution/planner/query_optimizer.py:55-69 | an expression binds when all its names do, and refers to exactly the tables in front of their dots |
| ExpressionLaws.ColumnFound | execution/expressions/column_ref.py:10-14 | a column of a distinct name evaluates to the value at its place |
| ExpressionLaws.LastFound | catalog/schema.py:31-45 | of several columns with one name the last is found |
| QueryMeaning.KeepCounts | execution/operators/filter.py:15-18 | a filter keeps each row it accepts as often as it was there, and no other |
| QueryMeaning.NestedLoopCounts | execution/operators/hash_join.py:36-41 | the join yields a row once for each pair of rows with equal keys that it is made of |
| QueryMeaning.ProjectionShows | execution/operators/projection.py:44-48 | under its own distinct names each row of a select list shows every item's value on the row below |
| QueryMeaning.ProjectionOfAll | execution/operators/projection.py:44-48 | a select list of all columns in order changes nothing |
| Expressions.SplitEvaluates | execution/planner/query_optimizer.py:40-43 | the conjuncts of a predicate can all be evaluated on a row exactly when the predicate can |
| QueryOptimizer.PushIntoScanKeeps | execution/planner/query_optimizer.py:71-89 | a filter on one table may be done in that table's scan, through joins and other filters |
| QueryOptimizer.PushFilterPlaces | execution/planner/query_optimizer.py:21-38 | each scan gains exactly the conjuncts on its table alone, and exactly the others stay, in order |
| QueryOptimizer.PushDownLeavesNone | execution/planner/query_optimizer.py:10-38 | after the optimizer no filter anywhere keeps a conjunct that names just one table scanned below it |
| QueryOptimizer.PushFilter | execution/planner/query_optimizer.py:21-38 | the loop over the conjuncts computes that plan |
| IndexSelection.FindIndexLookup | execution/planner/physical_planner.py:204-239 | the loop settles on the first indexed column compared with a literal, folds only its comparisons, and keeps the whole predicate as residual |
| IndexSelection.IndexedColumnIff | execution/planner/physical_planner.py:276-281 | a conjunct counts exactly when it compares a column that has an index with a literal, either way round |
| IndexSelection.FirstIndexedIff | execution/planner/physical_planner.py:217-231 | the index used is that of the first conjunct that counts |
| IndexSelection.TightenExact | execution/planner/physical_planner.py:241-257 | with the column on the left a comparison narrows the range to exactly the keys that satisfy it, an equality forgets the range so far and != changes nothing, unless a rounded sum loses keys |
| IndexSelection.TightenKeepsIff | execution/planner/physical_planner.py:241-257 | with the column on the left the bounds keep every satisfying 32-bit key exactly when the rounded sum of a strict inequality does not pass the key next to the literal |
| IndexSelection.WholeSafe | execution/planner/physical_planner.py:241-257 | whole-number literals always meet that condition, however large |
| IndexSelection.FractionsDiffer | execution/planner/physical_planner.py:241-257 | a > 0.5 loses the key 1, while a > 1e-20 keeps it because the sum rounds to 1 |
| IndexSelection.TightenFlippedIff | execution/planner/physical_planner.py:276-281 | with the literal on the left they do so exactly for = and !=, and for literals at or beyond the end of the 32-bit keys |
| IndexSelection.RangeKeeps | execution/planner/physical_planner.py:204-257 | for any order of conjuncts, equality overwriting bounds and contradictions included, a satisfying row's key is in the folded range, if the comparisons that are folded are used safely |
| IndexSelection.UnboundedIff | execution/planner/physical_planner.py:204-257 | no bound at all comes out exactly when the chosen column is compared by != alone |
| IndexPlans.LookupExact | execution/operators/index_scan.py:36-41 | point or range mode, for any numbers as bounds, the index yields the rids of exactly the entries in bounds; without bounds it fails unless the index is one empty leaf |
| IndexPlans.IndexPlanSameRows | execution/planner/physical_planner.py:113-147 | the index plan yields the same bag of rows as a sequential scan with the whole predicate, and fails exactly when no bound came out and the index has a key to compare with |
| IndexPlans.IndexScanNext | execution/operators/index_scan.py:36-46 | fetches each rid's row and keeps it when the residual holds, in order |
| Floats.NearestIs | execution/planner/physical_planner.py:245-252 | rounding takes the nearest, and of two as near the even one |
| Floats.RoundedBetween | execution/planner/physical_planner.py:245-252 | rounding to 53 bits does not pass a whole number of up to 53 bits |
| Floats.Precision | execution/planner/physical_planner.py:245-252 | just above 2^53 odd numbers round to a multiple of four, just below it halves round to even, below 2^52 they stay |
| Joins.HashJoinSameRows | execution/operators/hash_join.py:12-41 | the hash join yields the same bag of rows as the nested loops |
| Joins.HashJoin.Open | execution/operators/hash_join.py:22-30 | the build loop fills exactly one bucket per key, in order |
| Joins.HashJoin.Next | execution/operators/hash_join.py:36-41 | the probe loop yields each right row glued to each left row of its bucket |
| Joins.IndexJoinSameRows | execution/operators/index_join.py:31-37 | probing the right table's index per left row yields the same bag of rows as the nested loops over the bare right table |
| Joins.IndexJoinPredicateIff | execution/operators/index_join.py:31-37 | with a predicate on the right scan the index join yields the join's bag of rows if and only if every right row that some left row matches passes the predicate |
| Joins.IndexJoinDropsPredicate | execution/operators/index_join.py:31-37 | one left row and one right row with its key that fails the pushed predicate: the index join yields the pair, the join yields nothing |
| ColumnOrder.NestedLoopTurned | execution/planner/physical_planner.py:164-167 | nested loops with the sides exchanged yield, column for column, the rows of the hash join |
| ColumnOrder.JoinCommutes | execution/planner/physical_planner.py:164-167 | a join with its sides exchanged yields the join's bag of rows once the columns are put in order |
| PhysicalPlans.IndexScanIff | execution/planner/physical_planner.py:113-147 | a scan goes through an index exactly when some conjunct compares an indexed column with a literal, through the first such, with the whole predicate as residual |
| PhysicalPlans.TableBelowFirst | execution/planner/physical_planner.py:283-295 | the table asked for an index is the first one scanned below, from left to right |
| PhysicalPlans.FilterAnswersIff | execution/operators/filter.py:8-18 | a filter over a planned query is answered if and only if its names are columns of the rows below and it can be evaluated on all of them |
| PhysicalPlans.ScanAnswersIff | execution/operators/seq_scan.py:21-24 | a scan without an index is answered if and only if its predicate binds and can be evaluated on every row of the table |
| PhysicalPlans.PlanYields | execution/planner/physical_planner.py:43-202 | every operator tree planned for scans, filters and joins, both attempts at an index join included, yields the bag of rows of its query with the columns in some order, where index scans and index joins meet their conditions and no type error comes up |
| PhysicalPlans.SecondProbeYields | execution/planner/physical_planner.py:149-196 | the second attempt, on a scanned left table, joins on the left table's column with the right key's name, whatever the left key is |
| PhysicalPlans.SecondProbeGoesWrong | execution/planner/physical_planner.py:149-196 | t.a = u.b with no matching rows and an index on t.b: the plan yields a row |
| PhysicalPlans.ProjectionAnswersIff | execution/operators/projection.py:14-52 | a select list over a planned query is answered if and only if it names columns of the rows below and can be evaluated on all of them, and then with the bag of rows meant |
| PhysicalPlans.ColumnsInOrder | execution/operators/hash_join.py:43-46 | the columns are those of the query in order unless some join is done by the second attempt |
| PhysicalPlans.PlannedQuerySameRows | execution/planner/physical_planner.py:43-202 | a query that raises nothing as written, and whose moved conjuncts can be evaluated where they end up, is answered when optimized, planned and run, with the bag of rows the original query means and its columns, in order under a select list or when no join is done by the second attempt |
| TableModel.TableInsertOk | catalog/table.py:17-26 | an insert adds the row under a fresh rid and leaves every index holding (row[column], rid) for exactly the live rows, with no condition on the keys |
| TableModel.TableDeleteOk | catalog/table.py:32-40 | a delete of a live rid removes the row and its entry from every index when the indices are ordered |
| TableModel.CreateIndexOk | catalog/catalog.py:59-80 | an index filled from a scan starts in step with the table, and ordered when its rows meet the two conditions |
| TableModel.SessionKeeps | catalog/table.py:17-40 | every session of inserts, deletes and index creations whose rows meet the two conditions keeps rows and indices in step and every index ordered |
| TableModel.NewTableSession | catalog/table.py:17-40 | so every such session on a new table ends with every index in step and ordered |
| TableSessions.SessionRows | catalog/table.py:17-40 | after every such session the live rows are what a plain map holds over its inserts and deletes |
| TableSessions.AnswersFresh | catalog/table.py:17-26 | no two inserts of a session answer the same rid |
| TableSessions.SessionIndices | catalog/catalog.py:59-80 | the columns indexed are exactly those some operation of the session asked for |
| TableSessions.SessionIndexedOnce | catalog/catalog.py:59-80 | however often it is asked for, no column has two indices |
| TableModel.TableQuerySameRows | execution/planner/physical_planner.py:113-147 | from a table with ordered indices an index plan yields the same bag of rows as scanning the heap |
| Table.Table.Insert | catalog/table.py:17-26 | the method over heap file and trees inserts as the value does; a text over its limit or a number out of range changes no row and no index, and all pins come back if and only if the row was not refused for a text |
| Table.InsertOverlong | storage/heap_file.py:14-23 | a text of four letters in a column of three: the insert fails and page 0 keeps a pin |
| Table.Table.Get | catalog/table.py:28-30 | the live row under a rid, read from the heap's bytes |
| Table.Table.Delete | catalog/table.py:32-40 | the method deletes as the value does, or fails if and only if the row is not live, which changes nothing, or some tree counts 0; then the row, the entries of the trees up to the first such tree and no others are gone, and two of that tree's pages stay pinned |
| Table.Table.Scan | catalog/table.py:42-45 | each live row once, with its rid, in heap order |
| Table.Table.CreateIndex | catalog/catalog.py:59-80 | builds a new tree file from a scan and adds it, ordered when the rows meet the two conditions, or refuses a column that has one |
| DatabaseBags.RowsBag | execution/operators/seq_scan.py:21-24 | what a query means does not depend on the order in which its tables list their rows, but for the order of its own rows |
| Engine.CatalogDepicted | catalog/table.py:42-45 | the tables that queries read hold exactly the rows of the plain maps after their sessions, indexed or not, under the columns' names in order |
| Engine.IndicesNow | catalog/catalog.py:59-80 | the indices that queries may use are those on the columns some operation asked for, by name |
| Engine.QueriesAnswer | execution/planner/physical_planner.py:43-202 | from empty tables: after any sessions that meet the two conditions, a query is answered with the bag of rows its scans, filters and nested loops mean over the plain maps of rows that the sessions' inserts and deletes leave, if none of its evaluations raises as written or where a conjunct is moved |
| Engine.UnindexedQueriesAnswer | execution/planner/physical_planner.py:43-202 | where no session creates an index that holds with no further condition on the query |
| Engine.SelectAll | execution/operators/seq_scan.py:21-24 | a plain scan of any table answers the rows of its plain map, indexed or not |

## Left out

- SQL parsing and the conversion of its tree into plans, string conversion of inserted values, DESCRIBE, the command line and status strings: user interface.
- File handles and the JSON catalog: a file is a growing sequence of pages, and the caller names the file of a new tree.
- Page buffers shared between the pool and its clients: a fetched page is a copy, and `ChangePage` writes it back where the source changes it in place.
- Byte order: packed integers are taken to be little-endian.
- UTF-8 and floating-point encodings: `RowCodec` takes them as parameters that invert.
- QueryOptimizer.OptimizeKeepsRows: compares what the two queries mean, where ordering a text with a number is false; the source raises there, and `Evaluation` says when that happens.
- Index scans and index joins evaluate fewer rows than the scans they replace: `Answers` asks that the evaluations of the query as written raise nothing, which is enough and not always needed.
- Not-a-number and infinite values: values are reals, and only the sums in index bounds are rounded.
- Plan nodes and expressions are values: `PushFilter` returns a new plan where the source assigns to fields of the old one.
- Self joins, aliases and unqualified names: the optimizer's theorem asks for distinct tables and bound, qualified columns.
- Projections below filters or joins: the planner does not build them.
- Index joins on a table below other operators, whose filters and joins the source then drops: `Usable` asks for a scan on the probed side.
- Scans interleaved with changes: `Scan` is one whole traversal.
- Schemas with a repeated column name, whose rows the source cannot serialize.
- BPlusTree.BPlusTree.Insert: asks for three obtainable frames, keys of 32 bits, rids and the key count of 32 unsigned bits and page ids below 2^31, because the packing raises otherwise.
- HeapFile.HeapFile.GetTuple: takes rids of pages in the file; the directory page read as a data page is not modelled.
- HeapFile.HeapFile.InsertTuple: asks for at most 4084 bytes and 682 data pages; beyond these the source raises while packing.
- HeapFile.HeapFile.DeleteTuple: asks for a used slot, or one whose flag bytes are zero; otherwise the source clears bytes of a tuple (`DeleteUnusedIff`).
- HeapPage.SlotPage.DeleteTuple: asks that the slot's flag lies inside the page; the source raises otherwise.
- Table.Table.Get: takes rids of pages in the file, as the heap file's method does.
- Table.Table.Delete: asks for ordered indices and a rid of a page in the file.
- IndexPlans.IndexPlanSameRows: asks for number literals and safe use of the folded comparisons; `TightenKeepsIff` and `TightenFlippedIff` say what lies outside.
- Concurrency, crash recovery and DROP TABLE: single-threaded, no log, file removal.
