# Model of osm-search

osm-search indexes OpenStreetMap objects for text and spatial queries. This project models four
components of it and proves what they are for:

- **The R-tree** and its best-first nearest neighbour search. Nodes are objects on the heap with
  parent pointers, updated in place as in the program. What holds of a tree is stated on a snapshot
  of its nodes (`RtreeInvariant`): `Sound` is kept by every run whatever its splits do, `Proper`
  (between m and M entries, exact bounding boxes, parents and children agreeing) and the stored
  objects are kept while every split is clean, that is, its two seeds are different entries and no
  entry ties on enlargement, area and group size. The ghost field `splits` records every split with
  its entries and bound; `Clean()` says that all of them were clean, and each operation states which
  splits it adds: an insertion splits exactly the unbroken chain of full nodes upward from the chosen
  leaf. `Contents()` is what a traversal from the root meets, with `Entered()` beside it for what was
  put in, since a split that is not clean can lose objects. `RtreeItems` gives the entries of every
  node after an insertion, `RtreeRuns` what holds after every run of insertions and deletions from an
  empty tree, and `RtreeStops`, `StaleLevels` and `TallTrees` when a deletion meets a recorded level
  that has become stale, with a tree on which it does. Distance is a parameter of the nearest
  neighbour search, which is given the nodes `live` that belong to the tree.
- **The SPIMI inverted index**: posting lists as varint bytes in an append-only file, metadata in a
  buffer, per-batch blocks, the k-way merge, and the agreement of lookups with a naive count.
- **The Boolean query compiler and evaluator**: shunting-yard against a reference parser, and the
  evaluation of the postfix list over sorted multisets of documents.
- **The n-gram tables and stupid backoff**, in terms of the corpus.

A method is proved against a function, and the function against laws that do not mention it: area
(`Areas`), the choices of a split (`SplitLaws`), the text that is indexed (`FieldTexts`), n-gram
counts as positions in the padded documents, precedence as brackets, and the statuses of a fence from
the geometry alone.

Three smaller state machines are modelled as interleaved steps or runs: the worker pool, the
numbering of documents and blocks in the batch indexer, and the reports for a point that moves
through fences, whose circles are kept in an R-tree (`Geofences`, `FenceTrees`, `FenceIndexes`).

Files are sequences of bytes, the key-value store is a map, the tokenizer is an arbitrary function
from text to term identifiers, `container/heap` and `sort.Ints` are used by their contracts, and the
iteration order of a map is arbitrary. Coordinates and areas are real numbers. Integers that are
encoded are 64 bits wide (`Compress.Int64`, `Compress.Uint64`).

`dafny verify dfyconfig.toml` checks the whole project.

## Model

| member | source | states |
|---|---|---|
| Boxes.BoundingBox | pkg/datastructure/rtree.go:28-47 | computes the union of two boxes, axis by axis |
| Boxes.UnionIsLeast | pkg/datastructure/rtree.go:28-47 | a box covers the bounding box exactly if it covers both arguments: it is the least such box |
| Boxes.Overlaps | pkg/datastructure/rtree.go:58-85 | the strict overlap test on every axis |
| Boxes.OverlapMeansCommonInterior | pkg/datastructure/rtree.go:58-85 | for boxes of positive width the strict test holds exactly if there is a common interior point |
| Boxes.OverlapIsMonotone | pkg/datastructure/rtree.go:503-529 | a query that overlaps a box overlaps every box around it, so no search prunes too much |
| Boxes.Area | pkg/datastructure/rtree.go:49-56 | the loop computes the area, which the laws below determine |
| Areas.AreaOfUnit | pkg/datastructure/rtree.go:49-56 | the unit box of any number of axes has area 1 |
| Areas.AreaOfCut | pkg/datastructure/rtree.go:49-56 | cutting a box at a coordinate of any one axis gives two boxes whose areas add up to its area |
| Areas.AreaOfStretched | pkg/datastructure/rtree.go:49-56 | stretching any one axis by a factor multiplies the area by it |
| Areas.AreaIsTheOnlyMeasure | pkg/datastructure/rtree.go:49-56 | a function on boxes is the area if and only if it gives 1 for unit boxes, is multiplied by stretching an axis, and is unchanged by moving the box |
| Areas.AreaIsZeroIff | pkg/datastructure/rtree.go:49-56 | a box without negative widths has an area that is not negative, and 0 exactly if some axis is flat |
| Areas.AreaIsMonotone | pkg/datastructure/rtree.go:49-56 | a box that covers another has no less area, and the same area only if it is the same box, when the other is solid |
| Areas.EnlargementIsZeroIff | pkg/datastructure/rtree.go:483-488 | enlargement is never negative, and for a solid group it is 0 exactly if the group covers the entry |
| Boxes.MbrIsLeast | pkg/datastructure/rtree.go:127-136 | a box covers a node's computed bound exactly if it covers every entry |
| RtreeNodes.Node.ComputeBB | pkg/datastructure/rtree.go:127-136 | the method returns that bound |
| SplitPolicy.SplitAccountsForAll | pkg/datastructure/rtree.go:264-342 | for distinct entries the two groups and the lost entries together are the entries, plus one copy of the seed when both seeds are one entry |
| SplitPolicy.SplitPartitionsIff | pkg/datastructure/rtree.go:264-342 | the two groups partition the entries if and only if the seeds differ and no entry is lost |
| SplitPolicy.LostIffFullTie | pkg/datastructure/rtree.go:300-338 | entries are lost exactly when some round ties on enlargement, on area and on group size |
| SplitPolicy.SplitPartitionsUnlessTied | pkg/datastructure/rtree.go:264-342 | the same partition, if and only if the guards that fail are never met |
| SplitPolicy.SplitFills | pkg/datastructure/rtree.go:315-320 | in a clean split of at least 2m entries both groups have between m and n - m entries |
| SplitPolicy.SameSizeSeedsDiffer | pkg/datastructure/rtree.go:404-456 | equal-sized boxes of positive width that are not all identical always get two different seeds |
| SplitPolicy.NestedBoxSeedsBothGroups | pkg/datastructure/rtree.go:404-456 | a small box inside two larger ones is chosen for both seeds |
| SplitPolicy.MiddleBoxIsLost | pkg/datastructure/rtree.go:323-338 | a box halfway between two seeds of its own size is dropped |
| RtreeNodes.LinearPickSeeds | pkg/datastructure/rtree.go:404-456 | the loops choose the seeds of the axis with the greatest normalised separation, the first extremes on it |
| RtreeNodes.PickNextEntry | pkg/datastructure/rtree.go:344-378 | the first entry with the greatest difference between its enlargements of the two bounds |
| SplitLaws.SeedsAreRight | pkg/datastructure/rtree.go:404-456 | the seeds are the first box with the highest low side and the first with the lowest high side, on the first axis with the greatest separation divided by the whole width; the first two boxes if every axis has width 0 |
| SplitLaws.SeedsAreUnique | pkg/datastructure/rtree.go:404-456 | no other pair fits that description |
| SplitLaws.NextIsRight | pkg/datastructure/rtree.go:344-378 | the next entry is the first for which the enlargements of the two bounds differ most, and only that |
| SplitLaws.SideIsRight | pkg/datastructure/rtree.go:311-338 | an entry joins a group that needs all the entries left; otherwise the group whose bounding box it enlarges less, on equal enlargement the one with the smaller resulting area, then the one with fewer entries; and only that group |
| SplitLaws.RoundIsRight | pkg/datastructure/rtree.go:300-338 | a round moves that entry to that group, or drops it when there is none, and changes nothing else |
| SplitLaws.SplitIsRight | pkg/datastructure/rtree.go:264-342 | the split is a run of such rounds from the seeds until nothing is left, and every such run ends with the same groups |
| RtreeNodes.SplitNode | pkg/datastructure/rtree.go:264-342 | in place, the node and the new node hold the two groups with which a run of right rounds on the old entries ends, and every entry's parent is its group |
| RtreeInvariant.CleanSplitDivides | pkg/datastructure/rtree.go:264-342 | a clean split of M + 1 entries divides them without loss or duplication into groups of m to M entries |
| RtreeNodes.ChooseSubtree | pkg/datastructure/rtree.go:470-496 | an entry of least enlargement; on ties the enlarged box of the later entry is compared with the box of the earlier one as it is, so the later may win although its enlarged box is greater |
| Rtrees.Rtree.constructor | pkg/datastructure/rtree.go:151-165 | an empty tree that stores nothing; with M at least 2 it has all R-tree properties |
| Rtrees.Rtree.SplitFull | pkg/datastructure/rtree.go:264-342 | splitting an overfull node of a tree leaves both halves ready for the upward adjustment; the split is recorded with its entries and bound, and the tree stays clean exactly if it was clean |
| Rtrees.Rtree.AdjustTree | pkg/datastructure/rtree.go:206-262 | restores bounds and fill from a changed node up to the root; exactly the unbroken chain of full ancestors of a divided node is split, each recorded with the entries it had |
| Rtrees.Rtree.InsertLeaf | pkg/datastructure/rtree.go:167-204 | one data entry with the object and box given joins a leaf node, reached from the root through entries of least enlargement; exactly the unbroken chain of full nodes upward from it is split, and the tree grows if and only if the chain reaches the root; the entries of every node afterwards are given, and without a split only that leaf node changes |
| RtreeItems.EntryIsPlaced | pkg/datastructure/rtree.go:171-189 | after an insertion the chosen node holds the new entry with the old ones, or these are divided between it and its partner as the split policy says; no other node on its level or below has changed |
| Rtrees.Rtree.Insert | pkg/datastructure/rtree.go:167-204 | if all splits were clean, the objects that a traversal meets gain exactly the new one, and leaf depth, fill, tight boxes and parents are kept; below M objects nothing is split |
| Rtrees.Rtree.InsertAll | pkg/datastructure/rtree.go:1011-1014 | after any run of inserts every new split was of a node with more than M entries, and if all were clean the tree stores exactly the old objects and the inserted ones |
| RtreeContents.StoredIsData | pkg/datastructure/rtree.go:498-529 | in a linked tree the objects met from the root are those of all its data entries, as many as there are entries |
| RtreeContents.LiveIsStored | pkg/datastructure/rtree.go:503-529 | the traversal meets the same objects in any part of the memory that holds the nodes it reaches |
| RtreeContents.RoomInLeaf | pkg/datastructure/rtree.go:183-191 | a tree of fewer than M objects has no full leaf node, so an insertion splits nothing |
| RtreeContents.TraversalIsComplete | pkg/datastructure/rtree.go:503-529 | walking a linked tree from its root meets every data entry exactly once |
| RtreeContents.ProperIsCovering | pkg/datastructure/rtree.go:206-262 | exact bounds make every node's box cover its entries' boxes |
| RtreeContents.MissedSubtree | pkg/datastructure/rtree.go:503-529 | nothing below a box that misses the query overlaps the query |
| Rtrees.Rtree.Search | pkg/datastructure/rtree.go:498-529 | on every tree whose boxes cover their entries, exactly the overlapping data entries in tree order |
| Rtrees.SearchIsLinearScan | pkg/datastructure/rtree.go:498-529 | on an R-tree each stored entry is in the result once if its box overlaps the query and not at all otherwise |
| RtreeRemoval.FindLeaf | pkg/datastructure/rtree.go:849-884 | finds a node holding the identifier and misses no entry whose box overlaps; a search for identifier 0 ends at a leaf node if and only if its way down, through the first overlapping child, ends at one that holds it, and at an internal node otherwise |
| RtreeDeletion.UprootTree | pkg/datastructure/rtree.go:826-834 | taking a node with all that is below it out of the tree keeps the rest linked, filled and tight |
| RtreeDeletion.UprootForest | pkg/datastructure/rtree.go:826-834 | what is below the eliminated node is a set of proper subtrees with its entries as tops |
| RtreeDeletion.TakeOut | pkg/datastructure/rtree.go:788-807 | one waiting subtree can be taken apart from the others |
| RtreeDeletion.Graft | pkg/datastructure/rtree.go:887-916 | attaching a proper subtree one level above its top gives a tree with the R-tree properties but for one overfull node |
| RtreeRemoval.CondenseTree | pkg/datastructure/rtree.go:770-846 | eliminates underfull nodes up to the root, then puts every orphan back; while splits are clean the stored objects and the waiting ones are those before; it stops only if an internal node was eliminated, and must stop if what the elimination leaves forces the tree to grow |
| RtreeRemoval.InsertLevel | pkg/datastructure/rtree.go:887-916 | a subtree joins a node one level above its top, reached through entries of least enlargement; the chain of full nodes upward is split, the entries of every node afterwards are given, and while splits are clean the stored objects gain exactly those of the subtree |
| RtreeRemoval.ReinsertAll | pkg/datastructure/rtree.go:788-807 | all queued nodes' entries return to the tree, unless the tree grew before the last internal one has returned: it stops exactly if something waits, at an entry of an internal node whose recorded level is stale, and it must stop if the first orphan can only be put into full leaf nodes below full nodes and an internal node is queued next |
| RtreeRemoval.Delete | pkg/datastructure/rtree.go:730-768 | the only object with its non-zero identifier goes and exactly it, if it overlaps; otherwise one object with the identifier, or for identifier 0 all objects below an internal node, exactly when the search ends there; the rest stays with the R-tree properties, and if nothing is found nothing changes; a leaf root with two objects ends as a bare data entry; a stale level is met only in a tree of three levels or more whose deletion eliminates an internal node of exactly m entries |
| RtreeDeletion.Shortened | pkg/datastructure/rtree.go:761-765 | replacing a root with a single child by the child keeps the R-tree properties |
| RtreeRemoval.StaleLevelIsTooHigh | pkg/datastructure/rtree.go:788-807 | when the tree has grown since a level was recorded, the node chosen for it is too high by that growth, and attaching the subtree there breaks the common depth of the leaves |
| RtreeStops.CrowdedGrows | pkg/datastructure/rtree.go:167-204 | a tree in which an object can only be put into full leaf nodes below full nodes grows by its insertion |
| StaleLevels.BrittleStops | pkg/datastructure/rtree.go:770-846 | in a tree of a stated form, taking out one entry eliminates a leaf node and its parent, and their first orphan makes the tree grow before the second returns |
| TallTrees.DeletionStops | pkg/datastructure/rtree.go:730-807 | such a tree of four levels, with m = 2 and M = 3, on which a deletion meets a stale level |
| RtreeRuns.ApplyPut | pkg/datastructure/rtree.go:167-204 | an insertion is a step of the run model |
| RtreeRuns.ApplyTake | pkg/datastructure/rtree.go:730-768 | so is a deletion on a tree whose splits were clean, with what it takes out, unless the tree grew while orphans returned or a leaf root with two entries is replaced by one |
| RtreeRuns.RunKeeps | pkg/datastructure/rtree.go:151-204 | after every run from an empty tree every split was of a node with more than M entries, and if all were clean the tree stores exactly what was put and not taken out |
| RtreeRuns.RunIsExact | pkg/datastructure/rtree.go:167-768 | if objects are put with new non-zero identifiers and boxes of positive width and only stored objects are taken, a run whose splits were clean stores exactly those put and not taken |
| RtreeRuns.ZeroTakesOutAChild | pkg/datastructure/rtree.go:849-884 | a tree of four objects from which deleting an object with identifier 0 that it does not have takes out a whole leaf node |
| MinHeaps.TopIsLeast | pkg/datastructure/pq_rtree.go:78-83 | in heap order nothing ranks below the top |
| MinHeaps.MinHeap.GetMin | pkg/datastructure/pq_rtree.go:78-83 | the top is present exactly if the heap is not empty, and ranks least |
| MinHeaps.MinHeap.Insert | pkg/datastructure/pq_rtree.go:86-95 | keeps heap order and adds exactly the entry to the multiset |
| MinHeaps.MinHeap.ExtractMin | pkg/datastructure/pq_rtree.go:98-125 | removes exactly one entry of least rank and keeps heap order |
| MinHeaps.SwapUp | pkg/datastructure/pq_rtree.go:90-94 | one swap upward moves the only violation of heap order to the parent |
| MinHeaps.SwapDown | pkg/datastructure/pq_rtree.go:108-122 | one swap downward, also on equal ranks, moves the only violation to the child |
| BestFirst.ClampIsNearest | pkg/datastructure/rtree.go:541-566 | the clamped point lies in the box and is nearest to the query for every distance that grows outward |
| BestFirst.PlanarGrowsOutward | pkg/datastructure/rtree.go:541-566 | planar squared distance grows outward and is never negative |
| BestFirst.BoxesAreLowerBounds | pkg/datastructure/rtree.go:541-566 | in an R-tree whose objects lie in their boxes no box is farther than an object below it |
| NearestNeighbours.CleanIsSearchable | pkg/datastructure/rtree.go:541-566 | a tree whose splits were clean can be searched, and if its objects lie in their own boxes then boxes are lower bounds for every distance that grows outward |
| BestFirst.WaitsInQueue | pkg/datastructure/rtree.go:675-713 | at every step an object not yet reported has exactly one place: it or an ancestor is queued |
| BestFirst.Reported | pkg/datastructure/rtree.go:695-700 | reporting an object whose distance is at most every rank in the queue keeps the reports ordered and complete |
| BestFirst.Descended | pkg/datastructure/rtree.go:701-712 | replacing a node by its entries keeps every rank a lower bound |
| BestFirst.SearchEnds | pkg/datastructure/rtree.go:679 | with an empty queue every stored object has been reported |
| NearestNeighbours.VisitObject | pkg/datastructure/rtree.go:685-700 | a boxed object is reported or put back once with its own distance |
| NearestNeighbours.IncrementalNearestNeighbor | pkg/datastructure/rtree.go:675-713 | however distance is measured, the search ends and reports each object of the tree at most once, all of them unless the callback stops it; if boxes are lower bounds, in nondecreasing distance with nothing left out nearer than a report |
| NearestNeighbours.NearestNeighboursPQ | pkg/datastructure/rtree.go:631-645 | exactly min(k, size) objects (one even for k = 0) and a panic for negative k; if boxes are lower bounds, sorted and with none left out nearer than one returned |
| NearestNeighbours.ImprovedNearestNeighbor | pkg/datastructure/rtree.go:715-728 | a stored object, of least distance if boxes are lower bounds, or the zero object of an empty tree |
| BestFirst.SameDistancesAsSorting | pkg/datastructure/rtree.go:631-645 | position by position the distances equal those of a full sort |
| Compress.TenBytesSuffice | pkg/compress/compress.go:26-43 | the unsigned LEB128 encoding (section 7.6 of DWARF Version 4) of 64 bits takes at most ten bytes |
| Compress.EncodeUVarint | pkg/compress/compress.go:28-43 | the shift-and-mask loop writes the LEB128 encoding and stops by its tenth step, where one bit is left |
| Compress.DecodeUVarint | pkg/compress/compress.go:45-48 | the value and length of the first number, 0 for a truncated one, negative for one over 64 bits |
| Compress.DecodesEncoding | pkg/compress/compress.go:28-48 | decoding an encoding followed by anything returns the number and its length |
| Compress.EncodePostingsList | pkg/compress/compress.go:118-125 | the concatenated encodings |
| Compress.DecodePostingsList | pkg/compress/compress.go:104-133 | the numbers read one after the other, and the panic on a negative count |
| Compress.DecodedEncoded | pkg/compress/compress.go:104-133 | every list of 64-bit integers round-trips, negative ones included |
| Compress.VbEncodeNum | pkg/compress/compress.go:74-88 | groups of seven bits, high-order group first, the last one marked; a negative number is cut to seven bits |
| Compress.VbDecode | pkg/compress/compress.go:89-102 | accumulates groups with 64-bit wrap-around until a marked one |
| Compress.RoundTrip2Iff | pkg/compress/compress.go:135-150 | the second codec returns a list if and only if it has no negative number |
| Compress.SomeBytes | pkg/compress/compress.go:28-102 | the bytes of 300 in the first codec and of 824 and 5 in the second |
| InvertedIndexes.AppendKeeps | pkg/index/inverted_index.go:195-212 | an append at the end of the file leaves every other term's bytes where its metadata says |
| InvertedIndexes.InvertedIndex.AppendPostingList | pkg/index/inverted_index.go:195-212 | the term's list becomes the appended one and the file grows by its encoding |
| InvertedIndexes.InvertedIndex.GetPostingList | pkg/index/inverted_index.go:178-193 | the list appended last, and the empty list for an absent term; never an error on a valid index |
| InvertedIndexes.InvertedIndex.Next | pkg/index/inverted_index.go:249-275 | yields the terms in the order of appending with their lists, and advances the cursor |
| InvertedIndexes.InvertedIndex.GetAproximateMetadataBufferSize | pkg/index/inverted_index.go:293-299 | the number of bytes of the written metadata, whatever order the maps are written in |
| MetadataFormat.LayoutLength | pkg/index/inverted_index.go:293-356 | whatever the order of the maps, the layout fills exactly the computed size |
| MetadataFormat.U32IsLittleEndian | pkg/index/inverted_index.go:301-356 | the four bytes of a number are its value modulo 2^32, least significant byte first |
| MetadataFormat.LayoutOfOne | pkg/index/inverted_index.go:301-356 | the fields of the metadata of one term and one document, in their order |
| InvertedIndexes.InvertedIndex.SerializeMetadata | pkg/index/inverted_index.go:301-359 | the writes at the moving position produce the layout and exactly fill the buffer of the computed size; the average is that of the lengths added to the old average |
| InvertedIndexes.InvertedIndex.NextAverage | pkg/index/inverted_index.go:343-354 | the lengths are added to the old average before the division |
| InvertedIndexes.AverageIsRightIff | pkg/index/inverted_index.go:343-354 | the stored number is the average length if and only if the old one was 0 |
| InvertedIndexes.TotalAdds | pkg/index/inverted_index.go:343-354 | the lengths summed over two lists of documents add up |
| InvertedIndexes.InvertedIndex.DeserializeMetadata | pkg/index/inverted_index.go:362-414 | the reads at the moving position produce the parsed metadata |
| MetadataFormat.MetadataRoundTripIff | pkg/index/inverted_index.go:301-414 | for every order of the maps, metadata come back if and only if all numbers and counts fit 32 bits |
| InvertedIndexes.InvertedIndex.Reopen | pkg/index/inverted_index.go:70-176 | after writing and reading the metadata every term has its list, and the cursor is fresh |
| HeapMerge.MergeKSortedArray | pkg/index/heap_merge.go:38-98 | emits every (term, postings) pair of all indexes exactly once, in nondecreasing order of the terms |
| HeapMerge.QueueAdvances | pkg/index/heap_merge.go:67-96 | after every pop and push the heap holds exactly the next entry of every index that has one |
| HeapMerge.PopKeepsOrder | pkg/index/heap_merge.go:67-96 | whichever least entry is popped, nothing left is below an emitted term |
| IndexMerging.Merge | pkg/index/indexer.go:652-685 | appends each distinct term once, strictly increasing, with the sorted multiset sum of its postings |
| IndexMerging.OpenGroup | pkg/index/indexer.go:661-671 | a new term closes the last group and opens its own |
| IndexMerging.OccOfEmission | pkg/index/indexer.go:652-685 | occurrences over an emission equal those over the blocks, in whatever order it came |
| IndexMerging.MergeFieldLengths | pkg/index/indexer.go:637-649 | a document's merged length is the sum of its lengths in all blocks |
| Indexer.DynamicIndex.SpimiParseOSMNode | pkg/index/indexer.go:788-819 | for "name" the words of the node's name and for "address" those of its address are paired with it in order, their number becomes its length in the block and is added to its word count; an empty text, or any other field, leaves no trace |
| Indexer.DynamicIndex.SpimiParseOSMNodes | pkg/index/indexer.go:822-835 | the token stream and the lengths of a batch; each document's word count grows by its words in the field |
| FieldTexts.StreamOfNode | pkg/index/indexer.go:788-835 | the token stream of one node, in terms of its own name or address |
| FieldTexts.StreamConcat | pkg/index/indexer.go:822-835 | the streams of the nodes follow each other |
| FieldTexts.TermCountOnFields | pkg/index/indexer.go:788-819 | for distinct identifiers the naive count of a term in a document is its count in the words of the document's name when names are indexed, of its address when addresses are, and 0 for an empty text, for any other field, and for an identifier that no document has |
| FieldTexts.FieldLengthOnFields | pkg/index/indexer.go:788-819 | the same for the number of words |
| FieldTexts.NameAndAddress | pkg/index/indexer.go:792-798 | of a document named Monas in Jalan Merdeka, "name" indexes the words of Monas and "address" those of Jalan Merdeka |
| Indexer.CutMeans | pkg/index/indexer.go:718-785 | the pieces held in memory together are the stream again; all but the last are flushed when memory is full |
| Indexer.DynamicIndex.SpimiInvert | pkg/index/indexer.go:689-784 | one block for every full memory and one for the rest, in order; each holds, sorted, the documents of its piece of the stream as often as they occur, but for the terms that the flush of a full memory loses, and each carries the field lengths of the whole batch |
| Indexer.FlushIsRightIff | pkg/index/indexer.go:722-747 | the flush inside a batch writes the right lists if and only if the terms in memory are 0, 1, 2, ... |
| Indexer.FlushLosesATerm | pkg/index/indexer.go:722-747 | with memory for one pair the only occurrence of term 7 is in no block |
| SpimiPipeline.StreamCount | pkg/index/indexer.go:788-835 | the token stream counts a term in a document as the naive count does |
| SpimiPipeline.KeptOrLost | pkg/index/indexer.go:689-784 | every occurrence of a term in a document is in exactly one block or was lost by a flush |
| SpimiPipeline.IndexBatches | pkg/index/indexer.go:637-784 | for any batches and any limit: a lookup after inversion and merge gives an ascending list with each document as often as the term occurs in its own name or address, whichever is indexed, less what flushes lost, and merged field lengths count a batch once for each of its blocks |
| SpimiPipeline.AnswersIff | pkg/index/indexer.go:722-747 | lookups agree with the naive count for all terms and documents if and only if, whenever memory was full, its terms were 0, 1, 2, ... |
| SpimiPipeline.LengthsRightIff | pkg/index/indexer.go:637-649 | a document's merged field length is never too small, and right if and only if no batch that was flushed has words of it |
| SpimiPipeline.BuiltMeans | pkg/index/indexer.go:637-784 | without flushes and with distinct identifiers, field lengths equal the occurrences over all posting lists, and the number of words in each document's own name or address |
| SpimiPipeline.IndexFromFiles | pkg/index/indexer.go:637-784 | the same index results when every block is written to its file and opened again, provided that all blocks' metadata fit 32 bits; the model makes that test, the program does not |
| SpimiPipeline.AnswersAgree | pkg/index/indexer.go:637-784 | two indexes over the same documents give identical lists, however the documents were ordered and cut into batches |
| SpimiPipeline.LengthIsOccurrences | pkg/index/indexer.go:637-649 | a document's number of words equals its number of occurrences over all posting lists |
| SpimiPipeline.Lookup | pkg/index/inverted_index.go:178-193 | the lookup itself succeeds with that list: each document as often as the term occurs in its own text of the field |
| QuerySyntax.WellFormedIffParsed | pkg/searcher/searcher.go:572-630 | a token list is well-formed if and only if it has a right-associative precedence tree, and the tree is unique |
| QuerySyntax.CanonicalIsBracketed | pkg/searcher/searcher.go:573-578 | the trees of the precedence table are those where an operand of NOT is no AND and no OR, an operand of AND is no OR, and operators of one kind group to the right |
| QuerySyntax.SomeTrees | pkg/searcher/searcher.go:572-630 | the trees of four token lists in the codes of the program |
| ShuntingYard.ShuntingYardRPN | pkg/searcher/searcher.go:572-630 | the loops compute the run of the operator stack, including the panic |
| ShuntingYard.PostfixIsPostorder | pkg/searcher/searcher.go:572-630 | for every well-formed token list the output is the postorder of its tree, and no empty stack is popped |
| ShuntingYard.PopsExactly | pkg/searcher/searcher.go:598-615 | an operator pops exactly the strictly stronger operators above a weaker or equal one |
| ShuntingYard.PanicsIff | pkg/searcher/searcher.go:583-596 | an empty stack is popped if and only if some prefix closes more brackets than it opens |
| QueryProcessing.PostingListIntersection2 | pkg/searcher/searcher.go:702-719 | two moving indexes compute the intersection |
| QueryProcessing.IntersectionCount | pkg/searcher/searcher.go:702-719 | on sorted lists every document occurs the smaller number of times |
| QueryProcessing.Deque.PopFront | pkg/searcher/searcher.go:554-561 | takes the first item, if there is one |
| QueryProcessing.Deque.PopBack | pkg/searcher/searcher.go:563-570 | takes the last item, if there is one |
| QueryProcessing.ProcessQuery | pkg/searcher/searcher.go:633-677 | the stack of posting lists is evaluated token by token, OR and NOT doing nothing, with the panics on a short stack |
| QueryProcessing.EvalsToValues | pkg/searcher/searcher.go:633-677 | the postorder of any well-formed query evaluates without a panic to the lists of its tree |
| QueryProcessing.QueryMeaning | pkg/searcher/searcher.go:572-677 | from tokens to result for every well-formed query: the ascending list with every document as often as the last of the query's counts says, which for conjunctions is the least number over the terms |
| QueryProcessing.CountsAreLeast | pkg/searcher/searcher.go:633-677 | every list that a query leaves counts a document the least number of times over a set of the query's terms, computed from the query alone |
| QueryProcessing.AnsweredIff | pkg/searcher/searcher.go:572-677 | from tokens to result for every well-formed query: it returns the conjunction of the last of these sets, and is right for a document if and only if having that set of terms is what the query means |
| QueryProcessing.AlwaysRightIff | pkg/searcher/searcher.go:572-677 | a query is right for every document of every index if and only if its truth table over its own terms is that conjunction |
| QueryProcessing.ConjunctionIsRight | pkg/searcher/searcher.go:651-663 | a query without OR and NOT is right for every document |
| QueryProcessing.NegationIsWrong | pkg/searcher/searcher.go:667-669 | NOT changes nothing, so it is right for a document exactly if its operand is not |
| QueryProcessing.DisjunctionIsRightOperand | pkg/searcher/searcher.go:664-666 | a query with OR at its root returns what its right operand returns; if that is right for a document, the query is exactly if the left operand asks for no more |
| QueryProcessing.ConjunctionOfLastTwo | pkg/searcher/searcher.go:651-663 | AND over an operand with an OR intersects the last two lists of that operand, without any influence of its left operand |
| QueryProcessing.TermAndEither | pkg/searcher/searcher.go:651-666 | a AND (b OR c) returns the documents with b and c, and the exact condition on a document for that to be right |
| QueryProcessing.BuildTokens | pkg/searcher/searcher.go:446-451 | the terms with AND between them |
| QueryProcessing.AndQuery | pkg/searcher/searcher.go:446-468 | for t1 AND ... AND tn every document occurs the minimum number of times over the n lists, sorted |
| QueryProcessing.SearchDocuments | pkg/searcher/searcher.go:446-468 | on an index built from any batches an AND query finds the least number over what its terms kept in the blocks; if no flush lost a list, the least number of times that one of its terms occurs in the document's own name or address |
| NGrams.CountAtMostPrefix | pkg/searcher/ngram_lm.go:137-210 | for every corpus an n-gram is not counted more often than its prefix, although the tables pad with n and n - 1 start tokens |
| NGrams.UnigramAtMostAll | pkg/searcher/ngram_lm.go:112-135 | a unigram is not counted more often than there are tokens |
| NGrams.TotalOfDocument | pkg/searcher/ngram_lm.go:112-210 | in a corpus of one document an n-gram is counted once for each of its positions in the document padded for n, and all tokens of the document padded for 1 are counted |
| NGrams.TotalAdds | pkg/searcher/ngram_lm.go:112-210 | the counts of two corpora add up |
| NGrams.PaddedParts | pkg/searcher/ngram_lm.go:368-379 | the padding in terms of positions |
| NGrams.NGramLanguageModel.AddStartEndToken | pkg/searcher/ngram_lm.go:368-379 | n start tokens, the document, one end token |
| NGrams.NGramLanguageModel.CountUnigram | pkg/searcher/ngram_lm.go:112-135 | the unigram table of the corpus and the number of tokens |
| NGrams.NGramLanguageModel.CountNGrams | pkg/searcher/ngram_lm.go:137-210 | a table that counts every window of the padded documents, without zero entries |
| NGrams.NGramLanguageModel.MakeCountMatrix | pkg/searcher/ngram_lm.go:340-366 | the four tables of the corpus; tokens are added to those counted before, so the model is that of the corpus if and only if none had been counted |
| NGrams.NGramLanguageModel.EstimateProbability | pkg/searcher/ngram_lm.go:213-298 | on the counted tables of any corpus: times the prefix's count in the corpus (for order 1, the number of all tokens) the quotient is the n-gram's count, and it is 0 for a prefix that does not occur |
| NGrams.EstimateIsFrequency | pkg/searcher/ngram_lm.go:213-298 | so every estimate is a relative frequency in the corpus |
| NGrams.EstimateIsProbability | pkg/searcher/ngram_lm.go:213-298 | every estimate lies in [0, 1] and is positive exactly if the n-gram was counted |
| NGrams.NGramLanguageModel.StupidBackoff | pkg/searcher/ngram_lm.go:323-337 | for any order and context the loop over the orders, with the panics on a short context and once no context is left; on the counted tables of any corpus its score is that of `NGrams.BackoffScore` |
| NGrams.HighOrderDropsAWord | pkg/searcher/ngram_lm.go:323-337 | an order above 4 only drops a word and discounts once more |
| NGrams.BackoffScore | pkg/searcher/ngram_lm.go:323-337 | for every order with a table and every context: a panic if the context is too short; for a word of the corpus a score in (0, 1], which is 1, 0.4, 0.16 or 0.064 times the relative frequency of the longest end of the n-gram that occurs in the corpus; otherwise 0, or a panic if no word is left to drop |
| WorkerPools.PoolIsSafe | pkg/concurrent/worker_pool.go:19-57 | in every interleaving nobody sends on a closed channel, and once Wait returns the results sent are those of exactly the jobs |
| WorkerPools.NeverStuck | pkg/concurrent/worker_pool.go:19-57 | with a worker and no more jobs than the queue holds some step is possible until Wait has returned |
| WorkerPools.PoolFinishes | pkg/concurrent/worker_pool.go:19-57 | such a run is never stuck and its length is bounded, so every run ends |
| WorkerPools.ConservedStep | pkg/concurrent/worker_pool.go:27-33 | every step conserves results sent, owed by workers, and due for queued jobs |
| BatchIndexing.IdsAreExact | pkg/index/indexer.go:196-434 | when all batches have ended the identifiers are exactly 0 to nodeIDX - 1, each once in the tree's data and once among the published documents |
| BatchIndexing.BatchesAreApart | pkg/index/indexer.go:196-434 | in every interleaving no two blocks share a name, and the documents inverted together have distinct identifiers |
| BatchIndexing.BlockNamesDiffer | pkg/index/indexer.go:728-731 | the decimal number in a block's name determines it |
| BatchIndexing.InvStep | pkg/index/indexer.go:196-282 | what every step keeps of identifiers, published documents and names |
| BatchIndexing.BatchesAreFull | pkg/index/indexer.go:196-434 | a batch is inverted when it has as many documents as its size or no objects left, and is never empty then |
| BatchIndexing.BatchAdvances | pkg/index/indexer.go:196-434 | a batch that has not finished can take a step, and every step but the writing of a block leaves it less to do |
| FenceTrees.RtreeFence.Add | pkg/geofence/geofence.go:49-61 | a known circle is replaced and a new one joins, each stored once in the fence's tree; it panics on a 26th circle, whose split would read a third axis, and when one of exactly two circles is added again, because the deletion leaves a data entry as the root |
| FenceTrees.BoundIsAround | pkg/datastructure/circle.go:98-101 | a circle's box holds the points no farther from its centre than the radius on either axis |
| FenceTrees.RtreeFence.FindNearest | pkg/geofence/geofence.go:63-67 | the tree's answer to k = 3 are the keys of the three nearest circles, or of all if there are no more, in order of distance with none left out nearer |
| FenceTrees.RtreeFence.Get | pkg/geofence/geofence.go:63-117 | for each of the three nearest circles, in their order, exactly the statuses that the geometry asks for: INSIDE if it contains the point, ENTER before it if it did not contain the previous one, EXIT and then OUTSIDE if it did and no longer does, CROSS if it contains neither and the line between them crosses it, and otherwise OUTSIDE; nothing for other circles |
| FenceIndexes.FenceIndex.Search | pkg/geofence/fence_index.go:50-73 | reads the previous point, stores the new one and reports for the three nearest circles exactly the statuses that the geometry asks for between the two points, an unseen point counting as outside; an unknown fence changes nothing |
| Geofences.StatusesAreRight | pkg/geofence/geofence.go:97-117 | the statuses of any circles are those due for each, each once and in order |
| FenceIndexes.FenceIndex.Walk | pkg/geofence/fence_index.go:50-73 | over a run of searches the ENTER and EXIT reports of each circle are the changes at the moves where it is among the three nearest, and they alternate if and only if an even number was missed before each; in a fence of at most three circles nothing is missed |
| Geofences.FewAreNear | pkg/geofence/geofence.go:66 | each of at most three circles is among the three nearest |
| Geofences.NearAlternatesIff | pkg/geofence/geofence.go:63-116 | for every path on which all changes alternate, and any nearest circles at each move, the reported ones alternate if and only if each comes after an even number of missed changes |
| Geofences.AlwaysNear | pkg/geofence/geofence.go:63-66 | a circle that is always among the nearest gets all reports of the path |
| Geofences.FarCircleEntersTwice | pkg/geofence/geofence.go:63-66 | in a fence of four circles, whatever the three nearest are at each move, a point that enters the far one, goes to the others and comes back is reported to ENTER it twice |
| Geofences.AlternatesIff | pkg/geofence/geofence.go:63-116 | a circle's ENTER and EXIT strictly alternate, starting with ENTER, if and only if no point at latitude -999 inside it is followed by another point inside |
| Geofences.RealLatitudesAlternate | pkg/geofence/geofence.go:63-116 | along every path of real latitudes the reports of a circle alternate |
| Geofences.SentinelEntersTwice | pkg/geofence/geofence.go:72-80 | two searches at latitude -999 inside a circle report ENTER twice |
| FenceIndexes.FenceIndex.AddFence | pkg/geofence/fence_index.go:33-39 | a new name gets an empty fence, a known one an error |
| FenceIndexes.FenceIndex.AddFencePoint | pkg/geofence/fence_index.go:87-95 | the circle is stored under its key in the named fence and no other fence changes; an error for an unknown name, and exactly the panics of `FenceTrees.RtreeFence.Add` |

## Left out

- RtreeRemoval.Delete: needs m at least 2, 2m at most M + 1, and a tree whose splits so far were clean; with m = 1 a deletion can leave an internal root with one child, which the next one empties, and after a split that lost or doubled an entry parents and children no longer agree.
- RtreeRemoval.Delete: when orphans make the tree grow, the recorded levels no longer fit, and the model stops there (`stopped`) with the objects that still wait; `RtreeRemoval.StaleLevelIsTooHigh` shows that going on gives no R-tree, and the program's further steps are not followed.
- RtreeRemoval.Delete: after a root leaf with two objects is shortened the root is a data entry with the object left; a search of such a tree finds nothing, which is not stated.
- RtreeRemoval.CondenseTree: the bound that the program still writes to an eliminated node is left out, because nothing reads it.
- RtreeRuns.ApplyTake: runs are continued after a deletion only if it did not stop and did not shorten a leaf root.
- Rtrees.Rtree.InsertLeaf: needs boxes with as many axes as the tree, where the program would index out of range.
- Rtrees.Rtree.constructor: with M below 2 the empty tree is described, but nothing is said of insertions, since a node with one entry cannot be split.
- Rtrees.Rtree.Insert: a split that is not clean leaves open which objects a traversal meets; `SplitPolicy.SplitAccountsForAll` says what such a split does to the entries of its node.
- SplitPolicy.SplitPartitionsIff: rounding of areas is not modelled, so a tie is a tie of real numbers.
- RtreeNodes.LinearPickSeeds: an axis on which all boxes are the same point divides 0 by 0; the model lets such an axis never win, as a comparison with NaN does, and replaces the infinite start values by the first entry.
- NearestNeighbours.IncrementalNearestNeighbor: the shipped distance feeds degrees to a cosine, so the lower bound is proved for distances that grow outward, planar squared distance among them, and not for that formula; a tree that reaches an entry twice, because a split put one seed into both groups, is excluded.
- Compress.DecodePostingsList: the copy of the input is left out.
- InvertedIndexes.InvertedIndex.SerializeMetadata: the average is a real number, an infinity or not a number; its eight bytes and the value of eight bytes are parameters, so rounding is not modelled.
- InvertedIndexes.InvertedIndex.Reopen: file errors, the file that stores the buffer's size, and truncation are left out.
- Indexer.DynamicIndex.SpimiInvert: cancellation and locks are left out here.
- SpimiPipeline.IndexFromFiles: the program goes on with the truncated numbers that it reads back from metadata that do not fit 32 bits; the model stops there.
- SpimiPipeline.IndexBatches: field lengths need distinct identifiers within a batch, since a repeated one overwrites the length; `BatchIndexing.BatchesAreApart` shows that the program hands out such identifiers.
- QueryProcessing.ProcessQuery: OR and NOT are not implemented in the program; general queries are characterised by the lists left on the stack.
- NGrams.NGramLanguageModel.MakeCountMatrix: the four counting loops run one after the other; they write different fields.
- WorkerPools.PoolIsSafe: the owner closes the queue after its last job and waits after starting its workers; a queue of capacity 0 hands jobs over directly, which is not modelled.
- BatchIndexing.IdsAreExact: whether an object is skipped (no name, a duplicate) is arbitrary; errors and cancellation are left out.
- FenceTrees.RtreeFence.Add: the program builds the tree with 50 axes for boxes of two; only a split reads that number, so the model gives the tree two axes and panics where the first split would. What a fence is after a panic is not stated.
- FenceIndexes.FenceIndex.Search: circle geometry and the distance are parameters, and errors of the key-value store are left out.
- Geofences.NearAlternatesIff: a path with two points inside the circle, the earlier one at latitude -999, is excluded here; without missed changes `Geofences.AlternatesIff` covers it.
- Term identifiers, spell correction, ranking (BM25, TF-IDF), vocabulary thresholds, polygons and address assembly are not modelled: library code, floating-point formulas or data plumbing.
- NearestNeighboursRadiusFilterOSM is not modelled: it stops on one distance and is ordered by another.
- The server, persistence formats (gob, msgpack, bbolt) and OSM parsing are not modelled.
