# ugraph, modelled in Dafny

ugraph clusters uncertain graphs, whose edges exist with a given probability, and evaluates the clusterings. This project models the deterministic heart of the repository in Dafny and proves what it promises. There are two halves.

**The Python evaluation pipeline**
- The DBLP co-authorship graph builder (`Dblp`).
- The pKwik pivot clustering baseline (`PKwik`).
- The `build_pairs` codec, which turns clusterings into same-cluster pairs (`PairCodec`).
- The confusion-matrix evaluator with its loaders (`Confusion`).
- The MIPS and Krogan ground-truth builders (`Mips`, `Krogan`).
- The MCL result writer (`Mcl`).

**The C++ core**
- Edge and vertex data with the edge-index factory (`Types`).
- The edge-list reader (`EdgeListIo`).
- The cluster state of a vertex (`ClusterVertices`).
- The connection-counts cache (`CountsCache`).
- The ring-buffer queue (`FixedQueue`).
- Depth-limited BFS (`Bfs`) and connected components (`Components`), both over a sampled world.
- The pair-keyed connection map and reachability marking (`ConnectionMap`).
- The experiment reporter's table schema (`Reporter`).
- The Splitmix64 and Xorshift1024* generators (`Rand`).

Shared vocabulary lives in three modules:
- `Common`: Python's string order, canonical pairs, `itertools.combinations`, set enumeration, and largest-first sorting.
- `Text`: Python's `split()`, `split(sep)` and `strip()`, and boost's `split(..., is_any_of(...))`.
- `Graphs`: the `adjacency_list` view of `ugraph_t` with sampled edge masks, paths and connectivity.

Mutable state in the source is mutable state here:
- C++ objects are classes whose methods update their fields.
- Fixed buffers and output vectors are arrays.
- Python loops are methods with loop invariants, each proved against a specification function.
- The properties the code promises are lemmas about those functions.

## Model

| member | source | states |
|---|---|---|
| Dblp.ValidArticle | Reproducibility/Data/dblp/dblp.py:48-66 | an article is valid exactly when it has an author list (not a single author) and a year, the year is at most 2012, it is not an informal publication, and either there is no type filter or the key's category before the first `/` is allowed |
| Dblp.AuthorName | Reproducibility/Data/dblp/dblp.py:82-86 | a plain string is its own name; an XML node gives its `#text` |
| Dblp.BumpSymmetric | Reproducibility/Data/dblp/dblp.py:68-80 | `add_edge(a, b)` and `add_edge(b, a)` update the same `(min, max)` key, which is then present with its weight one higher |
| Dblp.BumpAllWeights | Reproducibility/Data/dblp/dblp.py:73-80 | bumping a sequence of keys adds to each key's weight exactly its number of occurrences, and adds exactly those keys to the map |
| Dblp.ArticleKeysShape | Reproducibility/Data/dblp/dblp.py:93-97 | n author positions give n(n-1)/2 keys, each the canonical pair of the names at two positions a < b (a repeated author yields a key `(a, a)`) |
| Dblp.Counter.Inc | Reproducibility/Data/dblp/dblp.py:25-37 | the count goes up by one and the call returns True |
| Dblp.GraphBuilder.constructor | Reproducibility/Data/dblp/dblp.py:41-46 | no edges, no authors, a fresh counter at 0, the given type filter |
| Dblp.GraphBuilder.AddEdge | Reproducibility/Data/dblp/dblp.py:68-80 | both names join the authors; the canonical key's weight is set to 1 or raised by 1 |
| Dblp.GraphBuilder.ProcessArticle | Reproducibility/Data/dblp/dblp.py:88-101 | counts every article and returns True; a valid article bumps the key of every pair of author positions and adds their names; an invalid one changes neither edges nor authors |
| Dblp.GraphBuilder.EdgesStream | Reproducibility/Data/dblp/dblp.py:110-112 | a triple `(a, b, w)` is streamed exactly when `(a, b)` is a key of weight w |
| Dblp.ProcessName | Reproducibility/Data/dblp/dblp.py:115-116 | same length, every space turned into '_' and every other character kept, so no space is left |
| Dblp.WriteStream | Reproducibility/Data/dblp/dblp.py:119-128 | the text written is one line per tuple: two processed names, then the probability text for a triple |
| Dblp.WriteLine | Reproducibility/Data/dblp/dblp.py:121-128 | the writes for one tuple add exactly its line |
| Dblp.ProcessedNameIsWord | Reproducibility/Data/dblp/dblp.py:115-116 | a non-empty name whose only whitespace is ' ' becomes one non-empty whitespace-free word |
| Dblp.EdgeLineReadsBack | Reproducibility/Data/dblp/dblp.py:119-128 | splitting a written line gives back the two processed names and, for a triple, the probability text |
| PKwik.SurvivingEdges | scripts/pkwik.py:16-17 | an edge is kept exactly when some input edge with those endpoints has probability at least 0.5 |
| PKwik.PKwikCluster | scripts/pkwik.py:13-28 | the clusters are a pivot run on the graph of surviving edges: each is a root of the residual graph followed by its residual neighbours, until no node remains |
| PKwik.PivotLoop | scripts/pkwik.py:22-27 | the while loop produces a pivot run over the nodes of the filtered graph |
| PKwik.StepWithinResidual | scripts/pkwik.py:23-25 | a cluster holds its root and lies within the residual graph it was taken from |
| PKwik.CoveredPrefix | scripts/pkwik.py:22-27 | what has been clustered lies within the nodes, and each iteration removes at least one node, so the loop ends after at most as many iterations as nodes |
| PKwik.CoverGrows | scripts/pkwik.py:23-27 | each cluster removes at least one remaining node, and only nodes of the graph |
| PKwik.PivotRunPartitions | scripts/pkwik.py:18-28 | clusters are pairwise disjoint and non-empty, there are at most as many as nodes, and together they cover exactly the nodes of the filtered graph |
| PKwik.UnkeptNodeIsUnclustered | scripts/pkwik.py:16-18 | a vertex with no edge of probability at least 0.5 is in no cluster |
| PKwik.PrintedClusters | scripts/pkwik.py:41-43 | the clusters are printed largest first, as a permutation of the clusters in which clusters of equal size keep their order, each as its labels joined by spaces |
| PairCodec.PairsOfClusters | scripts/result2pairs.py:32-38 | the loop over clusters and position pairs builds exactly the sorted pairs of every cluster |
| PairCodec.ClusterPairsMembers | scripts/result2pairs.py:35-37 | a pair is produced exactly when two distinct positions of one cluster hold its labels, and it is stored smaller label first |
| PairCodec.SingletonsContributeNothing | scripts/result2pairs.py:36 | a cluster of at most one vertex adds no pair |
| PairCodec.DistinctClusterPairs | scripts/confusion.py:31-34 | for clusters without repeated labels, the pairs are exactly the 2-subsets of the clusters |
| PairCodec.CentersExact | scripts/result2pairs.py:47-54 | `cluster_map` has each centre of the records exactly once |
| PairCodec.MembersPrefix | scripts/result2pairs.py:51-54 | reading more records only appends to a centre's list |
| PairCodec.RankLabel | scripts/result2pairs.py:49-54 | each record's label sits in its centre's list at its rank among the records of that centre |
| PairCodec.RankMonotone | scripts/result2pairs.py:51-54 | labels are kept in record order within a centre |
| PairCodec.GroupPairs | scripts/result2pairs.py:47-55 | grouping by centre loses and adds nothing: the pairs of the groups are exactly the pairs of labels of records that share a centre |
| PairCodec.GroupByCenter | scripts/result2pairs.py:47-54 | the loop builds the groups of the records by centre, in first-seen order |
| PairCodec.BuildPairs | scripts/result2pairs.py:31-55 | a list gives its cluster pairs; a dict uses `clustering`, else `tables.clustering`, and gives the pairs of same-centre records; otherwise a `TypeError` |
| PairCodec.ThreeRecordsExample | scripts/confusion.py:44-52 | three records, two sharing centre P1, give the single pair (P1, P2) |
| Confusion.NumDistinctProteins | scripts/confusion.py:16-21 | the number of distinct labels over all clusters, at most their total size |
| Confusion.AddLabels | scripts/confusion.py:18-20 | the inner loop adds exactly the labels of one cluster to the set |
| Confusion.Unpack | scripts/confusion.py:93 | a set of tuples is visited in some order, each once; token sets unpack into two distinct names, and any set not of size two fails |
| Confusion.Kept | scripts/confusion.py:75-79 | a pair is kept exactly when it is predicted and both its ends are in the universe |
| Confusion.FilterPairs | scripts/confusion.py:75-79 | the filtering loop keeps exactly the kept pairs, in order |
| Confusion.CountPositives | scripts/confusion.py:93-97 | tp counts the kept pairs found in the ground truth and tp + fp is the number of kept pairs |
| Confusion.CountMissed | scripts/confusion.py:99-101 | fn counts the ground entries not among the kept pairs |
| Confusion.ConfusionMatrix | scripts/confusion.py:55-127 | the result or error of `confusion_matrix` is that of the counts over the kept pairs: tp the kept pairs in the ground truth, fp the other kept pairs, fn the ground entries not kept (the rates and errors are those of `Confusion.Rates`) |
| Confusion.Rates | scripts/confusion.py:103-127 | an `AssertionError` exactly when fp exceeds the negatives or positives differ from tp + fn; a division error exactly when the asserts pass and positives or negatives are 0; otherwise tn = negatives - fp, tpr + fnr = 1, fpr + tnr = 1 and every rate lies in [0, 1] |
| Confusion.OutcomeMeaning | scripts/confusion.py:103-127 | each error is raised exactly under its condition (the failed asserts, then a zero denominator); a returned matrix carries the given counts with fp + tn = negatives, the true and false rates of each class sum to 1, and every rate lies in [0, 1] |
| Confusion.TruePositivesDistinct | scripts/confusion.py:93-97 | for pairs without repeats, tp is the number of predicted pairs in the ground set |
| Confusion.PositivesSplit | scripts/confusion.py:99-115 | with a pair-set ground truth and distinct predictions, tp + fn equals the number of ground pairs, so that assertion always holds |
| Confusion.NegativesCoverFalsePositives | scripts/confusion.py:103-111 | when all pairs are sorted pairs of distinct proteins of the universe, fp is at most the number of negatives, so `tn >= 0` holds |
| Confusion.NegativesCount | scripts/confusion.py:103-107 | the sorted pairs of distinct proteins outside the ground truth number n(n-1)/2 minus the ground pairs |
| Confusion.LineGroundFindsNothing | scripts/confusion.py:139-141 | with a pairs-format ground truth (token lists), no predicted tuple is ever found: tp is 0 and every line counts as fn |
| Confusion.FourProteinExample | scripts/confusion.py:55-127 | ground {(A,B),(B,C)}, universe {A,B,C,D} and prediction {(A,B)} give tpr 0.5, fpr 0, fnr 0.5, tnr 1 |
| Confusion.LoadGround | scripts/confusion.py:129-144 | pairs format exactly when every line has two tokens, otherwise the cluster pairs of the lines; the proteins are all tokens either way |
| Confusion.LoadClustering | scripts/confusion.py:160-186 | text starting with '{' is decoded and passed to `build_pairs`; otherwise the token sets of the `\n`-separated lines, kept as pairs when every set has two members, else their cluster pairs |
| Confusion.SetClusterPairs | scripts/confusion.py:186 | clusters taken from sets, in any order, give exactly the pairs of distinct members of each set |
| Mips.UpperChar | scripts/mips.py:12 | a lower-case ASCII letter maps to its upper case; every other character, non-ASCII letters included, is left as it is (an ASCII-only `upper`) |
| Mips.RemapProtein | scripts/mips.py:11-12 | the name with its ASCII letters upper-cased character by character, same length |
| Mips.RemapProteinIdempotent | scripts/mips.py:11-12 | an upper-cased name has no lower-case letter left, and upper-casing it again changes nothing |
| Mips.EndpointsMembers | scripts/mips.py:18-21 | the proteins are exactly the upper-cased first two tokens of the lines |
| Mips.LoadProteins | scripts/mips.py:15-22 | fails exactly when some line does not have three tokens; otherwise returns the upper-cased endpoints |
| Mips.Entries | scripts/mips.py:29-31 | each line gives its complex (token 1) and upper-cased protein (token 0) |
| Mips.LoadMips | scripts/mips.py:25-35 | fails exactly when some line has no `|`; otherwise maps each complex to the set of its proteins |
| Mips.FilterComplexes | scripts/mips.py:46-52 | each kept complex is a non-empty subset of its original within the proteins; a complex is dropped exactly when it shares no protein |
| Mips.BuildPairs | scripts/mips.py:55-61 | the pairs are exactly the sorted pairs of distinct proteins of each complex |
| Mips.FilteredPairsShrink | scripts/mips.py:46-61 | filtering only removes pairs and leaves only pairs of known proteins |
| Krogan.BuildClusters | scripts/krogan_ground_truth.py:17-29 | the clusters are the complex sets in insertion order, sorted largest first, as a permutation in which sets of equal size keep their insertion order |
| Krogan.AddIds | scripts/krogan_ground_truth.py:21-28 | the inner loop adds one row's ids to the dict, in its key order |
| Krogan.IdsShape | scripts/krogan_ground_truth.py:20-23 | a complex id taken from an annotation is never `NOVEL`, has no leading or trailing whitespace and contains no comma |
| Krogan.TaggedMembers | scripts/krogan_ground_truth.py:20-24 | one row contributes (c, ORF) for exactly the stripped pieces c of its annotation other than `NOVEL` |
| Krogan.ContributionsMembers | scripts/krogan_ground_truth.py:19-28 | (c, x) is contributed exactly when some row with ORF x lists c among its ids |
| Krogan.ClusterMembers | scripts/krogan_ground_truth.py:19-28 | `NOVEL` has no cluster; the cluster of an id holds exactly the ORFs of the rows that list it |
| Krogan.EmptyAnnotationId | scripts/krogan_ground_truth.py:20-23 | an empty annotation gives the id "", which is kept |
| Krogan.WriteClusters | scripts/krogan_ground_truth.py:37-42 | one line per cluster, each protein once and followed by a space |
| Krogan.ClusterLineReadsBack | scripts/krogan_ground_truth.py:38-42 | splitting a written line gives back its proteins |
| Mcl.NonEmptySetsMembers | scripts/mcl.py:35-39 | a cluster is read exactly when some line holds exactly its tokens, at least one |
| Mcl.BuildClusters | scripts/mcl.py:30-39 | the loop gives the token sets of the non-empty lines, in order |
| Mcl.GetCenters | scripts/mcl.py:42-53 | the centres are the first tokens of the three-token lines whose first two tokens are equal |
| Mcl.PairLineCenter | scripts/mcl.py:47-52 | a line `u v score` names the centre u exactly when u == v; a two-token line names none |
| Mcl.FirstIn | scripts/mcl.py:66-70 | a cluster's centre is a centre in the cluster, None exactly when no centre belongs to it |
| Mcl.FirstInAt | scripts/mcl.py:67-70 | the centre is the first one, in iteration order, that belongs to the cluster |
| Mcl.AllRecordsMembers | scripts/mcl.py:65-72 | one record per vertex of each cluster, carrying the centre of that cluster |
| Mcl.ClusterRecordsMembers | scripts/mcl.py:71-72 | a cluster's records are exactly its vertices, each with the cluster's centre |
| Mcl.BuildResult | scripts/mcl.py:56-77 | the document holds the date, the tags (`mcl`, the inflation, the graph path), `num clusters` equal to the number of clusters, and the records of all clusters |
| Mcl.CentrelessClustersMerge | scripts/mcl.py:66-72 | two clusters without centre both get centre None, and `build_pairs` then merges them into one |
| Types.EdgeDataFactory.constructor | core/types.hpp:24 | a new factory starts at index 0, with nothing handed out |
| Types.EdgeDataFactory.Build | core/types.hpp:26-28 | returns the probability with the current index, never handed out before, and moves to the next index |
| Types.ThreeBuilds | core/types.hpp:24-28 | a fresh factory hands out indices 0, 1 and 2 |
| EdgeListIo.UGraph.AddVertex | core/types.hpp:45-51 | the new vertex gets the next number and its data; edges are unchanged |
| EdgeListIo.UGraph.AddEdge | core/types.hpp:45-51 | the edge is appended with its data; vertices are unchanged |
| EdgeListIo.InternMeaning | core/io.cpp:3-20 | a known name keeps its id and adds nothing; a new name gets the next id, a vertex labelled with it and a map entry, so ids follow first appearance and the map stays consistent with the labels |
| EdgeListIo.GetOrAdd | core/io.cpp:3-20 | the id and new name map are those of interning the name; edges are unchanged |
| EdgeListIo.ReadTokensMeaning | core/io.cpp:44-55 | the line is read on exactly when its probability parses; then an added edge joins the vertices named by tokens 0 and 1, with probability token 2 (else 1.0) and the factory's next index, and no edge is added exactly when the unordered pair was seen before |
| EdgeListIo.RejectedProbability | core/io.cpp:44-47 | when `stof` rejects token 2 the reading stops with that token, after both endpoints were interned: no edge, dedup key or factory index is added |
| EdgeListIo.DoubledSeparatorThrows | core/io.cpp:42-47 | the line "u  v" splits into "u", "" and "v": it interns "u" and the empty name, then throws on "v" when `stof` rejects it |
| EdgeListIo.StoppedStays | core/io.cpp:39-57 | once `stof` has thrown, no later line is read |
| EdgeListIo.SwappedLineIgnored | core/io.cpp:44-55 | after a line `x y` that is read, a line `y x` changes no vertex and no edge, whether or not its probability throws: the first edge and probability win |
| EdgeListIo.ReadTokensKeeps | core/io.cpp:44-55 | one line keeps the reader's invariant and only appends vertices and edges |
| EdgeListIo.ReadLinesKeeps | core/io.cpp:39-57 | reading any lines keeps the invariant: consistent names, added edges numbered 0, 1, 2, … between existing vertices, with pairwise different unordered endpoints equal to the dedup set |
| EdgeListIo.SkippedLinesIgnored | core/io.cpp:40 | empty and `#` lines, wherever they are, make no difference to the result |
| EdgeListIo.ReadEdgeList | core/io.cpp:23-58 | a file that cannot be opened throws "File not found!" before any change; otherwise the graph becomes the result of reading the lines in order, and the call throws the `stof` error of the first rejected probability token, leaving the graph as the throw found it |
| EdgeListIo.ReadInto | core/io.cpp:40-56 | one line moves the graph, the name map, the dedup set and the factory index to what reading that line gives, and reports the token `stof` rejected, if any: comment and empty lines change nothing |
| EdgeListIo.ReadEdgeListResult | core/io.cpp:23-58 | reading, whether or not it throws, keeps the graph's vertices and edges as a prefix; the added edges join vertices, carry indices 0, 1, 2, … and have pairwise different unordered endpoints, so a self-loop is added once |
| ClusterVertices.ClusterVertex.constructor | core/cluster_vertex.hpp:10 | a fresh vertex has centre 0, is not a centre, and has probability -1, so it is uncovered |
| ClusterVertices.ClusterVertex.Center | core/cluster_vertex.hpp:16-19 | the centre when covered, else the logic error "The node is uncovered" |
| ClusterVertices.ClusterVertex.Probability | core/cluster_vertex.hpp:25-28 | the positive probability when covered, else the logic error |
| ClusterVertices.ClusterVertex.MakeCenter | core/cluster_vertex.hpp:30-35 | an uncovered vertex becomes its own centre with probability 1, hence covered |
| ClusterVertices.ClusterVertex.Cover | core/cluster_vertex.hpp:37-41 | a covered vertex throws and is unchanged; otherwise it gets the centre and probability, keeps its centre flag, and is covered exactly when the probability is positive |
| ClusterVertices.CoverOnce | core/cluster_vertex.hpp:37-41 | covering twice fails the second time, and the first centre stays |
| CountsCache.NewElement | core/counts_cache.hpp:20-21 | a new element is never accessed, has no samples, and has n zero counts |
| CountsCache.ConnectionCountsCache.constructor | core/counts_cache.hpp:31-33 | an empty cache with the given maximum size |
| CountsCache.ConnectionCountsCache.Size | core/counts_cache.hpp:60-62 | the number of cached vertices |
| CountsCache.ConnectionCountsCache.Get | core/counts_cache.hpp:39-43 | a missing vertex throws and changes nothing; a cached one has its access count raised by exactly one and is returned |
| CountsCache.ConnectionCountsCache.AddNew | core/counts_cache.hpp:45-49 | a cached vertex throws and changes nothing; otherwise a new element is added |
| CountsCache.ConnectionCountsCache.GetOrNew | core/counts_cache.hpp:51-58 | afterwards the vertex is cached; a known one is accessed once more, a new one starts with one access |
| CountsCache.ResetBelow | core/counts_cache.hpp:79-83 | the entries reset are exactly the cached, covered, non-centre vertices below the bound; every other entry is unchanged |
| CountsCache.ConnectionCountsCache.UncoveredNode | core/counts_cache.hpp:73-87 | the smallest cached uncovered vertex, or -1; the covered non-centres scanned before it get access count 0, and nothing else changes |
| CountsCache.ConnectionCountsCache.LeastAccessed | core/counts_cache.hpp:92-99 | the scan finds a cached vertex with the smallest access count |
| CountsCache.ConnectionCountsCache.Cleanup | core/counts_cache.hpp:89-104 | the cache ends at most at its maximum size (unchanged when already within it); survivors are unchanged, and each evicted entry was accessed no more often than any survivor |
| FixedQueue.FixedCapacityQueue.constructor | core/bfs_sampler.hpp:15-17 | a new queue is empty |
| FixedQueue.FixedCapacityQueue.ContentsBound | core/bfs_sampler.hpp:26-30 | the queue holds the slots from begin to end, at most capacity - 1 elements |
| FixedQueue.FixedCapacityQueue.Empty | core/bfs_sampler.hpp:19 | empty exactly when nothing is queued |
| FixedQueue.FixedCapacityQueue.Clear | core/bfs_sampler.hpp:21-24 | both ends go to 0 and the queue is empty |
| FixedQueue.FixedCapacityQueue.Push | core/bfs_sampler.hpp:26-33 | succeeds exactly when fewer than capacity - 1 elements are queued; then the element joins the back and end advances modulo capacity; otherwise nothing changes |
| FixedQueue.FixedCapacityQueue.Pop | core/bfs_sampler.hpp:35-40 | a non-empty queue gives its oldest element and begin advances modulo capacity |
| FixedQueue.WindowPush | core/bfs_sampler.hpp:26-33 | writing the end slot and advancing end modulo capacity appends the element to the queued window |
| FixedQueue.WindowPop | core/bfs_sampler.hpp:35-40 | the begin slot holds the oldest element, and advancing begin modulo capacity drops exactly that one |
| FixedQueue.FirstInFirstOut | core/bfs_sampler.hpp:26-40 | two pushes then two pops return the elements in push order |
| Bfs.ResetDistances | core/bfs_sampler.cpp:21-22 | every distance is infinite except the root's, which is 0 |
| Bfs.Start | core/bfs_sampler.cpp:19-22 | clearing and pushing the root succeeds exactly when the capacity is at least 2, and starts the search |
| Bfs.Relax | core/bfs_sampler.cpp:30-36 | the target is queued exactly when the edge is sampled and v's distance + 1 is smaller than the target's; then the target's distance becomes v's + 1 and no other distance changes, otherwise nothing changes; the queue cannot overflow when the capacity is at least the number of vertices |
| Bfs.Lower | core/bfs_sampler.cpp:32-36 | lowering an unreached target: its distance becomes v's + 1, every other distance is unchanged, it leaves the unreached set and is appended to the queue |
| Bfs.Expand | core/bfs_sampler.cpp:27-39 | when v's distance + 1 exceeds the limit no distance and no queue entry changes; otherwise its out-edges are relaxed, keeping the search invariant and only removing vertices from the unreached ones |
| Bfs.Visit | core/bfs_sampler.cpp:24-39 | one pop and its relaxations keep the search invariant and make progress |
| Bfs.RelaxEdges | core/bfs_sampler.cpp:29-38 | relaxing every out-edge of v keeps the search invariant and settles each sampled edge of v; the queue becomes the old queue followed by the pushed vertices, which are exactly those removed from the unreached ones, each now at v's distance + 1, while every other distance is unchanged; no overflow when the capacity is at least the number of vertices |
| Bfs.Drain | core/bfs_sampler.cpp:24-40 | the while loop empties the queue while keeping the search invariant, and cannot overflow when the capacity is at least the number of vertices |
| Bfs.ClosedBounds | core/bfs_sampler.cpp:24-40 | when the search is closed, every sampled path from the root of length within the limit bounds its end's distance |
| Bfs.QueueRoom | core/bfs_sampler.cpp:33-35 | with each vertex queued at most once and two vertices not in the queue, there is room for a push |
| Bfs.SearchDone | core/bfs_sampler.cpp:24-40 | an empty queue means each finite distance is within the limit and is the length of a sampled walk, and every vertex within the limit has a finite distance no larger than its shortest sampled path |
| Bfs.Bfs | core/bfs_sampler.cpp:13-42 | with a queue of capacity 1 the root's push fails; with capacity at least 2 and at least the number of vertices it succeeds, the root is at 0, and the distances are exactly the shortest sampled-path lengths within the limit, infinite elsewhere |
| Bfs.ThreadStateBfs | core/bfs_sampler.hpp:54-58 | with the thread state's queue of one slot per vertex, the search succeeds exactly when the graph has at least two vertices |
| Bfs.RoomyBfs | core/bfs_sampler.cpp:13-42 | with one more slot than vertices, the search succeeds on every graph and the distances are exactly the shortest sampled-path lengths within the limit |
| Components.Dfs | core/connected_components.cpp:3-29 | the root gets the id, every other labelled entry keeps its label, and each vertex newly labelled is reached from the root along sampled edges through vertices unlabelled before the call |
| Components.ScanEdges | core/connected_components.cpp:19-27 | each sampled edge to an unlabelled vertex labels and stacks it |
| Components.DfsReaches | core/connected_components.cpp:11-28 | every sampled path from the root through unlabelled vertices ends at a vertex labelled with the id |
| Components.LabelAlongPath | core/connected_components.cpp:3-48 | in a labelling closed under sampled edges, a path keeps its label |
| Components.LabellingDfs | core/connected_components.cpp:43-47 | a `dfs` from the next unlabelled vertex extends the labelling by one component |
| Components.LabellingDone | core/connected_components.cpp:31-48 | at the end every vertex has a label below the number of components, each component's root carries its index, and two vertices share a label exactly when they are connected |
| Components.ClearComponents | core/connected_components.cpp:39-41 | every entry becomes -1 |
| Components.LabelComponents | core/connected_components.cpp:42-47 | from all -1, the loop over vertices labels every vertex with the index of a root connected to it, roots increasing and each root the smallest vertex of its label, and no sampled edge joins two labels |
| Components.ConnectedComponents | core/connected_components.cpp:31-48 | every entry ends in 0..k-1; the components are numbered in the order of their smallest vertex; two vertices share a label exactly when a sampled path connects them |
| ConnectionMap.Key | core/concurrent_clustering.hpp:17 | the key is the pair, smaller vertex first |
| ConnectionMap.KeySymmetric | core/concurrent_clustering.hpp:17 | both orders share one key, and two pairs share a key exactly when they are the same unordered pair |
| ConnectionMap.PairwiseProbConn.constructor | core/concurrent_clustering.hpp:10-11 | an empty map |
| ConnectionMap.PairwiseProbConn.Put | core/concurrent_clustering.hpp:13-19 | writes p under the pair's key, whatever the order of u and v |
| ConnectionMap.PairwiseProbConn.Get | core/concurrent_clustering.hpp:21-26 | a stored pair gives its value and nothing changes; an absent pair is inserted with 0.0, which is returned |
| ConnectionMap.PairwiseProbConn.Contains | core/concurrent_clustering.hpp:28-33 | holds exactly when the pair is stored in either order |
| ConnectionMap.PutThenGet | core/concurrent_clustering.hpp:13-26 | after `put(u, v, p)` both `get(u, v)` and `get(v, u)` give p |
| ConnectionMap.GetInserts | core/concurrent_clustering.hpp:21-33 | a `get` on an empty map returns 0.0, and the pair is then contained |
| ConnectionMap.MarkNeighbours | core/concurrent_clustering.hpp:47-55 | every unflagged neighbour gets flagged and stacked |
| ConnectionMap.MarkReachable | core/concurrent_clustering.hpp:36-57 | the root gets flagged, no flag is cleared, and every newly flagged vertex is reached from the root through vertices unflagged before the call and has all its neighbours flagged |
| ConnectionMap.MarkReaches | core/concurrent_clustering.hpp:44-55 | every path from the root through previously unflagged vertices ends flagged |
| ConnectionMap.MarkKeepsClosed | core/concurrent_clustering.hpp:48-53 | flags closed under adjacency before the call are closed after it |
| Reporter.ExperimentReporter.constructor | core/experiment_reporter.hpp:27 | no tags and no tables |
| Reporter.ExperimentReporter.Tag | core/experiment_reporter.hpp:35-37 | sets or overwrites one tag, and nothing else |
| Reporter.AdmitExactly | core/experiment_reporter.hpp:39-58 | the two checks accept a row exactly when its table is new or it has the column names of the first row |
| Reporter.AdmitKeepsSchema | core/experiment_reporter.hpp:39-60 | an admitted row keeps every row of its table with the first row's column names |
| Reporter.ExperimentReporter.Append | core/experiment_reporter.hpp:39-60 | a new table starts with the row; an existing one takes it at the end only if its column count and names match the first row, otherwise the runtime error leaves all tables unchanged; the tags are untouched |
| Reporter.AppendTwice | core/experiment_reporter.hpp:39-60 | a second row is accepted after the first exactly when it has the same columns |
| Rand.Splitmix64.constructor | core/rand.hpp:14 | the state is the seed |
| Rand.Splitmix64.Next | core/rand.hpp:16-21 | the state advances by 0x9E3779B97F4A7C15 modulo 2^64 and the output is the mix of the new state |
| Rand.StateAfterClosedForm | core/rand.hpp:17 | after k calls the state is seed + k·0x9E3779B97F4A7C15 modulo 2^64 |
| Rand.Xorshift1024star.constructor | core/rand.hpp:36-41 | p is 0 and word j is the (j+1)-th output of Splitmix64 seeded with the seed |
| Rand.Xorshift1024star.State | core/rand.hpp:43-49 | a copy of the sixteen words, with the generator unchanged |
| Rand.Step | core/rand.hpp:51-57 | the position advances by one modulo 16, only the word at the new position changes, and it becomes the update of the old and new words |
| Rand.WrapIsRemainder | core/rand.hpp:53 | `& 15` on a sum below 32 is the remainder modulo 16 |
| Rand.Xorshift1024star.Next | core/rand.hpp:51-57 | the generator takes one step of the xorshift update and returns the new word times 1181783497276652981 modulo 2^64 |
| Rand.Xorshift1024star.XorInto | core/rand.hpp:92-93 | t[j] is xored with the word at position (j + p) & 15 |
| Rand.JumpBitAt | core/rand.hpp:89-91 | bit 64·i + b of the jump polynomial is bit b of `JUMP[i]` |
| Rand.AccumulatePosition | core/rand.hpp:89-95 | after n calls to `next` the position has moved by n modulo 16 |
| Rand.JumpPosition | core/rand.hpp:88-98 | the jump's 1024 calls bring p back where it started |
| Rand.PlaceLands | core/rand.hpp:97-98 | the write-back puts t[j] at position (j + p) & 15 |
| Rand.Xorshift1024star.WriteBack | core/rand.hpp:97-98 | the words become t placed from position p on |
| Rand.Xorshift1024star.Jump | core/rand.hpp:79-99 | the generator becomes the jump of the old generator, accumulated over the 1024 bits of the jump polynomial, and p is unchanged |
| Text.SplitPiecesHaveNoSeparator | core/io.cpp:42 | no piece of a split contains a separator |
| Text.SplitCount | core/io.cpp:42 | n separator characters give n + 1 pieces: empty pieces are kept |
| Text.JoinSplit | scripts/mcl.py:35 | joining the pieces of `split(sep)` with sep gives back the text |
| Text.StripIdempotent | scripts/krogan_ground_truth.py:22 | stripping twice is stripping once |
| Text.StripInfix | scripts/krogan_ground_truth.py:22 | the stripped id is a contiguous part of the piece, and all that is cut off before and after it is whitespace |
| Common.CanonProperties | scripts/result2pairs.py:37 | `tuple(sorted([u, v]))` has the smaller string first, holds u and v, and does not depend on their order |
| Common.CombinationsMembers | scripts/result2pairs.py:36 | `combinations(s, 2)` lists exactly the pairs of elements at positions a < b |
| Common.CombinationsLength | scripts/confusion.py:32-33 | a sequence of k elements has k(k-1)/2 combinations |
| Common.SetPairsCard | scripts/confusion.py:104 | n distinct proteins have n(n-1)/2 sorted pairs of distinct members |
| Common.Enumerate | scripts/mips.py:57 | iterating a set visits every member exactly once |
| Common.SortDescCorrect | scripts/krogan_ground_truth.py:29 | `sorted(..., key=len, reverse=True)` gives a permutation, largest first |
| Common.SortDescStable | scripts/krogan_ground_truth.py:29 | the sort is stable, as Python's `sorted` is: the elements of each size keep their input order |

## Left out

- Python's and C++'s I/O is not modelled. That covers opening, reading and writing files, gzip/bz2/JSON/XML decoding, `subprocess` calls, logging and printing. A file is given as its text or lines, a decoded JSON document as a value, and program output as a string.
- The floating-point parsers (`float`, `std::stof`, `json.loads` numbers) are parameters; reals stand for doubles, so rounding is not modelled. The `stof` parameter returns None for a token it would throw on (`std::invalid_argument` or `std::out_of_range`); which tokens those are is left to the parameter.
- `compute_probability` in the DBLP builder uses `e**` and is a parameter (its text form is given to `Dblp.WriteStream`).
- Timing and dates are left out. That covers the elapsed-time report of `Counter.inc`, the date of `ExperimentReporter` and the date of the MCL result, which is a parameter.
- `ExperimentReporter::save` and `get_instance` are left out: JSON and compression output, and a process-wide singleton.
- `Xorshift1024star::next_double` is left out: it reinterprets bits as a double.
- `operator<<` of the generators and of the BFS thread state is left out: it only prints.
- Rand: `uint64_t` is an integer modulo 2^64. Xor is defined bit by bit; shifts multiply or divide by powers of two read from a table. `& 15` is modelled as `Rand.Wrap`, which is valid for the sums below 32 that occur. `p`, an `int` in the source, is a natural below 16.
- Rand.Xorshift1024star.Jump: the bit test `JUMP[i] & 1ULL << b` is the predicate `Rand.Bit`. The result is stated as equal to a specification function. The 2^512-step equivalence the authors cite is not proved.
- `random.choice` in pKwik and the iteration order of Python sets and dicts and of `unordered_map` are arbitrary choices (`:|` or `Common.Enumerate`). Each contract holds for every order.
- CountsCache.ConnectionCountsCache.Cleanup: requires access counts below `SIZE_MAX`. An entry at `SIZE_MAX` would never be chosen by the strict `<` scan, and the source's `erase(-1)` would then loop; that wrap-around is not modelled.
- CountsCache.ConnectionCountsCache.Get: returns the element by value; the reference the source returns, and writes through it, are not modelled.
- Components.ConnectedComponents: requires an undirected graph, as `ugraph_t` (`undirectedS`) is. The caller's scratch `stack` vector is a local sequence.
- Mips.UpperChar, Mips.RemapProtein: the case mapping covers ASCII letters only; Python's `str.upper()` also upper-cases other letters ('é' becomes 'É') and can lengthen a string ('ß' becomes 'SS'), so for names outside ASCII the model keeps those characters and the length-preserving contract does not describe Python.
- ConnectionMap.MarkReachable: the stack passed by value is a local sequence, so the caller's stack is trivially unchanged.
- EdgeListIo.ReadEdgeList: requires every line that is not skipped to split into at least two tokens. On a line without a separator the source reads `tokens[1]` out of range, which is undefined behaviour. Two adjacent separators, or a separator at the end of the line, give an empty token. In the first two positions it becomes a vertex named by the empty string. In the third position it is handed to `stof`, which throws on it, as it does on a line such as "u  v" whose third token is not a number.
- EdgeListIo.ReadEdgeList: `ugraph_t` is modelled as its vertex labels and its edge list in insertion order. The out-edge view used by the traversals is `Graphs.Graph`, and the conversion between the two is not modelled.
- Bfs.Bfs: `max_dist` is at most `SIZE_MAX`, which the source's `size_t` guarantees. Overflow of `v_dist + 1` cannot happen on a finite distance.
- Bfs.Start: the queue is cleared before the root is pushed, as in the source. Other threads sharing the state (OpenMP) are not modelled.
- The samplers, the clustering drivers and the other programs of the repository are not part of this model. That covers `CCSampler`, `BfsSampler` sampling, the MCPC/ACPC and sequential or concurrent clustering, GMM, the scores and the command-line entry points. They rely on Monte-Carlo double estimates, OpenMP and APIs that are not in the repository.
- `select_centers`, `concurrent_cluster` and `shrink_clustering` of core/concurrent_clustering.hpp are not part of this model: they are sampler-driven.
- `print_stats` in scripts/mips.py is left out: numpy statistics that are only printed.
- The `main` and `__main__` drivers of the scripts are left out, apart from pKwik's largest-first printing, which `PKwik.PrintedClusters` models.

## Findings

| source | as written | input that shows it | evidently intended | confidence | as-written member | corrected member |
|---|---|---|---|---|---|---|
| core/bfs_sampler.hpp:55 | the thread state's BFS queue has one slot per vertex, but the ring buffer keeps one slot free (core/bfs_sampler.hpp:27-30), so it holds at most n - 1 vertices | a graph with a single vertex: `bfs` pushes the root into a queue of capacity 1, and `push` throws "Queue capacity exceeded" | a search that succeeds on every graph (a queue of n + 1 slots) | not executed | Bfs.ThreadStateBfs | Bfs.RoomyBfs |
