# Dual embedding: a Dafny model

This project models the core of `dual-embedding`, a C++ library that learns
node embeddings of a graph with hinge-loss solvers. Each node's embedding is
trained from its positive neighbours (edges of the graph) and its negative
neighbours (edges of a sampled negative graph). A dual coordinate-descent
solver finds one coefficient per example, and the embedding becomes a
coefficient-weighted sum of the neighbours' embeddings. Around that sit
several training schemes:

- finite
- contrastive
- directed in/out, plain and contrastive
- kernel
- single-pass sequential
- sparse-support
- label propagation

They are supported by:

- graph, directed-graph and label containers;
- the swap permutation, prefix-sum sampler and ranking metrics;
- the negative-graph samplers;
- one-vs-one classification and link-prediction evaluation;
- the dataset reader;
- the common-neighbour and Adamic–Adar baselines.

How the source is represented:

- `double` is Dafny `real`.
- Every random draw is an explicit input sequence with a range precondition. Each epoch's node order comes from the modelled `RandomPermutation` applied to such draws.
- The solver overloads whose bodies are not shown are opaque function parameters that only have to keep the shapes of their arguments.
- `pow`, `sqrt` and `log` are function parameters.

One module per source file:

| file | module |
|---|---|
| base.h | `Graphs` |
| utility.cpp | `Sampling` and `Ranking` |
| svm.cpp | `LinearSolver` |
| svm.h | `Solvers` (the opaque overloads) |
| finite.cpp | `Finite` |
| the contrast-table construction shared by finite_contrast.cpp and directed_finite_contrast.cpp | `Contrast` |
| finite_contrast.cpp | `FiniteContrast` |
| the state shared by the two directed models | `Directed` |
| directed_finite.cpp | `DirectedFinite` |
| directed_finite_contrast.cpp | `DirectedFiniteContrast` |
| kernel.cpp | `Kernel` |
| sequential-finite.cpp | `SequentialFinite` |
| sparse.cpp | `Sparse` |
| label_propagation.cpp | `LabelPropagation` |
| negative_sample.cpp | `NegativeSample` |
| evaluate.cpp | `Evaluate` |
| read_dataset.cpp | `ReadDataset` |
| common_neighbor.cpp and baseline.cpp | `Baselines` |

`Seqs` and `Vectors` hold shared sequence and vector helpers.

## Model

| member | source | states |
|---|---|---|
| Graphs.EmptyGraph | base.h:15 | The default graph has no nodes and no adjacency entries, and is valid and symmetric. |
| Graphs.NewGraph | base.h:16-18 | `Graph(n)` has exactly n empty adjacency lists. |
| Graphs.AddEdge | base.h:19-22 | Adds one occurrence of y to x's list and one occurrence of x to y's list; all other lists are unchanged. |
| Graphs.AddEdgeKeepsValid | base.h:19-22 | With in-range endpoints, every adjacency entry stays a node of the graph. |
| Graphs.AddEdgeKeepsSymmetric | base.h:19-22 | Preserves symmetry: the count of b in edge[a] equals the count of a in edge[b]. |
| Graphs.AddEdgeEntries | base.h:19-22 | The total adjacency length grows by exactly 2. A self-loop adds x to its own list twice. |
| Graphs.SymmetricMembership | base.h:19-22 | In a symmetric graph, b is in edge[a] exactly when a is in edge[b]. |
| Graphs.NewDGraph | base.h:29-32 | `DGraph(n)` has n empty out-lists and n empty in-lists. |
| Graphs.AddDEdge | base.h:33-36 | Appends y to out_edge[x] and x to in_edge[y], and nothing else. |
| Graphs.AddDEdgeKeepsConsistent | base.h:33-36 | The count of y in out_edge[x] stays equal to the count of x in in_edge[y], so Σ\|out_edge\| = Σ\|in_edge\|; the out total grows by one. |
| Graphs.NewSingleLabel | base.h:47 | `SingleLabel(n)` labels every node -1. |
| Graphs.SetSingleLabel | base.h:48-50 | Sets x's label to l and leaves every other label alone. |
| Graphs.NewLabel | base.h:58 | `Label(n)`: n unlabelled flags and no classes. |
| Graphs.SetLabel | base.h:59-66 | Grows the class lists to l+1 when needed, appends x to class l, leaves the other classes unchanged and flags x as labelled. Once card tracks the class count, it keeps tracking it. |
| Sampling.RandomPermutation | utility.cpp:10-16 | For draws in [0, n), the swap loop returns a rearrangement of its input: same length and same multiset. |
| Sampling.PermuteOrder | utility.cpp:10-16 | Applied to an order of the nodes 0..n-1, the swap loop returns another such order. |
| Sampling.Shuffle | utility.cpp:10-16 | The swap loop as a function of its draws: the result has the input's length and the same multiset. |
| Sampling.Orders | finite.cpp:61-68 | One order per epoch, each of length n and over the nodes 0..n−1; epoch e shuffles the order of epoch e − 1, and the first shuffles the identity order. |
| Sampling.OrdersAreOrders | finite.cpp:61-68 | Every epoch's order is a permutation of 0..n−1. |
| Sampling.OrdersVisitEach | finite.cpp:64-68 | Visiting the epochs' orders one after another visits every node exactly once per epoch and nothing else. |
| Sampling.NextOrder | finite.cpp:65 | `RandomPermutation(&order)` on the previous epoch's order yields the next epoch's order, which is again a permutation of the nodes. |
| Sampling.VisitOrder | finite.cpp:64-68 | Visiting one more order adds exactly one visit to every node. |
| Sampling.PropSampler | utility.cpp:74-80 | `ps[k]` is the sum of x[0..k]; with non-negative weights, ps is non-negative and non-decreasing. |
| Sampling.RunningSumsGrow | utility.cpp:74-80 | Running sums of non-negative weights, ps[0] = x[0] and ps[j] = ps[j−1] + x[j], are themselves non-negative and non-decreasing. |
| Sampling.LowerBound | utility.cpp:85 | Returns the first index whose entry is at least val, or \|ps\| if there is none. |
| Sampling.GetSample | utility.cpp:82-86 | Returns the first k with ps[k] >= ps.back()·u. A non-negative total and u in [0, 1) keep k below \|ps\|. |
| Sampling.PropSample | utility.cpp:88-100 | Returns an index of x when x is non-empty, and 0 otherwise. |
| Sampling.ScanBrackets | utility.cpp:94-98 | The subtracting scan stops at the index whose prefix-sum bracket holds the target. |
| Sampling.PropSampleBrackets | utility.cpp:88-100 | With non-negative weights and a positive total, `prop_sample` never falls back. It returns the index whose bracket holds u·total, and that index has positive weight. |
| Ranking.SortBySorted | utility.cpp:26 | The insertion sort standing for `std::sort` returns a sorted sequence. |
| Ranking.SortByPermutes | utility.cpp:26 | The sort rearranges its input: same multiset. |
| Ranking.SortByCount | utility.cpp:26 | Sorting keeps the number of entries that have any given property. |
| Ranking.Tagged | utility.cpp:47-51 | The pairs (-score, ±1) hold one pair per score, and exactly \|positive\| of them are tagged positive. |
| Ranking.F1FromCounts | utility.cpp:39-43 | F1 from a cutoff's counts lies in [0, 1]. It is positive only if some positive passes the cutoff, and it is 1 when exactly the positives pass. |
| Ranking.CutoffIsAScore | utility.cpp:27-30 | The cutoff is one of the scores. |
| Ranking.CutoffScanIsFirst | utility.cpp:27-30 | Whatever the order of the scores, the downward loop ends on the value at the lowest index of its range that clears the minimum by eps, or keeps its start value if none does. |
| Ranking.CutoffMatchesSpec | utility.cpp:27-30 | The downward scan ends on the lowest score at or above the top \|positive\| positions that exceeds the minimum by eps, or on the minimum if there is none. |
| Ranking.InRangeNotEmpty | utility.cpp:32-39 | At least one score reaches the cutoff minus eps, so the precision never divides by zero. |
| Ranking.EvaluateF1 | utility.cpp:18-44 | Returns 0 when there is no positive score; the result always lies in [0, 1]. |
| Ranking.EvaluateF1IsF1OfCutoff | utility.cpp:18-44 | EvaluateF1 is the F1 measure of the scores at or above that cutoff minus eps, over the ascending sort of all scores. |
| Ranking.F1Example | utility_test.cpp:5-10 | Positives {2, 3} and negatives {0, 1, 2} give F1 = 0.8 exactly. |
| Ranking.EvaluateAveragePrecision | utility.cpp:46-72 | Defined exactly when there is a positive score. |
| Ranking.ApScanInvariant | utility.cpp:55-69 | Through the scan, the closed groups and the open group hold every positive. The accumulated precision never exceeds the closed positives' share. |
| Ranking.AveragePrecisionBetween | utility.cpp:46-72 | Average precision lies in [0, 1]. |
| Ranking.AveragePrecisionExample | utility_test.cpp:12-17 | Positives {2, 3} and negatives {0, 1, 2} give 5/6 (≈ 0.83): the tied scores 2 form one group. |
| LinearSolver.WarmStart | svm.cpp:13-17 | The warm start sums label·coeff·feature over the positive coefficients. For a non-negative start it equals the primal vector Σ label[i]·coeff[i]·feature[i]. |
| LinearSolver.Curvature | svm.cpp:18-21 | Q[i] is the squared norm of feature i, so it is non-negative. |
| LinearSolver.ProjectedGradient | svm.cpp:31-35 | PG equals G strictly inside the box. PG is zero exactly when G is zero, or G > 0 at the lower bound, or G < 0 at the upper bound. |
| LinearSolver.Step | svm.cpp:29-41 | One coordinate step changes only coeff[i]. It changes nothing when PG = 0. Otherwise it sets coeff[i] to the clamp of coeff[i] − G/Q[i] into [0, U_i], and w follows. It keeps coeff[i] in [0, U_i]. |
| LinearSolver.UpdateKeepsPrimal | svm.cpp:39-40 | Adding (new − old)·label·feature to w keeps w equal to the primal vector of the updated coefficients. |
| LinearSolver.StepKeepsPrimal | svm.cpp:36-41 | A step preserves w = Σ label·coeff·feature. |
| LinearSolver.NewCoefficientMinimizes | svm.cpp:38 | For any non-negative curvature, the clamped coefficient minimises the dual objective along the coordinate over [0, U]. |
| LinearSolver.ZeroProjectedGradientIsOptimal | svm.cpp:31-36 | A zero projected gradient means the coefficient already minimises along its coordinate, so skipping the step loses nothing. |
| LinearSolver.UpdateDualChange | svm.cpp:36-41 | Moving one coefficient changes the dual objective ½\|w\|² − Σ coeff by exactly the one-dimensional quadratic along that coordinate. |
| LinearSolver.StepDecreasesDual | svm.cpp:29-41 | Starting inside the box, a step never increases the dual objective. |
| LinearSolver.Pass | svm.cpp:28-42 | A pass of coordinate steps keeps the coefficient count and the length of w. |
| LinearSolver.PassKeepsPrimal | svm.cpp:28-42 | A pass over any order preserves w = Σ label·coeff·feature. |
| LinearSolver.PassKeepsBox | svm.cpp:28-42 | A pass keeps every coefficient in its box. |
| LinearSolver.PassDecreasesDual | svm.cpp:28-42 | A pass from inside the box never increases the dual objective. |
| LinearSolver.PassesKeepInvariants | svm.cpp:26-43 | Any number of passes keep w primal and the coefficients boxed, and do not increase the dual objective. |
| LinearSolver.RunPass | svm.cpp:28-42 | The loop over an order computes the pass. |
| LinearSolver.LinearSVM | svm.cpp:10-44 | Requires a first feature. Runs exactly LINEAR_EPOCHS = 2 passes, each over a permutation of all indices, from the warm start. It returns w primal for a non-negative start, keeps the box, and does not increase the dual objective. |
| LinearSolver.RunPasses | svm.cpp:26-43 | The LINEAR_EPOCHS loop: its orders are the successive shuffles of the index order, and its state is the fold of Pass over them. |
| LinearSolver.Solve | svm.cpp:10-44 | The guarded solver as a function of the problem, the start coefficients and the draws. It keeps the coefficient count and returns a w of length dim; with no examples, it returns the coefficients unchanged and a zero w. |
| LinearSolver.SolveKeepsInvariants | svm.cpp:26-43 | Solve keeps the box and never raises the dual objective. From a non-empty, non-negative start it leaves w equal to the primal vector of the coefficients it returns. |
| LinearSolver.GuardedLinearSVM | svm.cpp:10-44 | The solver with an empty example list handled. Its result is exactly Solve: with no examples the coefficients are unchanged and w is zero; otherwise it runs LinearSVM's two passes from the warm start. w stays primal, the box is kept and the dual does not increase. |
| LinearSolver.KernelSVM | svm.cpp:47-50 | The empty body returns the coefficients unchanged. |
| Finite.Examples | finite.cpp:27-36 | Node x's examples are its positive neighbours' embeddings (label +1), then its negative neighbours' (label −1); their count is \|edge[x]\| + \|negative.edge[x]\|. |
| Finite.ExamplesBox | finite.cpp:37 | The solver's box for node x, with penalties 1 and 0.25, is the model's box for coeff[x]. |
| Finite.Update | finite.cpp:26-44 | One update as a function. coeff[x] becomes Solve's result on x's examples from the old coeff[x]. embedding[x] becomes the unsigned combination Σ_j coeff[x][j]·feature_j. Every other node is unchanged, and the model stays fitted. |
| Finite.UpdateEmbedding | finite.cpp:26-44 | Equals Update: coeff[x] is the solver's result on x's examples, and embedding[x] = Σ_j coeff[x][j]·feature_j with no label factor. Only x changes, and a node without examples gets the zero embedding. The box is kept and x's dual objective does not increase. |
| Finite.UpdateBoxed | finite.cpp:37-43 | An update keeps every coefficient of the model in its box [0, C]. For a node that has coefficients, the solver's result does not raise that node's dual objective above where the old coefficients put it. |
| Finite.UnsignedCombination | finite.cpp:38-43 | Without negative examples, the written-back embedding is the solver's primal vector; the missing label factor matters only for negatives. |
| Finite.Initial | finite.cpp:46-59 | Embeddings of length dim, and \|edge[x]\| + \|negative.edge[x]\| zero coefficients per node. |
| Finite.Epoch | finite.cpp:66-67 | An epoch updates the nodes of its order one after another; the model stays fitted, and nodes outside the order keep their embedding and coefficients. |
| Finite.EpochStep | finite.cpp:66-67 | The epoch over the first t + 1 nodes of the order is Update of node order[t] applied to the epoch over the first t. |
| Finite.RunEpoch | finite.cpp:66-67 | The loop over an order computes Epoch. The model stays fitted, the box is kept, and unvisited nodes are unchanged. |
| Finite.EpochBoxed | finite.cpp:65-66 | A whole pass over an order keeps every coefficient in its box. |
| Finite.EpochsBoxed | finite.cpp:63-67 | Any number of epochs keeps every coefficient in its box. |
| Finite.RunEpochs | finite.cpp:60-67 | The ten-epoch loop. Its orders are the successive shuffles of the identity order, and its model is the fold of Epoch over them, still in its box. |
| Finite.Train | finite.cpp:46-69 | The model is the ten epochs applied to Initial, over the successive shuffles of the node order, and each epoch's order is a permutation of the nodes. So the visit log holds every node exactly 10 times, and each visit is an Update. Shape and box are kept. |
| Finite.EvaluateSymmetric | finite.cpp:71-73 | `Evaluate` is an inner product, so it is symmetric in x and y. |
| Finite.IsolatedNodeHasNoExamples | finite.cpp:26-37 | A node with no positive and no negative neighbour hands the solver an empty example list, which the unguarded solver cannot accept. |
| Contrast.NewTables | directed_finite_contrast.cpp:87 | Both tables start with one empty row per node. |
| Contrast.EdgeList | finite_contrast.cpp:72-75 | The negative edge list holds one pair per adjacency entry. |
| Contrast.EdgeListMembers | finite_contrast.cpp:72-75 | (x, y) is in the edge list exactly when y is in x's list. |
| Contrast.EdgeListWithin | finite_contrast.cpp:72-75 | Lists that name only nodes give pairs of nodes. |
| Contrast.Accept | finite_contrast.cpp:84-87 | An accepted draw pushes its entries and keeps the tables sized for the graph. |
| Contrast.AcceptSizes | finite_contrast.cpp:84-87 | An accepted draw adds 4 table entries when undirected, and 2 out-entries plus 2 in-entries when directed. |
| Contrast.SamplePair | finite_contrast.cpp:79-90 | The rejection loop for one positive edge: a rejected draw is skipped, and an accepted one pushes its entries. It stops once the count reaches the ratio. When it finishes it has consumed at least one draw and the tables stay sized. None stands for three cases: the finite draws run out, the ratio is already reached (the source loops forever), or the negative edge list is empty (the source reads out of range). |
| Contrast.SamplePairSizes | finite_contrast.cpp:79-90 | When the loop finishes, it has accepted exactly ratio − cnt draws' worth of entries. |
| Contrast.SamplePairTakes | finite_contrast.cpp:80-89 | Without rejections, one positive edge consumes exactly ratio − cnt draws. |
| Contrast.SamplePairUndefined | finite_contrast.cpp:76-89 | When the count has already reached the ratio (every ratio below 1), or the negative edge list is empty, the loop has no result: the model gives None for any draws. |
| Contrast.Build | finite_contrast.cpp:77-91 | The loop over all positive edges keeps the tables sized. |
| Contrast.BuildSizes | finite_contrast.cpp:77-91 | Each positive edge adds ratio accepted draws' worth of entries. |
| Contrast.BuildFinishes | finite_contrast.cpp:77-91 | With ratio >= 1, no rejections and ratio draws per edge, the construction finishes. |
| Contrast.Tabulate | finite_contrast.cpp:70-91 | The finished tables are sized for the graph. |
| Contrast.TabulateSizes | finite_contrast.cpp:77-91 | Σ\|table\| = 4·ratio·(number of positive edges); the directed tables split this evenly, Σ\|out_table\| = Σ\|in_table\|. |
| Contrast.PushOk | finite_contrast.cpp:84 | Pushing a sound entry keeps a row set sound. |
| Contrast.AcceptOk | finite_contrast.cpp:83-87 | The four entries of an accepted draw are sound. Their labels are ±1, {x, b} and {c, d} are disjoint, and a +1 entry pairs a positive edge with a negative one (−1 the reverse). |
| Contrast.SamplePairOk | finite_contrast.cpp:79-90 | The loop for one positive edge keeps every entry sound. |
| Contrast.BuildOk | finite_contrast.cpp:77-91 | The loop over the positive edges keeps every entry sound. |
| Contrast.TabulateOk | directed_finite_contrast.cpp:93-107 | Every entry of the finished tables is sound, in both the undirected and the directed construction. |
| FiniteContrast.SettingOf | finite_contrast.cpp:71-78 | The construction reads the graph's positive edges and the negative edge list of the first size nodes. |
| FiniteContrast.ContrastTask | finite_contrast.cpp:39-47 | One example per row entry: feature embedding[b], label ±1, margin 1 + label·⟨emb[c], emb[d]⟩, penalty pow(max(\|row\|, 1), p)/regularizer. |
| FiniteContrast.MarginsContrastEdges | finite_contrast.cpp:45 | A +1 example's margin is 1 + the score of a negative edge; a −1 example's margin is 1 − the score of a positive edge. |
| FiniteContrast.UpdateEmbedding | finite_contrast.cpp:36-55 | The solver rewrites coeff[x]. embedding[x] becomes Σ_j coeff[x][j]·embedding[b_j], and no other node changes. |
| FiniteContrast.EmptyRowZeroes | finite_contrast.cpp:49-54 | A node with an empty row gets the zero embedding. |
| FiniteContrast.Initial | finite_contrast.cpp:93-95 | Corrected sizing: coeff[x] holds one zero per entry of table[x]. |
| FiniteContrast.AsWrittenCoefficients | finite_contrast.cpp:93-95 | As written: coeff[x] holds \|edge[x]\| + \|negative.edge[x]\| entries. |
| FiniteContrast.AsWrittenTotal | finite_contrast.cpp:93-95 | The as-written sizing totals one coefficient per adjacency entry. |
| FiniteContrast.AsWrittenSizingMismatch | finite_contrast.cpp:77-95 | On a one-edge graph with ratio 1, the tables hold 8 entries against 4 allocated coefficients, so some row and its coefficients differ in length. |
| FiniteContrast.Epoch | finite_contrast.cpp:102-103 | An epoch applies UpdateEmbedding to the nodes of the order in turn; the model stays fitted, and nodes outside the order are unchanged. |
| FiniteContrast.EpochStep | finite_contrast.cpp:102-103 | The epoch over the first t + 1 nodes is UpdateEmbedding of node order[t] applied to the epoch over the first t. |
| FiniteContrast.RunEpoch | finite_contrast.cpp:102-103 | The loop over an order computes Epoch. The model stays fitted, and unvisited nodes are unchanged. |
| FiniteContrast.RunEpochs | finite_contrast.cpp:97-104 | The ten-epoch loop. Its orders are the successive shuffles of the identity order, and its model is the fold of Epoch over them. |
| FiniteContrast.Train | finite_contrast.cpp:57-105 | Fails exactly when the table construction does. Otherwise the table is the constructed out-table, with Σ\|table\| = 4·ratio·Σ\|edge\|, and every coefficient row matches its table row. The model is the ten epochs applied to the initial model over the successive shuffles of the node order, so every node is updated exactly 10 times. |
| Directed.Gather | directed_finite.cpp:35-48 | A side update's features are the opposite-side embeddings of the listed nodes, passed with the cached norms of those nodes. |
| Directed.GatheredNormsExact | directed_finite.cpp:40 | With the caches current, every norm handed over is the squared norm of its feature. |
| Directed.WriteBack | directed_finite.cpp:49-50 | Only x's own-side embedding, coefficients and norm change, and the norm cache stays exact. |
| Directed.Initial | directed_finite.cpp:95-100 | The starting model caches the exact squared norms of both embeddings. |
| Directed.Combined | directed_finite.cpp:120-126 | The combined embedding is in ++ out, of length 2·dim. |
| Directed.EvaluateFromCombined | directed_finite.cpp:129-131 | Evaluate(x, y) = ⟨out[x], in[y]⟩, read off the two halves of the combined embeddings. |
| DirectedFinite.IdsWithin | directed_finite.cpp:35-48 | The example nodes of a side update are nodes of the graph. |
| DirectedFinite.SideTask | directed_finite.cpp:31-48 | The in-update has the positive in-neighbours (label +1, margin 1, penalty 1/reg), then the negative ones (label −1, margin 0, penalty neg_penalty/reg). The out-update mirrors it. All arrays have equal length, equal to \|coeff[x]\|. |
| DirectedFinite.SideTaskFeatures | directed_finite.cpp:53-70 | Features are the opposite embeddings, and the norms passed along are their exact squared norms. |
| DirectedFinite.Update | directed_finite.cpp:31-51 | A side update writes only that side's embedding[x], coeff[x] and norm[x], and keeps the norm cache exact. |
| DirectedFinite.Visit | directed_finite.cpp:114-117 | A visit is the in-update of x followed by the out-update of x. Only x changes, and the norm cache stays exact. |
| DirectedFinite.Epoch | directed_finite.cpp:114-117 | An epoch visits the nodes of the order in turn; the model stays fitted, and nodes outside the order are unchanged on both sides. |
| DirectedFinite.EpochStep | directed_finite.cpp:114-117 | The epoch over the first t + 1 nodes is Visit of node order[t] applied to the epoch over the first t. |
| DirectedFinite.EpochsKeepNorms | directed_finite.cpp:112-118 | Any number of epochs keep the norm cache exact. |
| DirectedFinite.RunEpoch | directed_finite.cpp:114-117 | The loop over an order computes Epoch: the in-update then the out-update per node. The model stays fitted, the caches stay exact, and unvisited nodes are unchanged. |
| DirectedFinite.RunEpochs | directed_finite.cpp:108-118 | The ten-epoch loop. Its orders are the successive shuffles of the identity order, and its model is the fold of Epoch over them. |
| DirectedFinite.Start | directed_finite.cpp:95-107 | The starting model: the given embeddings, exact cached norms, and zero coefficients sized to the example counts. |
| DirectedFinite.Train | directed_finite.cpp:75-127 | The model is the ten epochs applied to Start over the successive shuffles of the node order, so every node is visited 10 times, in-update first. Coefficients are sized to the example counts, the caches stay exact, and combined[x] = in[x] ++ out[x]. |
| DirectedFiniteContrast.SettingOf | directed_finite_contrast.cpp:87-94 | The construction reads the positive out-edges and the negative out-edge list. |
| DirectedFiniteContrast.RowEntryOk | directed_finite_contrast.cpp:99-103 | Every entry of either table of x is sound, and {x, b} is disjoint from {c, d}. |
| DirectedFiniteContrast.SideTask | directed_finite_contrast.cpp:38-48 | One example per row entry, with penalty 1/regularizer; the example count equals \|coeff[x]\|. |
| DirectedFiniteContrast.SideTaskContents | directed_finite_contrast.cpp:45-47 | Margins are 1 + label·⟨out[c], in[d]⟩ and contrast an edge of the other kind; norms are the features' squared norms. |
| DirectedFiniteContrast.Update | directed_finite_contrast.cpp:38-51 | A side update changes only x on that side and keeps the norm cache exact. |
| DirectedFiniteContrast.Visit | directed_finite_contrast.cpp:128-131 | A visit is the in-update of x then the out-update of x. Only x changes, and the norm cache stays exact. |
| DirectedFiniteContrast.Epoch | directed_finite_contrast.cpp:128-131 | An epoch visits the nodes of the order in turn; the model stays fitted, and nodes outside the order are unchanged on both sides. |
| DirectedFiniteContrast.EpochStep | directed_finite_contrast.cpp:128-131 | The epoch over the first k + 1 nodes is Visit of node order[k] applied to the epoch over the first k. |
| DirectedFiniteContrast.EpochsKeepNorms | directed_finite_contrast.cpp:126-132 | Any number of epochs keep the norm cache exact. |
| DirectedFiniteContrast.RunEpoch | directed_finite_contrast.cpp:128-131 | The loop over an order computes Epoch. The model stays fitted, the caches stay exact, and unvisited nodes are unchanged. |
| DirectedFiniteContrast.RunEpochs | directed_finite_contrast.cpp:122-132 | The ten-epoch loop. Its orders are the successive shuffles of the identity order, and its model is the fold of Epoch over them. |
| DirectedFiniteContrast.Start | directed_finite_contrast.cpp:116-121 | The starting model: the given embeddings, exact cached norms, and one zero coefficient per entry of each table row. |
| DirectedFiniteContrast.Train | directed_finite_contrast.cpp:68-135 | Fails exactly when the table construction does. Otherwise the tables are the constructed ones, sound, with Σ\|out_table\| = Σ\|in_table\| = 2·ratio·(positive edges). The model is the ten epochs applied to Start over the successive shuffles of the node order, so every node is visited 10 times. The caches stay exact, and the combined embedding is in ++ out. |
| Kernel.InitialKernel | kernel.cpp:55-62 | K[i][i] = \|edge[i]\|, K[i][j] = 1 for a neighbour j ≠ i, and 0 elsewhere. |
| Kernel.InitialKernelSymmetric | kernel.cpp:58-62 | A symmetric graph gives a symmetric initial kernel. |
| Kernel.Labels | kernel.cpp:24-31 | One label per instance: positives, then negatives. |
| Kernel.Local | kernel.cpp:32-37 | `local` is the principal submatrix of K on the instances. |
| Kernel.SpreadRow | kernel.cpp:40-46 | The rewritten row has one entry per node. Entry i ≠ x is Σ_j K[instance[j]][i]·c[j] over the old kernel, and entry x is still the old diagonal. The loop writes only row and column x at positions it has already passed, so it never reads an entry it has rewritten. |
| Kernel.Update | kernel.cpp:21-51 | Only row and column x change, and the coefficients are kept. For i ≠ x, K[x][i] = K[i][x] = Σ_j K[instance[j]][i]·coeff[x][j] over the old kernel. The new diagonal is Σ_j K[x][instance[j]]·coeff[x][j] over the new row, whose own diagonal is still the old one when it is read. |
| Kernel.UpdateKeepsSymmetric | kernel.cpp:40-50 | The update keeps a symmetric kernel symmetric. |
| Kernel.UpdateWithZeroCoefficients | kernel.cpp:39-50 | With all-zero coefficients, the update clears row and column x, the diagonal included. |
| Kernel.UpdateClears | kernel.cpp:39-50 | With zero coefficients the update clears x and keeps every cleared node cleared. |
| Kernel.RunEpoch | kernel.cpp:73-74 | An epoch keeps the kernel symmetric and clears every visited node. |
| Kernel.Train | kernel.cpp:53-76 | The kernel is symmetric for a symmetric graph and every node is visited 10 times. Because KernelSVM leaves the zero coefficients alone, every score ends at 0. |
| SequentialFinite.Estimated | sequential-finite.cpp:33-34 | Keeps exactly the listed nodes that are estimated, in list order. |
| SequentialFinite.Among | sequential-finite.cpp:33-46 | Keeps exactly the listed nodes that occur in the given prefix of the order. |
| SequentialFinite.EstimatedIsAmong | sequential-finite.cpp:33-46 | When exactly the nodes of the prefix are estimated, the estimated filter and the prefix filter agree. |
| SequentialFinite.PlacedSources | sequential-finite.cpp:33-46 | The sources of the k-th update name only nodes placed before position k. |
| SequentialFinite.Sources | sequential-finite.cpp:33-46 | Example nodes are estimated nodes of the graph. |
| SequentialFinite.PlacedStep | sequential-finite.cpp:33-46 | When order[t] is visited, the neighbours already estimated are exactly those placed earlier in the order. So recording them extends the record of sources by the right entry. |
| SequentialFinite.SolverTask | sequential-finite.cpp:29-46 | Estimated positives (+1, penalty 1/reg) before estimated negatives (−1, penalty neg_penalty/reg). Every margin is 1. |
| SequentialFinite.Repeat | sequential-finite.cpp:49-50 | Ten warm-started solver calls keep the coefficient count. |
| SequentialFinite.Update | sequential-finite.cpp:29-61 | coeff[x] is resized to the example count and solved 10 times. embedding[x] is Σ coeff·feature plus the noise. x becomes estimated, and nothing else changes. |
| SequentialFinite.RunOrder | sequential-finite.cpp:79-80 | The loop over the order computes the fold of Update, and records as each step's sources the neighbours placed earlier. |
| SequentialFinite.Train | sequential-finite.cpp:63-81 | One pass over the shuffle of the identity order. The model is the fold of Update along that order from the all-unestimated start. The k-th update's sources are exactly the positive, then negative, neighbours of order[k] placed earlier, in list order; so the first update sees none. Afterwards every node is estimated. |
| Sparse.Lookup | sparse.cpp:90-92 | The map built from a sparse vector holds an index exactly when some entry carries it, and the value is that entry's. |
| Sparse.IndexMap | sparse.cpp:27-29 | `feature_index` maps each index to the last position that carries it. |
| Sparse.Project | sparse.cpp:43-48 | The dense feature has one entry per entry of x's vector. |
| Sparse.ProjectContents | sparse.cpp:43-48 | Position j holds the instance's value at v[j]'s index (0 if absent) when j is the last position of that index, and 0 otherwise. |
| Sparse.Instances | sparse.cpp:31-39 | Positives, then negatives. |
| Sparse.Examples | sparse.cpp:31-52 | One projected feature per instance, of length \|embedding[x]\|, with labels ±1. |
| Sparse.ExamplesBox | sparse.cpp:52 | The solver's box with penalties 1 and 1 is the model's box. |
| Sparse.WithValues | sparse.cpp:58-59 | Replaces values and keeps the index list. |
| Sparse.Update | sparse.cpp:26-60 | One update as a function: the model stays fitted, index lists are kept, and every node other than x is unchanged. |
| Sparse.UpdateEmbedding | sparse.cpp:26-60 | Equals Update. coeff[x] is the solver's result on the projected examples, and value[j] = Σ_i coeff[x][i]·feature[i][j]. Only x's values and coefficients change; its index list and length are kept. The box is kept and the dual objective does not increase. |
| Sparse.UpdateBoxed | sparse.cpp:52-59 | An update keeps every coefficient of the model in its box [0, C]. |
| Sparse.InitialVector | sparse.cpp:65-70 | The starting vector is (i, 1), then (j, 0) per neighbour j. |
| Sparse.Initial | sparse.cpp:62-77 | Starting vectors, and \|edge[x]\| + \|negative.edge[x]\| zero coefficients per node. |
| Sparse.InitialScores | sparse.cpp:89-98 | Before training, on a graph without self-loops, Evaluate(x, y) is 1 if x = y and 0 otherwise. |
| Sparse.LookupDistinct | sparse.cpp:90-92 | Without repeated indices, an entry's index looks up its own value. |
| Sparse.SparseDotAligned | sparse.cpp:93-97 | Over two vectors with the same distinct index list, the sparse sum is the dense inner product of their values. |
| Sparse.SelfScore | sparse.cpp:89-98 | Without repeated indices, a node scores itself with its squared norm, which is >= 0. |
| Sparse.Epoch | sparse.cpp:84-85 | An epoch updates the nodes of the order in turn; index lists are kept, and nodes outside the order are unchanged. |
| Sparse.EpochStep | sparse.cpp:84-85 | The epoch over the first t + 1 nodes is Update of node order[t] applied to the epoch over the first t. |
| Sparse.RunEpoch | sparse.cpp:84-85 | The loop over an order computes Epoch. It keeps the index lists and the box, and leaves unvisited nodes unchanged. |
| Sparse.EpochBoxed | sparse.cpp:84-85 | A whole pass over an order keeps every coefficient in its box. |
| Sparse.EpochsBoxed | sparse.cpp:82-86 | Any number of epochs keeps every coefficient in its box. |
| Sparse.RunEpochs | sparse.cpp:82-86 | The ten epochs: the orders are the successive shuffles, and the model is the fold of Epoch over them and stays in its box. |
| Sparse.Train | sparse.cpp:62-87 | The negative graph is the empty graph plus the edges of the local sampler for the given draws; it is valid, symmetric and loop-free. The model is the ten epochs applied to the starting model, over the successive shuffles of the node order. So each node is updated exactly 10 times; index lists are those of the start and the box is kept. |
| LabelPropagation.Initial | label_propagation.cpp:29-33 | Labelled nodes are one-hot at their class, unlabelled nodes are zero, and vectors have length card. |
| LabelPropagation.Update | label_propagation.cpp:17-22 | Only embedding[x] changes; an isolated node becomes zero. |
| LabelPropagation.AccumulateIsWeightedSum | label_propagation.cpp:19-21 | Without a self-loop, entry i of the accumulator is the sum of entry i of the neighbours' vectors, divided by d. |
| LabelPropagation.UpdateIsMean | label_propagation.cpp:17-22 | Without a self-loop, entry i of x's vector becomes the sum of entry i of its neighbours' vectors over \|edge[x]\|: their mean. |
| LabelPropagation.AccumulateBetween | label_propagation.cpp:18-21 | After k of d neighbours the accumulator lies in [0, k/d], self-loops included. |
| LabelPropagation.UpdateKeepsUnit | label_propagation.cpp:17-22 | If all scores lie in [0, 1] before an update, they still do after it. |
| LabelPropagation.Sweep | label_propagation.cpp:40-42 | Updates along a list of nodes keep the shape, and nodes not in the list are unchanged. |
| LabelPropagation.SweepAppend | label_propagation.cpp:38-43 | Sweeping a + b is sweeping a and then b. |
| LabelPropagation.SweepKeepsUnit | label_propagation.cpp:38-43 | A sweep keeps every score in [0, 1]. |
| LabelPropagation.Unlabelled | label_propagation.cpp:40-42 | The nodes an epoch updates are exactly the unlabelled nodes of the order, with multiplicity. |
| LabelPropagation.Epoch | label_propagation.cpp:40-42 | An epoch checks each node of the order for a label and updates only the unlabelled ones; the rest are unchanged. |
| LabelPropagation.EpochIsSweep | label_propagation.cpp:40-42 | An epoch is exactly a sweep over the unlabelled nodes of its order. |
| LabelPropagation.EpochsIsSweep | label_propagation.cpp:38-43 | All epochs together are exactly a sweep over the updated nodes of every epoch, in order. |
| LabelPropagation.EpochUpdates | label_propagation.cpp:38-43 | Over a permutation, the unlabelled nodes of an epoch add exactly one update to every unlabelled node and none to the others. |
| LabelPropagation.UpdatesCount | label_propagation.cpp:38-43 | Over permutations, the updates of n epochs hold every unlabelled node exactly n times and no labelled node. |
| LabelPropagation.RunEpoch | label_propagation.cpp:40-42 | The loop computes Epoch, which is the sweep over the unlabelled nodes of the order; [0, 1] is kept. |
| LabelPropagation.RunEpochs | label_propagation.cpp:38-43 | The 100 epochs: the orders are the successive shuffles, and the embedding is the fold of Epoch over them. |
| LabelPropagation.Train | label_propagation.cpp:24-44 | The embedding is the 100 epochs applied to Initial over the successive shuffles, which is the sweep over the updated nodes. Those updates hold every unlabelled node exactly 100 times and no labelled node. Labelled nodes keep their one-hot vector, and scores stay in [0, 1]. |
| NegativeSample.AddEdgeKeepsNoSelfLoops | negative_sample.cpp:19-20 | Adding a non-loop edge keeps a loop-free graph loop-free. |
| NegativeSample.Candidate | negative_sample.cpp:19-20 | A candidate (i, target) is added exactly when target ≠ i. |
| NegativeSample.Degrees | negative_sample.cpp:12-14 | The sampling weights are the degrees. |
| NegativeSample.SampleHasWeight | utility.cpp:82-86 | A drawn index past 0 has positive weight. |
| NegativeSample.DegreeSample | negative_sample.cpp:18 | The drawn target is a node, and it is 0 or a node with a neighbour. |
| NegativeSample.DegreeCandidates | negative_sample.cpp:17-21 | For node i and its draws, one candidate per draw in draw order; (i, target) is kept unless the target is i, and every target is drawn by degree. |
| NegativeSample.NodeDraws | negative_sample.cpp:16-17 | Node i uses the next NEGATIVE_RATIO·\|edge[i]\| draws, right after those of the nodes before it. |
| NegativeSample.DegreeAdded | negative_sample.cpp:16-21 | The edges the degree sampler adds for the nodes below n, node by node. |
| NegativeSample.DegreeDraws | negative_sample.cpp:17-21 | The inner loop adds exactly DegreeCandidates of node i for its draws, through AddEdge, keeping the graph's invariants. |
| NegativeSample.SampleNegativeGraph | negative_sample.cpp:11-22 | The added edges are exactly DegreeAdded for the draws: each node uses its own NEGATIVE_RATIO·\|edge[i]\| draws, and every draw whose target is not i adds (i, target). The graph is neg plus those edges. Validity, symmetry and loop-freeness are kept, and targets are drawn by degree. |
| NegativeSample.SymmetricNeighboursHaveEdges | negative_sample.cpp:27-29 | In a symmetric graph, every neighbour t of i has a non-empty list. |
| NegativeSample.FloorIndex | negative_sample.cpp:29 | ⌊u·m⌋ is an index below m for u in [0, 1). |
| NegativeSample.Pick | negative_sample.cpp:29 | The entry at ⌊u·m⌋ of a non-empty list of length m is one of its entries. |
| NegativeSample.LocalSample | negative_sample.cpp:29 | The drawn target is a neighbour of a neighbour of i. |
| NegativeSample.LocalCandidates | negative_sample.cpp:28-32 | For node i, the edge list of one of its neighbours and the draws: at most one edge per draw, each from i to an entry of that list. |
| NegativeSample.LocalCandidatesTwoHop | negative_sample.cpp:28-32 | When the list is that of a neighbour t of i, it is non-empty and every candidate joins i to a neighbour of t. |
| NegativeSample.LocalNode | negative_sample.cpp:27-32 | The candidates of node i for its neighbours from the k-th on, each neighbour with the next NEGATIVE_RATIO draws; all two-hop, at most one per draw. |
| NegativeSample.LocalAdded | negative_sample.cpp:26-32 | The edges the local sampler adds for the nodes below n, node by node; all join nodes two steps apart. |
| NegativeSample.NeighbourDraws | negative_sample.cpp:28-32 | The innermost loop adds exactly LocalCandidates for the neighbour's list and its draws, through AddEdge. |
| NegativeSample.LocalDraws | negative_sample.cpp:27-32 | The loops over i's neighbours add exactly LocalNode for the draws, through AddEdge. |
| NegativeSample.SampleLocalNegativeGraph | negative_sample.cpp:24-33 | The added edges are exactly LocalAdded for the draws: node i uses its own NEGATIVE_RATIO·\|edge[i]\| draws, and every draw whose target is not i adds (i, target). Each added target is in edge[t] for some t in edge[i]. Symmetry and loop-freeness are kept, with at most one edge per draw. |
| Evaluate.PairScores | evaluate.cpp:11-13 | One score per adjacency entry. |
| Evaluate.PairScoresAt | evaluate.cpp:11-13 | Entry k of node i's list is scored at position (entries before i) + k. |
| Evaluate.AveragePrecision | evaluate.cpp:9-18 | Scores Σ\|pos.edge\| positive and Σ\|neg.edge\| negative pairs; defined exactly when there is a positive pair. |
| Evaluate.PairMembers | evaluate.cpp:35-36 | The members of the binary problem are exactly the nodes labelled a or b, in increasing order. |
| Evaluate.PairTask | evaluate.cpp:35-43 | One example per member, with label +1 iff the member is in class a, margin 1 and penalty 1/regularizer. |
| Evaluate.Norms | evaluate.cpp:38 | The norms handed over are the squared norms of the features. |
| Evaluate.PairSolution | evaluate.cpp:45-47 | The solver is cold-started with zero coefficients and w; the result has length dim. |
| Evaluate.Vote | evaluate.cpp:49-55 | Each pair gives one vote: class a's count grows by one when v > 0, and class b's otherwise. No other count changes. |
| Evaluate.CastPair | evaluate.cpp:49-55 | The votes of pair (a, b) for every node: the vote goes to a exactly when ⟨emb[i], w_ab⟩ > 0, where w_ab is the pair's solution. |
| Evaluate.VoteTable | evaluate.cpp:24-56 | The vote table after the pairs of the first a rows, starting from zeros; it has one row of length card per node. |
| Evaluate.AllPairs | evaluate.cpp:27-28 | The pairs before row a number a(2card − a − 1)/2, which is card(card−1)/2 over all rows. |
| Evaluate.VoteStep | evaluate.cpp:49-55 | One pair's vote keeps the tally: the row sum grows by one and each entry stays within its bound. |
| Evaluate.Votes | evaluate.cpp:24-56 | The loops compute VoteTable over all pairs. Rows have length card, each row sums to card(card−1)/2, and each entry is at most card−1. |
| Evaluate.CastRow | evaluate.cpp:28-56 | The loop over b casts the votes of every pair (a, b) with b > a in turn. Each node's row sum grows by card−a−1, and the per-class bounds keep holding. |
| Evaluate.RowVotesTally | evaluate.cpp:28-56 | Casting the votes of the pairs (a, a+1) … (a, b−1) adds one vote per pair to every node's row sum, b−a−1 in all. Class c never holds more votes than the pairs containing c that have been cast so far. |
| Evaluate.ClassScores | evaluate.cpp:60-65 | Positives are the test nodes of class a; with negatives they cover all labelled test nodes. |
| Evaluate.F1Sum | evaluate.cpp:59-67 | The sum of per-class F1 lies in [0, classes]. |
| Evaluate.AverageF1 | evaluate.cpp:58-69 | Defined exactly when the divisor is non-zero; the value lies in [0, testCard/divisor]. |
| Evaluate.EvaluateF1 | evaluate.cpp:20-70 | The result is AverageF1 of the vote table over train.card. It is defined exactly when train.card > 0, and then lies in [0, 1]. |
| Evaluate.EvaluateF1LabelPropagation | evaluate.cpp:72-85 | Defined exactly when test.card > 0, and then in [0, 1]. |
| Evaluate.PositiveHinge | evaluate.cpp:93-97 | Σ max(1 − s, 0) is non-negative. |
| Evaluate.NegativeHinge | evaluate.cpp:101-105 | Σ max(s, 0) is non-negative. |
| Evaluate.HingeZero | evaluate.cpp:95-103 | Positive pairs scored at least 1, or negative pairs scored at most 0, cost nothing. |
| Evaluate.EvaluateAll | evaluate.cpp:87-128 | Each hinge sum is non-negative and its count equals the number of pairs visited; each average precision is defined exactly when there is a positive pair. |
| ReadDataset.IndexMap | read_dataset.cpp:13-15 | Every node name is in the map, and a repeated name maps to its last line. |
| ReadDataset.NameIndex | read_dataset.cpp:14-15 | Line k's name maps to k exactly when no later line repeats it. |
| ReadDataset.Field | read_dataset.cpp:23 | `getline(…, '\t')` returns the tab-free prefix, and the rest follows the tab. |
| ReadDataset.Endpoints | read_dataset.cpp:22-25 | The endpoints are the first two tab-separated fields. |
| ReadDataset.EndpointsOfLine | read_dataset.cpp:22-24 | "a\tb\tweight" with tab-free names yields (a, b). |
| ReadDataset.AddLines | read_dataset.cpp:21-29 | One AddEdge per edge line; the node count is unchanged. |
| ReadDataset.AddLinesEdges | read_dataset.cpp:21-29 | Each edge line adds exactly one symmetric edge (two entries). |
| ReadDataset.Read | read_dataset.cpp:9-30 | There is one node per node line, repeated names included. It fails only when there are edge lines but no node. |
| ReadDataset.ReadGraph | read_dataset.cpp:9-30 | The graph read is valid and symmetric, with 2·(edge lines) entries. |
| ReadDataset.UnknownNamesLoopAtZero | read_dataset.cpp:26-28 | Endpoints missing from the node file resolve to 0, so such a line adds a self-loop at node 0. |
| Baselines.CountIn | common_neighbor.cpp:9-16 | The count is at most the length of y's list. |
| Baselines.CommonNeighbors | common_neighbor.cpp:8-17 | 0 <= Evaluate(x, y) <= \|edge[y]\|. |
| Baselines.CountInIsIntersection | common_neighbor.cpp:9-16 | For a list without repeats, the count is the size of the intersection. |
| Baselines.CommonNeighborsSymmetric | common_neighbor.cpp:8-17 | With duplicate-free lists, Evaluate(x, y) = \|N(x) ∩ N(y)\|, so it is symmetric. |
| Baselines.NormalizedCommonNeighbors | baseline.cpp:21-31 | (count + bonus)/normalizer, where the bonus √\|edge[x]\| + √\|edge[y]\| applies only when y ∈ edge[x]; undefined for a zero normalizer. |
| Baselines.NormalizedCommonNeighborsSymmetric | baseline.cpp:21-31 | On a symmetric graph whose lists have no repeats, the normalised score of (x, y) equals that of (y, x). |
| Baselines.NewScratch | baseline.cpp:39 | The constructor zeroes the scratch vector. |
| Baselines.AdamicAdar | baseline.cpp:40-50 | From a zero scratch vector: adds 1/log\|edge[p]\| once per entry p of edge[y] that occurs in edge[x], and leaves the scratch all zero. In general, x's neighbours are reset to 0 and other entries are untouched. |

## Left out

- Floating point: `double` is `real`. Nothing is claimed about rounding, NaN or infinity. The eps comparisons of the ranking metrics are modelled exactly.
- Random number generators (`std::mt19937` and its distributions) are replaced by explicit draw sequences; nothing is claimed about their distribution.
- The rejection loops of the contrast tables are bounded by a finite draw sequence, and they return None when it runs out. Termination with an endless generator is not modelled.
- Contrast.SamplePair: two inputs have no result in the source, and the model answers None for both, the same None as for exhausted draws (`Contrast.SamplePairUndefined`). A ratio below 1 means `++cnt == sample_ratio` never holds, so the loop runs forever (finite_contrast.cpp:88, directed_finite_contrast.cpp:104). An empty negative edge list makes `dist_i(0, -1)` and `edge_list[i]` undefined (finite_contrast.cpp:76-82, directed_finite_contrast.cpp:92-98).
- Ranking.EvaluateAveragePrecision: with no positive score the source divides 0 by 0 (NaN); the model returns None.
- ReadDataset.Read: with no node line and some edge line, the source indexes an empty graph; the model returns None.
- Baselines.NormalizedCommonNeighbors: a zero normalizer divides by zero in the source; the model returns None.
- Evaluate.EvaluateF1: with train.card = 0 the source divides 0 by 0 at evaluate.cpp:68 (NaN); the model returns None.
- Evaluate.EvaluateF1: requires testCard <= trainCard. Otherwise evaluate.cpp:63 and 65 read `label_prediction[i][a]` past the end of a row of train.card counters, which is undefined in the source.
- Baselines.AdamicAdar: `1 / log(|edge[p]|)` is one function parameter, so the division by log 1 = 0 for a degree-one node is not modelled.
- `pow`, `sqrt` and `log` are function parameters with no properties.
- The noise of sequential-finite.cpp:57-59 is an arbitrary input vector.
- The regularizer must be non-zero: every penalty divides by it.
- The weighted solver overloads have no body in the repository: the nine-argument `LinearSVM` declared at svm.h:6-8 (called at directed_finite.cpp:49 and 71, directed_finite_contrast.cpp:49 and 64, evaluate.cpp:47) and the six-argument one called at finite_contrast.cpp:48 and sequential-finite.cpp:50. They are opaque parameters that keep the shapes of their arguments, so only the callers' bookkeeping is verified.
- `InnerProduct` (utility.h:17) is declared without a body; it is modelled as Σ x[k]·y[k].
- Stream I/O and printing are left out: the ifstream reading and 256-byte buffers of read_dataset.cpp (lines are sequences of strings here), the `Predefined` loader and the `Random` model of baseline.cpp, and all printing of evaluate.cpp.
- main.cpp (experiment wiring), finite_sgd.cpp (sigmoid-driven SGD) and the unused `Matrix` struct of base.h are left out.
- Signatures differ between base.h's declarations and the definitions: the arity of `GetSparseEmbedding` and `GetFiniteEmbedding`, and the names of the negative samplers. The function bodies are modelled as written.
- `Label` has no `.label` field, although evaluate.cpp:36 and label_propagation.cpp:31 read one. Labels are modelled `SingleLabel`-shaped (a sequence, -1 for unlabelled) together with the class count card.
- sparse.cpp:48-49 stores pointers into a vector that is still growing, so they dangle after a reallocation. The model passes the intended features by value.
- The empirical test outcomes are not modelled: the ranking asserts of embedding_test.cpp, F1 ≈ 1 in evaluate_test.cpp, and the coefficient targets of svm_test.cpp.
- LinearSolver.ProjectedGradient and Step model a zero curvature Q[i] = 0 by the IEEE result of G/0: the step goes to U when G < 0 and to min(0, U) when G > 0. No Q[i] > 0 precondition is imposed.
- Finite.Train, FiniteContrast.Train, DirectedFinite.Train and DirectedFiniteContrast.Train take the starting embeddings as an input (the `uniform(-1, 1)` draws of finite.cpp:49, finite_contrast.cpp:62, directed_finite.cpp:82 and directed_finite_contrast.cpp:73).
- Sparse.Train models the local negative sampler the constructor calls; the uniform and preferential samplers declared in base.h have no body to model.

## Findings

| source | as written | input that shows it | evidently intended | confidence | as-written member | corrected member |
|---|---|---|---|---|---|---|
| svm.cpp:12 | `LinearSVM` reads `feature[0]->size()` before looking at the example count. finite.cpp:37 and sparse.cpp:52 call it for every node, including nodes with no examples. | A graph of two nodes with no positive or negative edges: node 0 hands the solver an empty feature list, and `feature[0]` is out of range. | With no examples, leave the (empty) coefficients alone and write a zero embedding. | not executed | LinearSolver.LinearSVM | LinearSolver.GuardedLinearSVM |
| finite_contrast.cpp:93-95 | `coeff[x]` is sized \|edge[x]\| + \|negative.edge[x]\|, but `UpdateEmbedding` builds one example per entry of `table[x]`, which holds 4·ratio entries per positive edge. | The positive edge 0–1, the negative edge 2–3 and ratio 1: 8 table entries against 4 allocated coefficients. | Size `coeff[x]` to `table[x].size()`, as directed_finite_contrast.cpp:119-120 does. | not executed | FiniteContrast.AsWrittenSizingMismatch | FiniteContrast.Initial |
