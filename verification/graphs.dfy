/** The containers of base.h: undirected graphs (`Graph`), directed graphs
    (`DGraph`), per-node labels (`SingleLabel`) and per-class instance lists
    (`Label`). Adjacency lists are sequences; a list may hold repeats, so
    symmetry is stated with multiplicities. */
module Graphs {
  import opened Seqs

  /** `Graph`: `size` nodes, `edge[a]` the neighbour list of node a. */
  datatype Graph = Graph(size: int, edge: seq<seq<int>>)

  /** Every list exists and names only nodes of the graph. */
  predicate Valid(g: Graph)
  {
    && g.size == |g.edge|
    && forall a, k :: 0 <= a < |g.edge| && 0 <= k < |g.edge[a]| ==> 0 <= g.edge[a][k] < g.size
  }

  /** The first n lists exist and name only nodes below n: what a model over
      n nodes reads of a graph (a negative graph is read this way). */
  predicate ListsWithin(g: Graph, n: int)
  {
    && 0 <= n <= |g.edge|
    && forall a, k :: 0 <= a < n && 0 <= k < |g.edge[a]| ==> 0 <= g.edge[a][k] < n
  }

  /** For all a, b: b occurs in edge[a] exactly as often as a occurs in edge[b]. */
  predicate Symmetric(g: Graph)
  {
    forall a, b :: 0 <= a < |g.edge| && 0 <= b < |g.edge| ==>
      multiset(g.edge[a])[b] == multiset(g.edge[b])[a]
  }

  /** Number of adjacency entries (twice the number of AddEdge calls). */
  function Entries(g: Graph): nat
  {
    TotalLength(g.edge)
  }

  /** `Graph()`: no nodes. */
  function EmptyGraph(): (g: Graph)
    ensures Valid(g) && Symmetric(g) && Entries(g) == 0
  {
    Graph(0, [])
  }

  /** `Graph(n)`: n nodes, every adjacency list empty. */
  function NewGraph(n: nat): (g: Graph)
    ensures Valid(g) && Symmetric(g)
    ensures g.size == n && |g.edge| == n
    ensures forall a :: 0 <= a < n ==> |g.edge[a]| == 0
    ensures Entries(g) == 0
  {
    var r := Graph(n, seq(n, _ => []));
    NoEntries(r.edge);
    r
  }

  lemma {:induction false} NoEntries<T>(ss: seq<seq<T>>)
    requires forall a :: 0 <= a < |ss| ==> |ss[a]| == 0
    ensures TotalLength(ss) == 0
  {
    if |ss| > 0 {
      NoEntries(ss[..|ss| - 1]);
    }
  }

  /** `Graph::AddEdge(x, y)`: y is appended to edge[x], then x to edge[y]
      (so a self-loop appends x twice to edge[x]). */
  function AddEdge(g: Graph, x: int, y: int): (r: Graph)
    requires 0 <= x < |g.edge| && 0 <= y < |g.edge|
    ensures r.size == g.size && |r.edge| == |g.edge|
    ensures forall a :: 0 <= a < |g.edge| && a != x && a != y ==> r.edge[a] == g.edge[a]
    ensures forall a, b :: 0 <= a < |g.edge| ==>
      multiset(r.edge[a])[b] == multiset(g.edge[a])[b]
        + (if a == x && b == y then 1 else 0) + (if a == y && b == x then 1 else 0)
  {
    var e1 := g.edge[x := g.edge[x] + [y]];
    Graph(g.size, e1[y := e1[y] + [x]])
  }

  lemma AddEdgeKeepsValid(g: Graph, x: int, y: int)
    requires Valid(g) && 0 <= x < g.size && 0 <= y < g.size
    ensures Valid(AddEdge(g, x, y))
  {
    var r := AddEdge(g, x, y);
    forall a, k | 0 <= a < |r.edge| && 0 <= k < |r.edge[a]|
      ensures 0 <= r.edge[a][k] < r.size
    {
      assert r.edge[a][k] in multiset(r.edge[a]);
      if r.edge[a][k] !in multiset(g.edge[a]) {
        assert r.edge[a][k] == x || r.edge[a][k] == y;
      } else {
        assert r.edge[a][k] in g.edge[a];
      }
    }
  }

  /** AddEdge keeps the adjacency relation symmetric. */
  lemma AddEdgeKeepsSymmetric(g: Graph, x: int, y: int)
    requires 0 <= x < |g.edge| && 0 <= y < |g.edge|
    requires Symmetric(g)
    ensures Symmetric(AddEdge(g, x, y))
  {
  }

  /** AddEdge adds exactly two adjacency entries. */
  lemma AddEdgeEntries(g: Graph, x: int, y: int)
    requires 0 <= x < |g.edge| && 0 <= y < |g.edge|
    ensures Entries(AddEdge(g, x, y)) == Entries(g) + 2
  {
    var e1 := g.edge[x := g.edge[x] + [y]];
    TotalLengthUpdate(g.edge, x, g.edge[x] + [y]);
    TotalLengthUpdate(e1, y, e1[y] + [x]);
  }

  /** In a symmetric graph, b is a neighbour of a exactly when a is one of b. */
  lemma SymmetricMembership(g: Graph, a: int, b: int)
    requires Symmetric(g) && 0 <= a < |g.edge| && 0 <= b < |g.edge|
    ensures b in g.edge[a] <==> a in g.edge[b]
  {
    assert b in g.edge[a] <==> multiset(g.edge[a])[b] > 0;
    assert a in g.edge[b] <==> multiset(g.edge[b])[a] > 0;
  }

  /** `DGraph`: out- and in-adjacency lists of a directed graph. */
  datatype DGraph = DGraph(size: int, outEdge: seq<seq<int>>, inEdge: seq<seq<int>>)

  predicate ValidD(g: DGraph)
  {
    && g.size == |g.outEdge| == |g.inEdge|
    && (forall a, k :: 0 <= a < |g.outEdge| && 0 <= k < |g.outEdge[a]| ==> 0 <= g.outEdge[a][k] < g.size)
    && (forall a, k :: 0 <= a < |g.inEdge| && 0 <= k < |g.inEdge[a]| ==> 0 <= g.inEdge[a][k] < g.size)
  }

  /** The first n out- and in-lists exist and name only nodes below n. */
  predicate ListsWithinD(g: DGraph, n: int)
  {
    && 0 <= n <= |g.outEdge| && n <= |g.inEdge|
    && (forall a, k :: 0 <= a < n && 0 <= k < |g.outEdge[a]| ==> 0 <= g.outEdge[a][k] < n)
    && (forall a, k :: 0 <= a < n && 0 <= k < |g.inEdge[a]| ==> 0 <= g.inEdge[a][k] < n)
  }

  /** y occurs in out_edge[x] exactly as often as x occurs in in_edge[y],
      and both sides hold the same number of entries. */
  predicate Consistent(g: DGraph)
  {
    && |g.outEdge| == |g.inEdge|
    && (forall x, y :: 0 <= x < |g.outEdge| && 0 <= y < |g.inEdge| ==>
          multiset(g.outEdge[x])[y] == multiset(g.inEdge[y])[x])
    && TotalLength(g.outEdge) == TotalLength(g.inEdge)
  }

  /** `DGraph(n)`. */
  function NewDGraph(n: nat): (g: DGraph)
    ensures ValidD(g) && Consistent(g) && g.size == n
    ensures forall a :: 0 <= a < n ==> |g.outEdge[a]| == 0 && |g.inEdge[a]| == 0
  {
    var r := DGraph(n, seq(n, _ => []), seq(n, _ => []));
    NoEntries(r.outEdge);
    NoEntries(r.inEdge);
    r
  }

  /** `DGraph::AddEdge(x, y)`: y appended to out_edge[x], x to in_edge[y]. */
  function AddDEdge(g: DGraph, x: int, y: int): (r: DGraph)
    requires 0 <= x < |g.outEdge| && 0 <= y < |g.inEdge|
    ensures r.size == g.size && |r.outEdge| == |g.outEdge| && |r.inEdge| == |g.inEdge|
    ensures forall a :: 0 <= a < |g.outEdge| && a != x ==> r.outEdge[a] == g.outEdge[a]
    ensures forall a :: 0 <= a < |g.inEdge| && a != y ==> r.inEdge[a] == g.inEdge[a]
    ensures r.outEdge[x] == g.outEdge[x] + [y] && r.inEdge[y] == g.inEdge[y] + [x]
  {
    DGraph(g.size, g.outEdge[x := g.outEdge[x] + [y]], g.inEdge[y := g.inEdge[y] + [x]])
  }

  /** AddEdge keeps out- and in-lists mirror images of each other. */
  lemma AddDEdgeKeepsConsistent(g: DGraph, x: int, y: int)
    requires 0 <= x < |g.outEdge| && 0 <= y < |g.inEdge|
    requires Consistent(g)
    ensures Consistent(AddDEdge(g, x, y))
    ensures TotalLength(AddDEdge(g, x, y).outEdge) == TotalLength(g.outEdge) + 1
  {
    var r := AddDEdge(g, x, y);
    forall a, b | 0 <= a < |r.outEdge| && 0 <= b < |r.inEdge|
      ensures multiset(r.outEdge[a])[b] == multiset(r.inEdge[b])[a]
    {
      MirrorEntry(g.outEdge[a], g.inEdge[b], r.outEdge[a], r.inEdge[b], a == x, b == y, a, b, x, y);
    }
    TotalLengthUpdate(g.outEdge, x, g.outEdge[x] + [y]);
    TotalLengthUpdate(g.inEdge, y, g.inEdge[y] + [x]);
  }

  /** One pair (a, b) of the mirror property across one added edge (x, y):
      a's out-list gains y exactly when a is x, b's in-list gains x exactly
      when b is y, and the edge counts once on each side or not at all. */
  lemma MirrorEntry(out: seq<int>, inn: seq<int>, out': seq<int>, inn': seq<int>,
                    atX: bool, atY: bool, a: int, b: int, x: int, y: int)
    requires multiset(out)[b] == multiset(inn)[a]
    requires atX <==> a == x
    requires atY <==> b == y
    requires out' == if atX then out + [y] else out
    requires inn' == if atY then inn + [x] else inn
    ensures multiset(out')[b] == multiset(inn')[a]
  {
    assert multiset(out + [y]) == multiset(out) + multiset{y};
    assert multiset(inn + [x]) == multiset(inn) + multiset{x};
  }

  /** `SingleLabel`: label[i] is node i's class, -1 when unlabelled. */
  datatype SingleLabel = SingleLabel(size: int, labels: seq<int>)

  function NewSingleLabel(n: nat): (s: SingleLabel)
    ensures s.size == n && |s.labels| == n
    ensures forall i :: 0 <= i < n ==> s.labels[i] == -1
  {
    SingleLabel(n, seq(n, _ => -1))
  }

  function SetSingleLabel(s: SingleLabel, x: int, l: int): (r: SingleLabel)
    requires 0 <= x < |s.labels|
    ensures r.size == s.size && |r.labels| == |s.labels|
    ensures r.labels[x] == l
    ensures forall i :: 0 <= i < |s.labels| && i != x ==> r.labels[i] == s.labels[i]
  {
    SingleLabel(s.size, s.labels[x := l])
  }

  /** `Label`: the instances of each class and a labelled flag per node.
      The constructor leaves `card` uninitialised; the model takes that
      indeterminate value as a parameter. */
  datatype Label = Label(size: int, card: int, instances: seq<seq<int>>, labeled: seq<bool>)

  function NewLabel(n: nat, indeterminateCard: int): (lab: Label)
    ensures |lab.labeled| == n && |lab.instances| == 0
    ensures forall i :: 0 <= i < n ==> !lab.labeled[i]
    ensures CardTracksClasses(lab)
  {
    Label(n, indeterminateCard, [], seq(n, _ => false))
  }

  /** Once any class exists, `card` is the number of class lists. */
  predicate CardTracksClasses(lab: Label)
  {
    |lab.instances| == 0 || lab.card == |lab.instances|
  }

  /** `Label::SetLabel(x, l)`: grow the class lists to hold class l (and only
      then write card), append x to class l, flag x as labelled. */
  function SetLabel(lab: Label, x: int, l: int): (r: Label)
    requires 0 <= x < |lab.labeled| && 0 <= l
    ensures |r.instances| == (if l < |lab.instances| then |lab.instances| else l + 1)
    ensures r.instances[l] == (if l < |lab.instances| then lab.instances[l] else []) + [x]
    ensures forall c :: 0 <= c < |r.instances| && c != l ==>
      r.instances[c] == (if c < |lab.instances| then lab.instances[c] else [])
    ensures r.labeled == lab.labeled[x := true]
    ensures CardTracksClasses(lab) ==> CardTracksClasses(r) && r.card == |r.instances|
  {
    var grown := if l >= |lab.instances| then lab.instances + seq(l + 1 - |lab.instances|, _ => []) else lab.instances;
    var card := if l >= |lab.instances| then l + 1 else lab.card;
    Label(lab.size, card, grown[l := grown[l] + [x]], lab.labeled[x := true])
  }
}
