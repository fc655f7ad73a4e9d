/** read_dataset.cpp: `ReadDataset(nodefile, edgefile, graph)` over the
    lines of the two files. Node line k names node k; each edge line names
    its two endpoints in its first two tab-separated fields, and the edge
    is added in both directions. A name that is not a node resolves to 0,
    because looking it up inserts the default index. */
module ReadDataset {
  import opened Seqs
  import opened Graphs

  const TAB: char := '\t'

  /** The name-to-index map after the first n node lines: a repeated name
      maps to its last line. */
  function IndexMap(names: seq<string>): (m: map<string, int>)
    ensures forall s :: s in m <==> s in names
    ensures forall s :: s in m ==> 0 <= m[s] < |names| && names[m[s]] == s
    ensures forall s, k :: s in m && m[s] < k < |names| ==> names[k] != s
  {
    if |names| == 0 then map[]
    else
      var n := |names| - 1;
      var m := IndexMap(names[..n]);
      assert forall s :: s in names <==> s in names[..n] || s == names[n];
      m[names[n] := n]
  }

  /** `index_map[name]`: the name's index, or 0 for an unknown name. */
  function Resolve(m: map<string, int>, name: string): (r: int)
  {
    if name in m then m[name] else 0
  }

  /** Line k's name maps to k exactly when no later line repeats it. */
  lemma NameIndex(names: seq<string>, k: int)
    requires 0 <= k < |names|
    ensures Resolve(IndexMap(names), names[k]) == k <==> forall j :: k < j < |names| ==> names[j] != names[k]
  {
    var m := IndexMap(names);
    assert names[k] in m;
    assert k <= m[names[k]];
  }

  /** `is.getline(w, 256, '\\t')`: the characters up to the first tab, and
      what follows that tab (empty when there is none). */
  function Field(line: string): (r: (string, string))
    ensures TAB !in r.0
    ensures line == r.0 + (if |r.0| < |line| then [TAB] + r.1 else [])
    ensures |r.0| == |line| ==> r.1 == []
  {
    if |line| == 0 then ([], [])
    else if line[0] == TAB then ([], line[1..])
    else
      var rest := Field(line[1..]);
      ([line[0]] + rest.0, rest.1)
  }

  /** The two endpoint names of an edge line: its first and second
      tab-separated fields (the weight after them is read and unused). */
  function Endpoints(line: string): (r: (string, string))
    ensures TAB !in r.0 && TAB !in r.1
  {
    var first := Field(line);
    (first.0, Field(first.1).0)
  }

  /** An edge line built from two tab-free names and any weight text
      yields those two names. */
  lemma EndpointsOfLine(a: string, b: string, weight: string)
    requires TAB !in a && TAB !in b
    ensures Endpoints(a + [TAB] + b + [TAB] + weight) == (a, b)
  {
    FieldOfJoined(a, b + [TAB] + weight);
    FieldOfJoined(b, weight);
    assert a + [TAB] + b + [TAB] + weight == a + ([TAB] + (b + [TAB] + weight));
  }

  lemma {:induction false} FieldOfJoined(a: string, rest: string)
    requires TAB !in a
    ensures Field(a + [TAB] + rest) == (a, rest)
  {
    if |a| > 0 {
      assert a[0] in a;
      FieldOfJoined(a[1..], rest);
      assert (a + [TAB] + rest)[0] == a[0];
      assert (a + [TAB] + rest)[1..] == a[1..] + [TAB] + rest;
      assert [a[0]] + a[1..] == a;
    } else {
      assert (a + [TAB] + rest)[1..] == rest;
    }
  }

  /** The graph after the edge lines: one `AddEdge` per line on the
      resolved endpoints. */
  function AddLines(g: Graph, m: map<string, int>, lines: seq<string>): (r: Graph)
    requires g.size == |g.edge| > 0
    requires forall s :: s in m ==> 0 <= m[s] < g.size
    ensures r.size == g.size && |r.edge| == |g.edge|
  {
    if |lines| == 0 then g
    else
      var prev := AddLines(g, m, lines[..|lines| - 1]);
      var e := Endpoints(lines[|lines| - 1]);
      AddEdge(prev, Resolve(m, e.0), Resolve(m, e.1))
  }

  /** Each edge line adds one symmetric edge: the graph stays valid and
      symmetric and gains two adjacency entries per line. */
  lemma {:induction false} AddLinesEdges(g: Graph, m: map<string, int>, lines: seq<string>)
    requires Valid(g) && g.size > 0 && Symmetric(g)
    requires forall s :: s in m ==> 0 <= m[s] < g.size
    ensures var r := AddLines(g, m, lines);
      Valid(r) && Symmetric(r) && Entries(r) == Entries(g) + 2 * |lines|
  {
    if |lines| > 0 {
      var prev := AddLines(g, m, lines[..|lines| - 1]);
      AddLinesEdges(g, m, lines[..|lines| - 1]);
      var e := Endpoints(lines[|lines| - 1]);
      AddEdgeKeepsValid(prev, Resolve(m, e.0), Resolve(m, e.1));
      AddEdgeKeepsSymmetric(prev, Resolve(m, e.0), Resolve(m, e.1));
      AddEdgeEntries(prev, Resolve(m, e.0), Resolve(m, e.1));
    }
  }

  /** `ReadDataset` over the node lines and the edge lines. With no node at
      all, an edge line would index an empty graph: None. */
  function Read(nodes: seq<string>, edges: seq<string>): (r: Option<Graph>)
    ensures r.None? <==> |nodes| == 0 && |edges| > 0
    ensures r.Some? ==> r.value.size == |nodes|
  {
    if |nodes| == 0 then (if |edges| == 0 then Some(NewGraph(0)) else None)
    else Some(AddLines(NewGraph(|nodes|), IndexMap(nodes), edges))
  }

  /** The graph read has one node per node line, is valid and symmetric,
      and holds two adjacency entries per edge line. */
  lemma ReadGraph(nodes: seq<string>, edges: seq<string>)
    requires |nodes| > 0 || |edges| == 0
    ensures var r := Read(nodes, edges);
      && r.Some? && r.value.size == |nodes| && Valid(r.value) && Symmetric(r.value)
      && Entries(r.value) == 2 * |edges|
  {
    if |nodes| > 0 {
      AddLinesEdges(NewGraph(|nodes|), IndexMap(nodes), edges);
    }
  }

  /** An edge line between two names that are not node names becomes a
      self-loop at node 0. */
  lemma UnknownNamesLoopAtZero(nodes: seq<string>, a: string, b: string, weight: string)
    requires |nodes| > 0 && TAB !in a && TAB !in b && a !in nodes && b !in nodes
    ensures var r := Read(nodes, [a + [TAB] + b + [TAB] + weight]);
      && r.Some? && r.value.edge[0] == [0, 0]
      && forall v :: 0 < v < |nodes| ==> r.value.edge[v] == []
  {
    EndpointsOfLine(a, b, weight);
    var lines := [a + [TAB] + b + [TAB] + weight];
    assert lines[..0] == [];
    var m := IndexMap(nodes);
    var g := NewGraph(|nodes|);
    assert AddLines(g, m, lines) == AddEdge(g, 0, 0);
  }
}
