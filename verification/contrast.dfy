/** The contrast-pair tables of finite_contrast.cpp and
    directed_finite_contrast.cpp. For every positive edge (a, b), in the
    order of the adjacency lists, the constructor draws negative edges
    (c, d) uniformly from the list of all negative edges, rejects a draw that
    shares a node with (a, b), and records each accepted draw four times:
    (b, c, d, +1) at a, (a, c, d, +1) at b, (d, a, b, -1) at c and
    (c, a, b, -1) at d. The undirected model keeps one table; the directed
    one files the entries of a and c in an out-table and those of b and d
    in an in-table. After `sample_ratio` accepted draws it moves on to the
    next positive edge. Draws are an explicit input; running out of draws
    stands for a loop that has not finished. */
module Contrast {
  import opened Seqs

  /** `ContrastEdgePair`: a neighbour b, the contrasted edge (c, d) and the label, +1 or -1 (field `label` in the source). */
  datatype ContrastEdgePair = ContrastEdgePair(b: int, c: int, d: int, sign: int)

  type Rows = seq<seq<ContrastEdgePair>>

  /** The out-table (the only table of the undirected model) and the in-table. */
  datatype Tables = Tables(out: Rows, inRows: Rows)

  /** What the construction reads: n nodes, the positive edges in visiting
      order, the list of negative edges draws index into, and whether the
      graph is directed. */
  datatype Setting = Setting(n: nat, positive: seq<(int, int)>, negative: seq<(int, int)>, directed: bool)

  predicate PairsWithin(pairs: seq<(int, int)>, n: int)
  {
    forall k :: 0 <= k < |pairs| ==> 0 <= pairs[k].0 < n && 0 <= pairs[k].1 < n
  }

  predicate SettingOk(s: Setting)
  {
    PairsWithin(s.positive, s.n) && PairsWithin(s.negative, s.n)
  }

  /** `uniform_int_distribution(0, edge_list.size() - 1)`: every draw indexes
      the negative edge list. */
  predicate DrawsWithin(draws: seq<int>, m: int)
  {
    forall k :: 0 <= k < |draws| ==> 0 <= draws[k] < m
  }

  predicate TablesFit(t: Tables, n: nat)
  {
    |t.out| == n && |t.inRows| == n
  }

  function NewTables(n: nat): (t: Tables)
    ensures TablesFit(t, n)
    ensures forall x :: 0 <= x < n ==> |t.out[x]| == 0 && |t.inRows[x]| == 0
  {
    Tables(seq(n, _ => []), seq(n, _ => []))
  }

  /** The `edge_list` of the constructors: (x, y) for every y in lists[x],
      x ascending, in list order. */
  function EdgeList(lists: seq<seq<int>>): (r: seq<(int, int)>)
    ensures |r| == TotalLength(lists)
  {
    if |lists| == 0 then []
    else
      var x := |lists| - 1;
      EdgeList(lists[..x]) + seq(|lists[x]|, k requires 0 <= k < |lists[x]| => (x, lists[x][k]))
  }

  /** The edge list holds exactly the adjacency entries. */
  lemma {:induction false} EdgeListMembers(lists: seq<seq<int>>, x: int, y: int)
    ensures (x, y) in EdgeList(lists) <==> 0 <= x < |lists| && y in lists[x]
  {
    if |lists| > 0 {
      var last := |lists| - 1;
      var tail := seq(|lists[last]|, k requires 0 <= k < |lists[last]| => (last, lists[last][k]));
      EdgeListMembers(lists[..last], x, y);
      assert EdgeList(lists) == EdgeList(lists[..last]) + tail;
      if x == last && y in lists[x] {
        var k :| 0 <= k < |lists[x]| && lists[x][k] == y;
        assert tail[k] == (x, y);
      }
    }
  }

  /** Lists that name only nodes below n give pairs of nodes below n. */
  lemma EdgeListWithin(lists: seq<seq<int>>, n: int)
    requires |lists| <= n
    requires forall a, k :: 0 <= a < |lists| && 0 <= k < |lists[a]| ==> 0 <= lists[a][k] < n
    ensures PairsWithin(EdgeList(lists), n)
  {
    var pairs := EdgeList(lists);
    forall k | 0 <= k < |pairs|
      ensures 0 <= pairs[k].0 < n && 0 <= pairs[k].1 < n
    {
      EdgeListMembers(lists, pairs[k].0, pairs[k].1);
    }
  }

  function Push(rows: Rows, x: int, e: ContrastEdgePair): (r: Rows)
    requires 0 <= x < |rows|
    ensures |r| == |rows|
  {
    rows[x := rows[x] + [e]]
  }

  /** The four `push_back`s for an accepted draw (c, d) against the positive
      edge (a, b), in source order. */
  function Accept(s: Setting, t: Tables, a: int, b: int, c: int, d: int): (r: Tables)
    requires TablesFit(t, s.n) && 0 <= a < s.n && 0 <= b < s.n && 0 <= c < s.n && 0 <= d < s.n
    ensures TablesFit(r, s.n)
  {
    if s.directed then
      Tables(Push(Push(t.out, a, ContrastEdgePair(b, c, d, 1)), c, ContrastEdgePair(d, a, b, -1)),
             Push(Push(t.inRows, b, ContrastEdgePair(a, c, d, 1)), d, ContrastEdgePair(c, a, b, -1)))
    else
      Tables(Push(Push(Push(Push(t.out, a, ContrastEdgePair(b, c, d, 1)), b, ContrastEdgePair(a, c, d, 1)),
                       c, ContrastEdgePair(d, a, b, -1)), d, ContrastEdgePair(c, a, b, -1)),
             t.inRows)
  }

  /** A draw is rejected when the negative edge shares a node with (a, b). */
  predicate Rejected(a: int, b: int, c: int, d: int)
  {
    a == c || a == d || b == c || b == d
  }

  /** The `while (1)` loop for the positive edge (a, b), `cnt` draws already
      accepted: the tables and the unused draws once the count reaches the
      ratio, None if the draws run out first (in particular always when
      the ratio is below 1, as `++cnt == sample_ratio` then never holds). */
  function SamplePair(s: Setting, t: Tables, a: int, b: int, ratio: int, cnt: nat, draws: seq<int>)
    : (r: Option<(Tables, seq<int>)>)
    requires SettingOk(s) && TablesFit(t, s.n) && 0 <= a < s.n && 0 <= b < s.n
    requires DrawsWithin(draws, |s.negative|)
    ensures r.Some? ==> TablesFit(r.value.0, s.n) && DrawsWithin(r.value.1, |s.negative|)
    ensures r.Some? ==> |r.value.1| < |draws|
    decreases |draws|
  {
    if |draws| == 0 then None
    else
      var (c, d) := s.negative[draws[0]];
      if Rejected(a, b, c, d) then SamplePair(s, t, a, b, ratio, cnt, draws[1..])
      else
        var t' := Accept(s, t, a, b, c, d);
        if cnt + 1 == ratio then Some((t', draws[1..]))
        else SamplePair(s, t', a, b, ratio, cnt + 1, draws[1..])
  }

  /** The outer loops: every positive edge in turn. */
  function Build(s: Setting, t: Tables, pairs: seq<(int, int)>, ratio: int, draws: seq<int>)
    : (r: Option<(Tables, seq<int>)>)
    requires SettingOk(s) && TablesFit(t, s.n) && PairsWithin(pairs, s.n)
    requires DrawsWithin(draws, |s.negative|)
    ensures r.Some? ==> TablesFit(r.value.0, s.n) && DrawsWithin(r.value.1, |s.negative|)
    decreases |pairs|
  {
    if |pairs| == 0 then Some((t, draws))
    else
      match SamplePair(s, t, pairs[0].0, pairs[0].1, ratio, 0, draws)
      case None => None
      case Some((t', rest)) => Build(s, t', pairs[1..], ratio, rest)
  }

  /** The tables of a constructor: all positive edges, starting from empty
      tables. */
  function Tabulate(s: Setting, ratio: int, draws: seq<int>): (r: Option<Tables>)
    requires SettingOk(s) && DrawsWithin(draws, |s.negative|)
    ensures r.Some? ==> TablesFit(r.value, s.n)
  {
    match Build(s, NewTables(s.n), s.positive, ratio, draws)
    case None => None
    case Some((t, _)) => Some(t)
  }

  // ---------------------------------------------------------------------
  // Sizes

  /** Entries added per accepted draw to the out-table and to the in-table. */
  function OutPerDraw(directed: bool): nat { if directed then 2 else 4 }
  function InPerDraw(directed: bool): nat { if directed then 2 else 0 }

  lemma AcceptSizes(s: Setting, t: Tables, a: int, b: int, c: int, d: int)
    requires TablesFit(t, s.n) && 0 <= a < s.n && 0 <= b < s.n && 0 <= c < s.n && 0 <= d < s.n
    ensures TotalLength(Accept(s, t, a, b, c, d).out) == TotalLength(t.out) + OutPerDraw(s.directed)
    ensures TotalLength(Accept(s, t, a, b, c, d).inRows) == TotalLength(t.inRows) + InPerDraw(s.directed)
  {
    forall rows: Rows, x: int, e: ContrastEdgePair | 0 <= x < |rows|
      ensures TotalLength(Push(rows, x, e)) == TotalLength(rows) + 1
    {
      TotalLengthUpdate(rows, x, rows[x] + [e]);
    }
  }

  /** One positive edge adds exactly `ratio - cnt` accepted draws' worth of
      entries. */
  lemma {:induction false} SamplePairSizes(s: Setting, t: Tables, a: int, b: int, ratio: int, cnt: nat, draws: seq<int>)
    requires SettingOk(s) && TablesFit(t, s.n) && 0 <= a < s.n && 0 <= b < s.n
    requires DrawsWithin(draws, |s.negative|)
    ensures var r := SamplePair(s, t, a, b, ratio, cnt, draws);
      r.Some? ==>
        && cnt < ratio
        && TotalLength(r.value.0.out) == TotalLength(t.out) + OutPerDraw(s.directed) * (ratio - cnt)
        && TotalLength(r.value.0.inRows) == TotalLength(t.inRows) + InPerDraw(s.directed) * (ratio - cnt)
    decreases |draws|
  {
    if |draws| > 0 {
      var (c, d) := s.negative[draws[0]];
      if Rejected(a, b, c, d) {
        SamplePairSizes(s, t, a, b, ratio, cnt, draws[1..]);
      } else {
        var t' := Accept(s, t, a, b, c, d);
        AcceptSizes(s, t, a, b, c, d);
        if cnt + 1 != ratio {
          SamplePairSizes(s, t', a, b, ratio, cnt + 1, draws[1..]);
          var r := SamplePair(s, t', a, b, ratio, cnt + 1, draws[1..]);
          if r.Some? {
            MulStep(OutPerDraw(s.directed), ratio - cnt);
            MulStep(InPerDraw(s.directed), ratio - cnt);
          }
        }
      }
    }
  }

  /** The two inputs on which the source's loop has no result: a ratio the
      count has already reached or passed (`++cnt == sample_ratio` never
      holds again, so the source loops forever) and an empty negative edge
      list (the source draws from `dist_i(0, -1)` and reads `edge_list[i]`
      out of range). The model answers None on both, whatever the draws. */
  lemma {:induction false} SamplePairUndefined(s: Setting, t: Tables, a: int, b: int, ratio: int, cnt: nat, draws: seq<int>)
    requires SettingOk(s) && TablesFit(t, s.n) && 0 <= a < s.n && 0 <= b < s.n
    requires DrawsWithin(draws, |s.negative|)
    requires ratio <= cnt || |s.negative| == 0
    ensures SamplePair(s, t, a, b, ratio, cnt, draws).None?
    decreases |draws|
  {
    if |draws| > 0 {
      assert 0 <= draws[0] < |s.negative|;
      var (c, d) := s.negative[draws[0]];
      if Rejected(a, b, c, d) {
        SamplePairUndefined(s, t, a, b, ratio, cnt, draws[1..]);
      } else {
        SamplePairUndefined(s, Accept(s, t, a, b, c, d), a, b, ratio, cnt + 1, draws[1..]);
      }
    }
  }

  lemma MulStep(k: nat, m: int)
    ensures k * m == k * (m - 1) + k
  {
  }

  /** Each positive edge adds `ratio` accepted draws' worth of entries. */
  lemma {:induction false} BuildSizes(s: Setting, t: Tables, pairs: seq<(int, int)>, ratio: int, draws: seq<int>)
    requires SettingOk(s) && TablesFit(t, s.n) && PairsWithin(pairs, s.n)
    requires DrawsWithin(draws, |s.negative|)
    ensures var r := Build(s, t, pairs, ratio, draws);
      r.Some? ==>
        && TotalLength(r.value.0.out) == TotalLength(t.out) + OutPerDraw(s.directed) * ratio * |pairs|
        && TotalLength(r.value.0.inRows) == TotalLength(t.inRows) + InPerDraw(s.directed) * ratio * |pairs|
    decreases |pairs|
  {
    if |pairs| > 0 {
      var first := SamplePair(s, t, pairs[0].0, pairs[0].1, ratio, 0, draws);
      SamplePairSizes(s, t, pairs[0].0, pairs[0].1, ratio, 0, draws);
      if first.Some? {
        BuildSizes(s, first.value.0, pairs[1..], ratio, first.value.1);
        MulStep(OutPerDraw(s.directed) * ratio, |pairs|);
        MulStep(InPerDraw(s.directed) * ratio, |pairs|);
      }
    }
  }

  /** The finished tables hold 4 * ratio entries per positive edge; a
      directed construction splits them evenly between out- and in-table. */
  lemma TabulateSizes(s: Setting, ratio: int, draws: seq<int>)
    requires SettingOk(s) && DrawsWithin(draws, |s.negative|)
    ensures var r := Tabulate(s, ratio, draws);
      r.Some? ==>
        && TotalLength(r.value.out) + TotalLength(r.value.inRows) == 4 * ratio * |s.positive|
        && (s.directed ==> TotalLength(r.value.out) == TotalLength(r.value.inRows))
        && (!s.directed ==> TotalLength(r.value.inRows) == 0)
  {
    var t := NewTables(s.n);
    NoRows(t.out);
    NoRows(t.inRows);
    BuildSizes(s, t, s.positive, ratio, draws);
    PerDrawTotals(s.directed, ratio, |s.positive|);
  }

  /** The per-draw entry counts add up to 4, split evenly when directed. */
  lemma PerDrawTotals(directed: bool, ratio: int, p: int)
    ensures OutPerDraw(directed) * ratio * p + InPerDraw(directed) * ratio * p == 4 * ratio * p
    ensures directed ==> OutPerDraw(directed) * ratio * p == InPerDraw(directed) * ratio * p
    ensures !directed ==> InPerDraw(directed) * ratio * p == 0
  {
    var m := ratio * p;
    assert 4 * ratio * p == 4 * m && 2 * ratio * p == 2 * m && 0 * ratio * p == 0;
  }

  lemma {:induction false} NoRows(rows: Rows)
    requires forall x :: 0 <= x < |rows| ==> |rows[x]| == 0
    ensures TotalLength(rows) == 0
  {
    if |rows| > 0 {
      NoRows(rows[..|rows| - 1]);
    }
  }

  // ---------------------------------------------------------------------
  // Contents

  /** u and v are linked by the pair list: (u, v) is listed or, when the
      graph is undirected, (v, u) is. */
  predicate Linked(pairs: seq<(int, int)>, directed: bool, u: int, v: int)
  {
    (u, v) in pairs || (!directed && (v, u) in pairs)
  }

  /** An entry e at row x of the out-table (inSide false) or of the in-table
      is sound: its ids are nodes, the edge (c, d) shares no node with x or
      b, and a +1 entry pairs a positive edge between x and b with the
      negative edge (c, d), a -1 entry a negative edge between x and b with
      the positive edge (c, d). In the in-table the edge runs from b to x. */
  predicate EntryOk(s: Setting, inSide: bool, x: int, e: ContrastEdgePair)
  {
    && 0 <= e.b < s.n && 0 <= e.c < s.n && 0 <= e.d < s.n
    && !Rejected(x, e.b, e.c, e.d)
    && (e.sign == 1 || e.sign == -1)
    && var near := if e.sign == 1 then s.positive else s.negative;
       var far := if e.sign == 1 then s.negative else s.positive;
       && (if inSide then Linked(near, s.directed, e.b, x) else Linked(near, s.directed, x, e.b))
       && (e.c, e.d) in far
  }

  predicate RowsOk(s: Setting, inSide: bool, rows: Rows)
  {
    forall x, k :: 0 <= x < |rows| && 0 <= k < |rows[x]| ==> EntryOk(s, inSide, x, rows[x][k])
  }

  predicate TablesOk(s: Setting, t: Tables)
  {
    RowsOk(s, false, t.out) && RowsOk(s, true, t.inRows)
  }

  lemma PushOk(s: Setting, inSide: bool, rows: Rows, x: int, e: ContrastEdgePair)
    requires RowsOk(s, inSide, rows) && 0 <= x < |rows| && EntryOk(s, inSide, x, e)
    ensures RowsOk(s, inSide, Push(rows, x, e))
  {
  }

  /** The four entries of an accepted draw are sound. */
  lemma AcceptOk(s: Setting, t: Tables, a: int, b: int, c: int, d: int)
    requires TablesFit(t, s.n) && 0 <= a < s.n && 0 <= b < s.n && 0 <= c < s.n && 0 <= d < s.n
    requires TablesOk(s, t) && (a, b) in s.positive && (c, d) in s.negative && !Rejected(a, b, c, d)
    ensures TablesOk(s, Accept(s, t, a, b, c, d))
  {
    var ea, eb := ContrastEdgePair(b, c, d, 1), ContrastEdgePair(a, c, d, 1);
    var ec, ed := ContrastEdgePair(d, a, b, -1), ContrastEdgePair(c, a, b, -1);
    if s.directed {
      PushOk(s, false, t.out, a, ea);
      PushOk(s, false, Push(t.out, a, ea), c, ec);
      PushOk(s, true, t.inRows, b, eb);
      PushOk(s, true, Push(t.inRows, b, eb), d, ed);
    } else {
      var o1 := Push(t.out, a, ea);
      var o2 := Push(o1, b, eb);
      var o3 := Push(o2, c, ec);
      PushOk(s, false, t.out, a, ea);
      PushOk(s, false, o1, b, eb);
      PushOk(s, false, o2, c, ec);
      PushOk(s, false, o3, d, ed);
    }
  }

  lemma {:induction false} SamplePairOk(s: Setting, t: Tables, a: int, b: int, ratio: int, cnt: nat, draws: seq<int>)
    requires SettingOk(s) && TablesFit(t, s.n) && 0 <= a < s.n && 0 <= b < s.n
    requires DrawsWithin(draws, |s.negative|)
    requires TablesOk(s, t) && (a, b) in s.positive
    ensures var r := SamplePair(s, t, a, b, ratio, cnt, draws);
      r.Some? ==> TablesOk(s, r.value.0)
    decreases |draws|
  {
    if |draws| > 0 {
      var (c, d) := s.negative[draws[0]];
      if Rejected(a, b, c, d) {
        SamplePairOk(s, t, a, b, ratio, cnt, draws[1..]);
      } else {
        AcceptOk(s, t, a, b, c, d);
        if cnt + 1 != ratio {
          SamplePairOk(s, Accept(s, t, a, b, c, d), a, b, ratio, cnt + 1, draws[1..]);
        }
      }
    }
  }

  lemma {:induction false} BuildOk(s: Setting, t: Tables, pairs: seq<(int, int)>, ratio: int, draws: seq<int>)
    requires SettingOk(s) && TablesFit(t, s.n) && PairsWithin(pairs, s.n)
    requires DrawsWithin(draws, |s.negative|)
    requires TablesOk(s, t) && forall k :: 0 <= k < |pairs| ==> pairs[k] in s.positive
    ensures var r := Build(s, t, pairs, ratio, draws);
      r.Some? ==> TablesOk(s, r.value.0)
    decreases |pairs|
  {
    if |pairs| > 0 {
      SamplePairOk(s, t, pairs[0].0, pairs[0].1, ratio, 0, draws);
      var first := SamplePair(s, t, pairs[0].0, pairs[0].1, ratio, 0, draws);
      if first.Some? {
        BuildOk(s, first.value.0, pairs[1..], ratio, first.value.1);
      }
    }
  }

  /** Every entry of the finished tables is sound. */
  lemma TabulateOk(s: Setting, ratio: int, draws: seq<int>)
    requires SettingOk(s) && DrawsWithin(draws, |s.negative|)
    ensures var r := Tabulate(s, ratio, draws);
      r.Some? ==> TablesOk(s, r.value)
  {
    BuildOk(s, NewTables(s.n), s.positive, ratio, draws);
  }

  // ---------------------------------------------------------------------
  // Termination of the rejection loop

  /** None of the draws is rejected for the positive edge (a, b). */
  predicate NoneRejected(s: Setting, draws: seq<int>, a: int, b: int)
    requires DrawsWithin(draws, |s.negative|)
  {
    forall k :: 0 <= k < |draws| ==> !Rejected(a, b, s.negative[draws[k]].0, s.negative[draws[k]].1)
  }

  /** With no rejections, one positive edge consumes exactly `ratio - cnt`
      draws. */
  lemma {:induction false} SamplePairTakes(s: Setting, t: Tables, a: int, b: int, ratio: int, cnt: nat, draws: seq<int>)
    requires SettingOk(s) && TablesFit(t, s.n) && 0 <= a < s.n && 0 <= b < s.n
    requires DrawsWithin(draws, |s.negative|)
    requires cnt < ratio <= cnt + |draws| && NoneRejected(s, draws, a, b)
    ensures var r := SamplePair(s, t, a, b, ratio, cnt, draws);
      r.Some? && r.value.1 == draws[ratio - cnt..]
    decreases |draws|
  {
    var (c, d) := s.negative[draws[0]];
    assert !Rejected(a, b, c, d);
    if cnt + 1 != ratio {
      var t' := Accept(s, t, a, b, c, d);
      assert NoneRejected(s, draws[1..], a, b);
      SamplePairTakes(s, t', a, b, ratio, cnt + 1, draws[1..]);
      assert draws[1..][ratio - (cnt + 1)..] == draws[ratio - cnt..];
    }
  }

  /** With a ratio of at least 1 and no rejections, `ratio` draws per
      positive edge are enough for the construction to finish. */
  lemma {:induction false} BuildFinishes(s: Setting, t: Tables, pairs: seq<(int, int)>, ratio: int, draws: seq<int>)
    requires SettingOk(s) && TablesFit(t, s.n) && PairsWithin(pairs, s.n)
    requires DrawsWithin(draws, |s.negative|)
    requires ratio >= 1 && ratio * |pairs| <= |draws|
    requires forall k :: 0 <= k < |pairs| ==> NoneRejected(s, draws, pairs[k].0, pairs[k].1)
    ensures Build(s, t, pairs, ratio, draws).Some?
    decreases |pairs|
  {
    if |pairs| > 0 {
      MulStep(ratio, |pairs|);
      SamplePairTakes(s, t, pairs[0].0, pairs[0].1, ratio, 0, draws);
      var first := SamplePair(s, t, pairs[0].0, pairs[0].1, ratio, 0, draws);
      var rest := draws[ratio..];
      forall k | 0 <= k < |pairs[1..]|
        ensures NoneRejected(s, rest, pairs[1..][k].0, pairs[1..][k].1)
      {
        assert NoneRejected(s, draws, pairs[k + 1].0, pairs[k + 1].1);
        forall j | 0 <= j < |rest|
          ensures !Rejected(pairs[k + 1].0, pairs[k + 1].1, s.negative[rest[j]].0, s.negative[rest[j]].1)
        {
          assert rest[j] == draws[ratio + j];
        }
      }
      BuildFinishes(s, first.value.0, pairs[1..], ratio, rest);
    }
  }
}
