/** What structuring does to a control-flow graph, as values: the blocks of the top level, the edges between them,
    and a measure that every structuring step makes smaller. */
module Shapes {

  import opened Flow
  import opened Quotient
  import opened Deduplication
  import opened Identify
  import opened MovedLabels

  /** The properties of a block that the structuring rules read or set. */
  datatype Facts = Facts(switchOut: bool, multiGoto: bool, defaultGoto: bool, interiorGotoIn: bool,
                         interiorGotoOut: bool, complex: bool)

  /** All edges, the blocks of the top level in order, and the properties of every block. */
  datatype Shape = Shape(g: Graph, list: seq<nat>, facts: seq<Facts>)

  /** Edges pair up, the top-level blocks are distinct, and their edges lead to one another. */
  ghost predicate Sound(s: Shape) {
    && Paired(s.g) && |s.g.ins| == |s.g.outs| == |s.facts|
    && (forall i :: 0 <= i < |s.list| ==> s.list[i] < |s.g.ins|)
    && (forall i, j :: 0 <= i < j < |s.list| ==> s.list[i] != s.list[j])
    && forall b: nat :: b in s.list ==> Inside(s.g.ins[b], Members(s.list)) && Inside(s.g.outs[b], Members(s.list))
  }

  /** Only switches have more than two ways out. */
  ghost predicate Narrow(s: Shape) {
    forall b: nat :: b in s.list && b < |s.g.outs| && b < |s.facts| ==> |s.g.outs[b]| <= 2 || s.facts[b].switchOut
  }

  /** Every edge that leads to one of the nodes, but not to the first, comes from one of them and is no goto. */
  ghost predicate SingleEntry(s: Shape, nodes: seq<nat>) {
    forall x: nat, k: nat :: OutSlot(s.g, x, k) && s.g.outs[x][k].point in nodes ==>
        s.g.outs[x][k].point == nodes[0] || (x in nodes && !Goto(s.g.outs[x][k]))
  }

  /** How a block was built: from these nodes of the shape there was before. */
  datatype Composite = Composite(before: Shape, nodes: seq<nat>)

  /** The blocks from first up to n were built one after the other, each from nodes with a single entry. */
  ghost predicate Recorded(made: seq<Composite>, first: nat, n: nat) {
    && n == first + |made|
    && forall i :: 0 <= i < |made| ==> |made[i].before.g.ins| == first + i && SingleEntry(made[i].before, made[i].nodes)
  }

  // ---------- sums over lists of blocks ----------

  ghost predicate InRange(list: seq<nat>, n: nat) {
    forall i :: 0 <= i < |list| ==> list[i] < n
  }

  ghost function Total(list: seq<nat>, w: seq<nat>): nat
    requires InRange(list, |w|)
  {
    if list == [] then 0 else Total(list[..|list| - 1], w) + w[list[|list| - 1]]
  }

  ghost function Only(list: seq<nat>, s: set<nat>): seq<nat> {
    if list == [] then []
    else Only(list[..|list| - 1], s) + if list[|list| - 1] in s then [list[|list| - 1]] else []
  }

  lemma {:induction false} TotalAppend(list: seq<nat>, x: nat, w: seq<nat>)
    requires InRange(list, |w|) && x < |w|
    ensures InRange(list + [x], |w|) && Total(list + [x], w) == Total(list, w) + w[x]
  {
    assert (list + [x])[..|list|] == list;
  }

  lemma {:induction false} SplitMembers(list: seq<nat>, s: set<nat>)
    ensures forall b: nat :: b in Without(list, s) <==> b in list && b !in s
    ensures forall b: nat :: b in Only(list, s) <==> b in list && b in s
    ensures |list| == |Without(list, s)| + |Only(list, s)|
  {
    if list != [] {
      var rest := list[..|list| - 1];
      SplitMembers(rest, s);
      assert list == rest + [list[|list| - 1]];
    }
  }

  lemma SplitInRange(list: seq<nat>, s: set<nat>, n: nat)
    requires InRange(list, n)
    ensures InRange(Without(list, s), n) && InRange(Only(list, s), n)
  {
    SplitMembers(list, s);
    forall i | 0 <= i < |Without(list, s)| ensures Without(list, s)[i] < n {
      assert Without(list, s)[i] in Without(list, s);
    }
    forall i | 0 <= i < |Only(list, s)| ensures Only(list, s)[i] < n {
      assert Only(list, s)[i] in Only(list, s);
    }
  }

  lemma {:induction false} TotalSplit(list: seq<nat>, s: set<nat>, w: seq<nat>)
    requires InRange(list, |w|)
    ensures InRange(Without(list, s), |w|) && InRange(Only(list, s), |w|)
    ensures Total(list, w) == Total(Without(list, s), w) + Total(Only(list, s), w)
  {
    SplitInRange(list, s, |w|);
    if list != [] {
      var rest, x := list[..|list| - 1], list[|list| - 1];
      TotalSplit(rest, s, w);
      if x in s {
        assert Without(list, s) == Without(rest, s);
        TotalAppend(Only(rest, s), x, w);
      } else {
        assert Only(list, s) == Only(rest, s);
        TotalAppend(Without(rest, s), x, w);
      }
    }
  }

  lemma {:induction false} TotalLe(list: seq<nat>, w: seq<nat>, v: seq<nat>)
    requires InRange(list, |w|) && InRange(list, |v|) && forall b: nat :: b in list ==> w[b] <= v[b]
    ensures Total(list, w) <= Total(list, v)
  {
    if list != [] {
      assert list[|list| - 1] in list;
      TotalLe(list[..|list| - 1], w, v);
    }
  }

  lemma {:induction false} TotalLess(list: seq<nat>, w: seq<nat>, v: seq<nat>, x: nat)
    requires InRange(list, |w|) && InRange(list, |v|) && (forall b: nat :: b in list ==> w[b] <= v[b]) && x in list &&
               w[x] < v[x]
    ensures Total(list, w) < Total(list, v)
  {
    var rest := list[..|list| - 1];
    assert list[|list| - 1] in list && list == rest + [list[|list| - 1]];
    if x == list[|list| - 1] { TotalLe(rest, w, v); } else { TotalLess(rest, w, v, x); }
  }

  lemma {:induction false} TotalSame(list: seq<nat>, w: seq<nat>, v: seq<nat>)
    requires InRange(list, |w|) && InRange(list, |v|) && forall b: nat :: b in list ==> w[b] == v[b]
    ensures Total(list, w) == Total(list, v)
  {
    TotalLe(list, w, v);
    TotalLe(list, v, w);
  }

  lemma {:induction false} TotalHas(list: seq<nat>, w: seq<nat>, x: nat)
    requires InRange(list, |w|) && x in list
    ensures Total(list, w) >= w[x]
  {
    var rest := list[..|list| - 1];
    assert list == rest + [list[|list| - 1]];
    if x != list[|list| - 1] { TotalHas(rest, w, x); }
  }

  // ---------- the measure ----------

  ghost function Degrees(g: Graph): seq<nat> {
    seq(|g.outs|, b requires 0 <= b < |g.outs| => |g.outs[b]|)
  }

  ghost function SwitchWeights(facts: seq<Facts>): seq<nat> {
    seq(|facts|, b requires 0 <= b < |facts| => if facts[b].switchOut then 1 else 0)
  }

  /** How many edges of the row are not marked goto. */
  ghost function Unmarked(row: seq<Edge>): nat {
    if row == [] then 0 else Unmarked(row[..|row| - 1]) + if GotoEdge in row[|row| - 1].flags then 0 else 1
  }

  ghost function UnmarkedWeights(g: Graph): seq<nat> {
    seq(|g.outs|, b requires 0 <= b < |g.outs| => Unmarked(g.outs[b]))
  }

  /** Blocks and edges of the top level. */
  ghost function Size(s: Shape): nat
    requires Sound(s)
  {
    |s.list| + Total(s.list, Degrees(s.g))
  }

  ghost function Switches(s: Shape): nat
    requires Sound(s)
  {
    Total(s.list, SwitchWeights(s.facts))
  }

  ghost function UnmarkedEdges(s: Shape): nat
    requires Sound(s)
  {
    Total(s.list, UnmarkedWeights(s.g))
  }

  /** Fewer blocks and edges; or as many, and fewer switches; or as many of those, and fewer edges not marked goto. */
  ghost predicate Smaller(t: Shape, s: Shape)
    requires Sound(t) && Sound(s)
  {
    || Size(t) < Size(s)
    || (Size(t) == Size(s) && Switches(t) < Switches(s))
    || (Size(t) == Size(s) && Switches(t) == Switches(s) && UnmarkedEdges(t) < UnmarkedEdges(s))
  }

  lemma SmallerTransitive(u: Shape, t: Shape, s: Shape)
    requires Sound(u) && Sound(t) && Sound(s) && (u == t || Smaller(u, t)) && (t == s || Smaller(t, s))
    ensures u == s || Smaller(u, s)
    ensures Smaller(u, t) || Smaller(t, s) ==> Smaller(u, s)
  {
  }

  // ---------- what collapsing leaves of the other rows ----------

  /** How many edges of a row do not lead to the side. */
  ghost function Off(row: seq<Edge>, s: Side): nat {
    if row == [] then 0 else Off(row[..|row| - 1], s) + if On(row[|row| - 1].point, s) then 0 else 1
  }

  lemma {:induction false} KeptAndOff(row: seq<Edge>, s: Side)
    ensures |row| == |Kept(row, s)| + Off(row, s)
  {
    if row != [] { KeptAndOff(row[..|row| - 1], s); }
  }

  lemma {:induction false} OffPositive(row: seq<Edge>, s: Side, p: nat)
    requires Leads(row, p) && !On(p, s)
    ensures Off(row, s) >= 1
  {
    var i :| 0 <= i < |row| && row[i].point == p;
    if i < |row| - 1 {
      assert row[..|row| - 1][i].point == p;
      OffPositive(row[..|row| - 1], s, p);
    }
  }

  /** A row with at most one edge off the side, to p. */
  lemma {:induction false} OffAtMostOne(row: seq<Edge>, s: Side, p: nat)
    requires AtMostOnce(row, p) && forall i :: 0 <= i < |row| && !On(row[i].point, s) ==> row[i].point == p
    ensures Off(row, s) <= 1 && (Off(row, s) == 1 ==> Leads(row, p))
  {
    if row != [] {
      var rest := row[..|row| - 1];
      OffAtMostOne(rest, s, p);
      if Off(rest, s) == 1 {
        var i :| 0 <= i < |rest| && rest[i].point == p;
        assert row[i].point == p;
      }
      if !On(row[|row| - 1].point, s) { assert row[|row| - 1].point == p; }
    }
  }

  /** No row of a block outside gets longer. */
  lemma OtherRowsShrink(g: Graph, h: Graph, comp: set<nat>, ident: nat, y: nat)
    requires Collapsed(g, h, comp, ident) && Paired(h) && Paired(g) && y < |g.outs| && y !in comp && y != ident
    ensures |h.outs[y]| <= |g.outs[y]| && |h.ins[y]| <= |g.ins[y]|
  {
    OtherRowShrinks(g, h, comp, ident, y);
    PairedFlip(g);
    PairedFlip(h);
    OtherRowShrinks(Flip(g), Flip(h), comp, ident, y);
  }

  lemma OtherRowShrinks(g: Graph, h: Graph, comp: set<nat>, ident: nat, y: nat)
    requires Collapsed(g, h, comp, ident) && Paired(h) && Paired(g) && y < |g.outs| && y !in comp && y != ident
    ensures |h.outs[y]| <= |g.outs[y]|
  {
    var s := Side(comp + {ident}, false);
    KeptAndOff(g.outs[y], s);
    KeptAndOff(h.outs[y], s);
    forall k: nat | k < |h.outs[y]| && !On(h.outs[y][k].point, s) ensures h.outs[y][k].point == ident {
      assert OutSlot(h, y, k) && OutPaired(h, y, k);
      var c := h.outs[y][k].point;
      assert c in comp ==> Inside(h.ins[c], comp);
    }
    OneEdgeEachWay(h, y, ident);
    OffAtMostOne(h.outs[y], s, ident);
    if Off(h.outs[y], s) == 1 {
      LeadsBack(h, y, ident);
      assert GroupLeads(g.ins, comp, y);
      var c: nat :| c in comp && c < |g.ins| && Leads(g.ins[c], y);
      LeadsForth(g, y, c);
      OffPositive(g.outs[y], s, c);
    }
  }

  lemma LeadsBack(g: Graph, y: nat, p: nat)
    requires Paired(g) && y < |g.outs| && Leads(g.outs[y], p)
    ensures p < |g.ins| && Leads(g.ins[p], y)
  {
    var k: nat :| k < |g.outs[y]| && g.outs[y][k].point == p;
    assert OutPaired(g, y, k);
    SlotLeads(g.ins[p], g.outs[y][k].rev);
  }

  lemma LeadsForth(g: Graph, y: nat, p: nat)
    requires Paired(g) && p < |g.ins| && Leads(g.ins[p], y)
    ensures y < |g.outs| && Leads(g.outs[y], p)
  {
    var i: nat :| i < |g.ins[p]| && g.ins[p][i].point == y;
    assert InPaired(g, p, i);
    SlotLeads(g.outs[y], g.ins[p][i].rev);
  }

  /** At most one edge from y to p, seen from either end. */
  lemma OneEdgeEachWay(g: Graph, y: nat, p: nat)
    requires Paired(g) && y < |g.outs| && p < |g.ins| && AtMostOnce(g.ins[p], y)
    ensures AtMostOnce(g.outs[y], p)
  {
    forall i: nat, j: nat | i < j < |g.outs[y]| ensures !(g.outs[y][i].point == p && g.outs[y][j].point == p) {
      assert OutPaired(g, y, i) && OutPaired(g, y, j);
    }
  }

  /** A row with no two edges to the same block fits in any list with all its ends. */
  lemma {:induction false} RowFits(row: seq<Edge>, ends: seq<nat>)
    requires (forall p: nat :: AtMostOnce(row, p)) && forall i :: 0 <= i < |row| ==> row[i].point in ends
    ensures |row| <= |ends|
    decreases |row|
  {
    if row != [] {
      var rest, p := row[..|row| - 1], row[|row| - 1].point;
      var i :| 0 <= i < |ends| && ends[i] == p;
      var others := ends[..i] + ends[i + 1..];
      forall q: nat ensures AtMostOnce(rest, q) {
        assert AtMostOnce(row, q);
      }
      forall k | 0 <= k < |rest| ensures rest[k].point in others {
        assert AtMostOnce(row, p) && row[k].point != p;
        var j :| 0 <= j < |ends| && ends[j] == row[k].point;
        assert others[if j < i then j else j - 1] == row[k].point;
      }
      RowFits(rest, others);
    }
  }

  // ---------- a new block in place of some others ----------

  /** Room for one more block. */
  function Bigger(g: Graph): Graph {
    Graph(g.ins + [[]], g.outs + [[]])
  }

  lemma BiggerPaired(g: Graph)
    requires Paired(g)
    ensures Paired(Bigger(g))
  {
    var h := Bigger(g);
    forall y: nat, i: nat | InSlot(h, y, i) ensures InPaired(h, y, i) {
      assert InSlot(g, y, i) && InPaired(g, y, i);
    }
    forall y: nat, k: nat | OutSlot(h, y, k) ensures OutPaired(h, y, k) {
      assert OutSlot(g, y, k) && OutPaired(g, y, k);
    }
  }

  /** Edges from b back into itself, until it has k ways out. */
  ghost function Forced(g: Graph, b: nat, k: nat): Graph
    requires |g.ins| == |g.outs| && b < |g.outs|
    decreases k - |g.outs[b]|
  {
    if |g.outs[b]| >= k then g else Forced(AddEdge(g, b, b, {LoopEdge, BackEdge}), b, k)
  }

  lemma {:induction false} ForcedRows(g: Graph, b: nat, k: nat)
    requires Paired(g) && |g.ins| == |g.outs| && b < |g.outs|
    ensures var h := Forced(g, b, k);
      && Paired(h) && |h.ins| == |h.outs| == |g.ins| && |h.outs[b]| == (if |g.outs[b]| < k then k else |g.outs[b]|)
      && (forall y: nat :: y < |g.ins| && y != b ==> h.ins[y] == g.ins[y] && h.outs[y] == g.outs[y])
      && g.outs[b] <= h.outs[b] && g.ins[b] <= h.ins[b]
      && (forall i :: |g.outs[b]| <= i < |h.outs[b]| ==>
            h.outs[b][i].point == b && h.outs[b][i].flags == {LoopEdge, BackEdge})
      && (forall i :: |g.ins[b]| <= i < |h.ins[b]| ==>
            h.ins[b][i].point == b && h.ins[b][i].flags == {LoopEdge, BackEdge})
    decreases k - |g.outs[b]|
  {
    if |g.outs[b]| < k {
      PairedAdd(g, b, b, {LoopEdge, BackEdge});
      ForcedRows(AddEdge(g, b, b, {LoopEdge, BackEdge}), b, k);
    }
  }

  /** A block of comp with the switch property has an edge out of comp. */
  ghost predicate SwitchPasses(s: Shape, comp: set<nat>) {
    exists n: nat :: n in comp && n < |s.facts| && n < |s.g.outs| && s.facts[n].switchOut && !Inside(s.g.outs[n], comp)
  }

  /** The properties the new block takes over from its components. */
  ghost predicate Inherits(s: Shape, comp: set<nat>, f: Facts) {
    && (f.switchOut <==> SwitchPasses(s, comp))
    && (f.interiorGotoIn <==> exists n: nat :: n in comp && n < |s.facts| && s.facts[n].interiorGotoIn)
    && (f.interiorGotoOut <==> exists n: nat :: n in comp && n < |s.facts| && s.facts[n].interiorGotoOut)
  }

  /** t is s with the blocks of comp collapsed into a new block that has at least k ways out. */
  ghost predicate Super(s: Shape, t: Shape, comp: set<nat>, k: nat) {
    var ret := |s.g.ins|;
    && Sound(s) && comp <= Members(s.list) && comp != {}
    && |t.facts| == ret + 1 && (forall b :: 0 <= b < ret ==> t.facts[b] == s.facts[b]) &&
       Inherits(s, comp, t.facts[ret])
    && t.list == Without(s.list, comp) + [ret]
    && exists h: Graph :: SuperGraph(s.g, t.g, comp, k, h)
  }

  ghost predicate SuperGraph(g: Graph, g': Graph, comp: set<nat>, k: nat, h: Graph) {
    |g.ins| == |g.outs| && Paired(h) && Collapsed(Bigger(g), h, comp, |g.ins|) && g' == Forced(h, |g.ins|, k)
  }

  /** The labels of the edges of the block built: those to and from other blocks have them from the edges of the nodes,
      and an edge back into the block is a loop edge and a back edge. */
  ghost predicate Labelled(s: Shape, t: Shape, nodes: seq<nat>) {
    var ret := |s.g.ins|;
    && LabelsTaken(Bigger(s.g), t.g, nodes, ret)
    && (forall i :: 0 <= i < |t.g.ins[ret]| && t.g.ins[ret][i].point == ret ==>
          t.g.ins[ret][i].flags == {LoopEdge, BackEdge})
    && forall k :: 0 <= k < |t.g.outs[ret]| && t.g.outs[ret][k].point == ret ==>
         t.g.outs[ret][k].flags == {LoopEdge, BackEdge}
  }

  /** h has more edges from b to itself, at the end of the rows. */
  ghost predicate OnlyLoopsMore(g: Graph, h: Graph, b: nat) {
    && Paired(g) && Paired(h) && |h.ins| == |h.outs| == |g.ins| == |g.outs| && b < |g.ins|
    && (forall y: nat :: y < |g.ins| && y != b ==> h.ins[y] == g.ins[y] && h.outs[y] == g.outs[y])
    && g.ins[b] <= h.ins[b] && g.outs[b] <= h.outs[b]
    && (forall i :: |g.ins[b]| <= i < |h.ins[b]| ==> h.ins[b][i].point == b)
    && forall i :: |g.outs[b]| <= i < |h.outs[b]| ==> h.outs[b][i].point == b
  }

  lemma LoopsAppended(g: Graph, h: Graph, b: nat) returns (more: seq<Labels>)
    requires OnlyLoopsMore(g, h, b)
    ensures InLabels(h, b) == InLabels(g, b) + more && forall i :: 0 <= i < |more| ==> more[i].end == b
  {
    more := InLabels(h, b)[|g.ins[b]|..];
    forall i: nat | i < |g.ins[b]| ensures InLabels(h, b)[i] == InLabels(g, b)[i] {
      assert InSlot(g, b, i) && InPaired(g, b, i) && InSlot(h, b, i) && InPaired(h, b, i);
      assert h.ins[b][i] == g.ins[b][i];
    }
  }

  lemma LoopsApart(g: Graph, h: Graph, b: nat)
    requires OnlyLoopsMore(g, h, b)
    ensures forall p: nat :: p != b ==> Deduplication.Only(InLabels(h, b), p) == Deduplication.Only(InLabels(g, b), p)
  {
    var more := LoopsAppended(g, h, b);
    hide Deduplication.Only, OnlyLoopsMore;
    forall p: nat | p != b ensures Deduplication.Only(InLabels(h, b), p) == Deduplication.Only(InLabels(g, b), p) {
      OnlyAppend(InLabels(g, b), more, p);
      OnlyNone(more, p);
    }
  }

  lemma ForcedLabels(g: Graph, b: nat, k: nat)
    requires Paired(g) && |g.ins| == |g.outs| && b < |g.outs|
    ensures var h := Forced(g, b, k);
      && Paired(h) && |h.ins| == |h.outs| == |g.ins|
      && forall p: nat :: p != b ==>
         Deduplication.Only(InLabels(h, b), p) == Deduplication.Only(InLabels(g, b), p)
         && Deduplication.Only(OutLabels(h, b), p) == Deduplication.Only(OutLabels(g, b), p)
  {
    hide Forced, Deduplication.Only, InLabels, OutLabels;
    ForcedRows(g, b, k);
    var h := Forced(g, b, k);
    PairedFlip(g);
    PairedFlip(h);
    hide Paired;
    LoopsApart(g, h, b);
    LoopsApart(Flip(g), Flip(h), b);
    LabelsFlip(g, b);
    LabelsFlip(h, b);
  }

  /** Forced edges come after the others. */
  lemma ForcedLabelled(s: Shape, m: Shape, t: Shape, nodes: seq<nat>, k: nat)
    requires Labelled(s, m, nodes) && t.g == Forced(m.g, |s.g.ins|, k)
    ensures Labelled(s, t, nodes)
  {
    hide Paired, Forced, Deduplication.Only, Merged, InLabels, OutLabels, FlagsInto;
    ForcedLabels(m.g, |s.g.ins|, k);
    ForcedRows(m.g, |s.g.ins|, k);
  }

  lemma UnforcedLabelled(s: Shape, m: Shape, nodes: seq<nat>)
    requires LabelsTaken(Bigger(s.g), m.g, nodes, |s.g.ins|)
    requires !Leads(m.g.ins[|s.g.ins|], |s.g.ins|) && !Leads(m.g.outs[|s.g.ins|], |s.g.ins|)
    ensures Labelled(s, m, nodes)
  {
  }

  /** The blocks outside comp that comp has an edge to. */
  ghost predicate Outer(s: Shape, comp: set<nat>, p: nat) {
    p !in comp && GroupLeads(s.g.outs, comp, p)
  }

  lemma BiggerLeads(rows: Adj, comp: set<nat>, p: nat)
    ensures GroupLeads(rows + [[]], comp, p) <==> GroupLeads(rows, comp, p)
  {
    if GroupLeads(rows, comp, p) {
      var b: nat :| b in comp && b < |rows| && Leads(rows[b], p);
      assert Leads((rows + [[]])[b], p);
    }
    if GroupLeads(rows + [[]], comp, p) {
      var b: nat :| b in comp && b < |rows + [[]]| && Leads((rows + [[]])[b], p);
      assert b < |rows|;
      assert Leads(rows[b], p);
    }
  }

  /** Another block leads to the new block, or where it led before. */
  lemma OtherTarget(g: Graph, h: Graph, comp: set<nat>, ident: nat, y: nat, p: nat)
    requires Collapsed(g, h, comp, ident) && Paired(h) && y < |h.outs| && y !in comp && y != ident &&
               Leads(h.outs[y], p)
    ensures p == ident || (p !in comp && Leads(g.outs[y], p))
  {
    hide Paired, Collapsed, Kept, Leads, Inside;
    LeadsBack(h, y, p);
    CollapsedRows(g, h, comp, ident, y, p);
    if p in comp { InsideLeads(h.ins[p], comp, y); }
    if p !in comp && p != ident {
      var s := Side(comp + {ident}, false);
      KeptLeads(h.outs[y], s, p);
      KeptLeads(g.outs[y], s, p);
    }
  }

  lemma InsideLeads(row: seq<Edge>, comp: set<nat>, p: nat)
    requires Inside(row, comp) && Leads(row, p)
    ensures p in comp
  {
  }

  lemma CollapsedRows(g: Graph, h: Graph, comp: set<nat>, ident: nat, y: nat, p: nat)
    requires Collapsed(g, h, comp, ident) && y < |h.outs| && y !in comp && y != ident
    ensures y < |g.outs| && Kept(h.outs[y], Side(comp + {ident}, false)) == Kept(g.outs[y], Side(comp + {ident}, false))
    ensures p in comp ==> p < |h.ins| && Inside(h.ins[p], comp)
  {
    hide Kept, Leads, Inside, AtMostOnce, GroupLeads;
    assert On(y, Side(comp + {ident}, false));
  }

  /** Neighbours of the other blocks stay among the other blocks and the new one. */
  lemma OthersInside(g: Graph, h: Graph, list: seq<nat>, comp: set<nat>, ident: nat, y: nat)
    requires Collapsed(g, h, comp, ident) && Paired(h) && y < |h.outs| && y < |g.outs| && y !in comp && y != ident
    requires Inside(g.outs[y], Members(list))
    ensures Inside(h.outs[y], Members(list) - comp + {ident})
  {
    hide Collapsed, Paired;
    forall k: nat | k < |h.outs[y]| ensures h.outs[y][k].point in Members(list) - comp + {ident} {
      SlotLeads(h.outs[y], k);
      OtherTarget(g, h, comp, ident, y, h.outs[y][k].point);
    }
  }

  /** Both rows of the new block: outer neighbours of comp, then edges back into itself. */
  lemma NewRow(s: Shape, h: Graph, comp: set<nat>, k: nat, t: Graph)
    requires Sound(s) && comp <= Members(s.list) && SuperGraph(s.g, t, comp, k, h)
    ensures var ret := |s.g.ins|;
      && Paired(t) && |t.ins| == |t.outs| == ret + 1
      && (forall y: nat :: y < ret ==> t.ins[y] == h.ins[y] && t.outs[y] == h.outs[y])
      && Inside(t.ins[ret], Members(s.list) - comp + {ret}) && Inside(t.outs[ret], Members(s.list) - comp + {ret})
      && |t.outs[ret]| == (if |h.outs[ret]| < k then k else |h.outs[ret]|)
      && (forall p: nat :: Leads(h.outs[ret], p) <==> Outer(s, comp, p))
      && (forall p: nat :: p != ret ==> (Leads(t.outs[ret], p) <==> Outer(s, comp, p)))
      && (forall p: nat :: AtMostOnce(h.outs[ret], p))
  {
    var ret := |s.g.ins|;
    ForcedRows(h, ret, k);
    forall p: nat ensures Leads(h.outs[ret], p) <==> Outer(s, comp, p) {
      BiggerLeads(s.g.outs, comp, p);
      if Outer(s, comp, p) { GroupInside(s, comp, p); }
    }
    forall p: nat ensures Leads(h.ins[ret], p) ==> p in Members(s.list) && p !in comp {
      BiggerLeads(s.g.ins, comp, p);
      if p !in comp && GroupLeads(s.g.ins, comp, p) { GroupInside(s, comp, p); }
    }
    hide Collapsed, Paired;
    forall i | 0 <= i < |t.outs[ret]| ensures t.outs[ret][i].point in Members(s.list) - comp + {ret} {
      if i < |h.outs[ret]| {
        SlotLeads(h.outs[ret], i);
        GroupInside(s, comp, h.outs[ret][i].point);
      }
    }
    forall i | 0 <= i < |t.ins[ret]| ensures t.ins[ret][i].point in Members(s.list) - comp + {ret} {
      if i < |h.ins[ret]| { SlotLeads(h.ins[ret], i); }
    }
    forall p: nat | p != ret ensures Leads(t.outs[ret], p) <==> Leads(h.outs[ret], p) {
      PrefixLeads(h.outs[ret], t.outs[ret], ret, p);
    }
  }

  lemma PrefixLeads(a: seq<Edge>, b: seq<Edge>, self: nat, p: nat)
    requires a <= b && p != self && forall i :: |a| <= i < |b| ==> b[i].point == self
    ensures Leads(b, p) <==> Leads(a, p)
  {
    if Leads(a, p) {
      var i :| 0 <= i < |a| && a[i].point == p;
      assert b[i].point == p;
    }
  }

  /** Neighbours of top-level blocks are top-level blocks. */
  lemma GroupInside(s: Shape, comp: set<nat>, p: nat)
    requires Sound(s) && comp <= Members(s.list)
    ensures GroupLeads(s.g.outs, comp, p) || GroupLeads(s.g.ins, comp, p) ==> p in Members(s.list)
  {
    if GroupLeads(s.g.outs, comp, p) {
      var b: nat :| b in comp && b < |s.g.outs| && Leads(s.g.outs[b], p);
      InsideLeads(s.g.outs[b], Members(s.list), p);
    }
    if GroupLeads(s.g.ins, comp, p) {
      var b: nat :| b in comp && b < |s.g.ins| && Leads(s.g.ins[b], p);
      InsideLeads(s.g.ins[b], Members(s.list), p);
    }
  }

  /** The new top level is sound; the other blocks have no more edges than before. */
  lemma SuperFacts(s: Shape, t: Shape, comp: set<nat>, k: nat)
    requires Super(s, t, comp, k)
    ensures Sound(t) && |t.g.outs| == |s.g.outs| + 1
    ensures forall y: nat :: y in s.list && y !in comp ==> y < |s.g.outs| && |t.g.outs[y]| <= |s.g.outs[y]|
    ensures forall p: nat :: p != |s.g.ins| ==> (Leads(t.g.outs[|s.g.ins|], p) <==> Outer(s, comp, p))
    ensures |t.g.outs[|s.g.ins|]| >= k
  {
    var ret := |s.g.ins|;
    var h: Graph :| SuperGraph(s.g, t.g, comp, k, h);
    hide SuperGraph, Sound, Outer, Without, Members, Inside, Leads, AtMostOnce;
    NewRow(s, h, comp, k, t.g);
    SuperList(s, comp);
    forall y: nat | y in s.list && y !in comp
      ensures y < |s.g.outs| && |t.g.outs[y]| <= |s.g.outs[y]|
      ensures y < |t.g.ins| && Inside(t.g.ins[y], Members(t.list)) && Inside(t.g.outs[y], Members(t.list))
    {
      SuperOther(s, t.g, h, comp, k, y);
    }
    SoundSizes(s);
    SoundFrom(t);
  }

  lemma SoundSizes(s: Shape)
    requires Sound(s)
    ensures |s.g.ins| == |s.g.outs|
  {
  }

  lemma SoundFrom(t: Shape)
    requires Paired(t.g) && |t.g.ins| == |t.g.outs| == |t.facts| && InRange(t.list, |t.g.ins|)
    requires forall i, j :: 0 <= i < j < |t.list| ==> t.list[i] != t.list[j]
    requires forall b: nat :: b in t.list ==>
               Inside(t.g.ins[b], Members(t.list)) && Inside(t.g.outs[b], Members(t.list))
    ensures Sound(t)
  {
  }

  /** The new list: distinct blocks, those of comp replaced by the new one. */
  lemma SuperList(s: Shape, comp: set<nat>)
    requires Sound(s) && comp <= Members(s.list)
    ensures var ret := |s.g.ins|;
      var list := Without(s.list, comp) + [ret];
      && InRange(list, ret + 1) && (forall i, j :: 0 <= i < j < |list| ==> list[i] != list[j])
      && Members(list) == Members(s.list) - comp + {ret}
      && forall b: nat :: b in list <==> (b in s.list && b !in comp) || b == ret
  {
    var ret := |s.g.ins|;
    var w := Without(s.list, comp);
    SplitMembers(s.list, comp);
    SplitInRange(s.list, comp, ret);
    WithoutDistinct(s.list, comp);
    hide Without;
    forall i, j | 0 <= i < j < |w + [ret]| ensures (w + [ret])[i] != (w + [ret])[j] {
      assert w[i] in w;
    }
    forall b: nat ensures b in Members(w + [ret]) <==> b in Members(s.list) - comp + {ret} {
      assert b in Members(w + [ret]) <==> b in w + [ret];
      assert b in Members(s.list) <==> b in s.list;
    }
  }

  lemma MembersOf(list: seq<nat>)
    ensures forall b: nat :: b in Members(list) <==> b in list
  {
  }

  lemma {:induction false} WithoutDistinct(list: seq<nat>, s: set<nat>)
    requires forall i, j :: 0 <= i < j < |list| ==> list[i] != list[j]
    ensures forall i, j :: 0 <= i < j < |Without(list, s)| ==> Without(list, s)[i] != Without(list, s)[j]
  {
    if list != [] {
      var rest, x := list[..|list| - 1], list[|list| - 1];
      WithoutDistinct(rest, s);
      SplitMembers(rest, s);
      assert x !in rest;
      var w := Without(rest, s);
      forall i | 0 <= i < |w| ensures w[i] != x {
        assert w[i] in w;
      }
    }
  }

  lemma SuperOther(s: Shape, t: Graph, h: Graph, comp: set<nat>, k: nat, y: nat)
    requires Sound(s) && comp <= Members(s.list) && y in s.list && y !in comp
    requires SuperGraph(s.g, t, comp, k, h)
    ensures y < |s.g.ins| == |s.g.outs| && |t.ins| == |t.outs| == |s.g.ins| + 1 && |t.outs[y]| <= |s.g.outs[y]|
    ensures Inside(t.ins[y], Members(s.list) - comp + {|s.g.ins|}) &&
              Inside(t.outs[y], Members(s.list) - comp + {|s.g.ins|})
  {
    NewRow(s, h, comp, k, t);
    var ret, g := |s.g.ins|, Bigger(s.g);
    BiggerPaired(s.g);
    assert y < ret;
    assert |h.ins| == |h.outs| == ret + 1;
    hide Collapsed, Paired;
    OtherRowsShrink(g, h, comp, ret, y);
    OthersInside(g, h, s.list, comp, ret, y);
    PairedFlip(h);
    CollapsedFlip(g, h, comp, ret);
    OthersInside(Flip(g), Flip(h), s.list, comp, ret, y);
  }

  lemma CollapsedFlip(g: Graph, h: Graph, comp: set<nat>, ident: nat)
    requires Collapsed(g, h, comp, ident)
    ensures Collapsed(Flip(g), Flip(h), comp, ident)
  {
    hide Kept, Leads, Inside, AtMostOnce, GroupLeads;
  }

  /** The new block has no more ways out than k, or than there are outer blocks. */
  lemma SuperFits(s: Shape, t: Shape, comp: set<nat>, k: nat, ends: seq<nat>)
    requires Super(s, t, comp, k) && forall p: nat :: Outer(s, comp, p) ==> p in ends
    ensures |t.g.outs| == |s.g.ins| + 1 && |t.g.outs[|s.g.ins|]| <= if |ends| < k then k else |ends|
  {
    var ret := |s.g.ins|;
    var h: Graph :| SuperGraph(s.g, t.g, comp, k, h);
    NewRow(s, h, comp, k, t.g);
    hide Collapsed, Paired, Forced;
    forall i | 0 <= i < |h.outs[ret]| ensures h.outs[ret][i].point in ends {
      SlotLeads(h.outs[ret], i);
    }
    RowFits(h.outs[ret], ends);
  }

  // ---------- each collapse is a step down ----------

  /** The new block takes the place of x, and has no more ways out: it counts for less if others go too,
      or it has fewer. */
  lemma MergeSize(s: Shape, t: Shape, comp: set<nat>, x: nat)
    requires Sound(s) && Sound(t) && comp <= Members(s.list) && x in comp && |t.g.outs| == |s.g.outs| + 1
    requires t.list == Without(s.list, comp) + [|s.g.ins|]
    requires forall b: nat :: b in s.list && b !in comp ==> |t.g.outs[b]| <= |s.g.outs[b]|
    requires |t.g.outs[|s.g.ins|]| <= |s.g.outs[x]|
    ensures Size(t) <= Size(s)
    ensures (exists y: nat :: y in comp && y != x) || |t.g.outs[|s.g.ins|]| < |s.g.outs[x]| ==> Size(t) < Size(s)
  {
    var ret := |s.g.ins|;
    var others, gone := Without(s.list, comp), Only(s.list, comp);
    SplitMembers(s.list, comp);
    SplitInRange(s.list, comp, ret);
    hide Without, Only, Sound;
    SumSplits(s.list, comp, others, gone, ret, Degrees(t.g), Degrees(s.g), x);
    if y: nat :| y in comp && y != x { TwoGone(gone, x, y); }
  }

  /** The new block takes the place of a switch, and is none. */
  lemma MergeSwitches(s: Shape, t: Shape, comp: set<nat>, x: nat)
    requires Sound(s) && Sound(t) && comp <= Members(s.list) && x in comp && |t.facts| == |s.facts| + 1
    requires t.list == Without(s.list, comp) + [|s.g.ins|]
    requires forall b: nat :: b in s.list && b !in comp ==> t.facts[b] == s.facts[b]
    requires s.facts[x].switchOut && !t.facts[|s.g.ins|].switchOut
    ensures Switches(t) < Switches(s)
  {
    var ret := |s.g.ins|;
    SplitMembers(s.list, comp);
    SplitInRange(s.list, comp, ret);
    SumSplits(s.list, comp, Without(s.list, comp), Only(s.list, comp), ret, SwitchWeights(t.facts),
        SwitchWeights(s.facts), x);
  }

  lemma TwoGone(gone: seq<nat>, x: nat, y: nat)
    requires x in gone && y in gone && x != y
    ensures |gone| >= 2
  {
  }

  lemma SumSplits(list: seq<nat>, comp: set<nat>, others: seq<nat>, gone: seq<nat>, ret: nat, w: seq<nat>, v: seq<nat>,
                  x: nat)
    requires others == Without(list, comp) && gone == Only(list, comp) && InRange(list, |v|) && |v| == ret &&
               |w| == ret + 1
    requires (forall b: nat :: b in list && b !in comp ==> w[b] <= v[b]) && x in list && x in comp
    ensures InRange(others + [ret], |w|)
    ensures Total(others + [ret], w) + v[x] <= Total(list, v) + w[ret]
    ensures |gone| >= 1 && |list| == |others| + |gone|
  {
    SplitMembers(list, comp);
    SplitInRange(list, comp, |v|);
    TotalSplit(list, comp, v);
    TotalAppend(others, ret, w);
    TotalLe(others, w, v);
    TotalHas(gone, v, x);
  }

  // ---------- steps that keep the top level ----------

  /** s with another graph on the same blocks. */
  function WithGraph(s: Shape, g: Graph): Shape {
    s.(g := g)
  }

  ghost predicate SameDegrees(g: Graph, h: Graph) {
    |g.outs| == |h.outs| && forall b: nat :: b < |g.outs| ==> |g.outs[b]| == |h.outs[b]|
  }

  /** The graph changed, but every edge that is left leads where one led before. */
  lemma SoundOver(s: Shape, h: Graph)
    requires Sound(s) && Paired(h) && |h.ins| == |s.g.ins|
    requires forall b: nat :: b in s.list && b < |h.ins| && b < |h.outs| ==>
      Inside(h.ins[b], Members(s.list)) && Inside(h.outs[b], Members(s.list))
    ensures Sound(WithGraph(s, h))
  {
  }

  lemma SameSize(s: Shape, t: Shape)
    requires Sound(s) && Sound(t) && SameDegrees(s.g, t.g) && t.list == s.list && t.facts == s.facts
    ensures Size(t) == Size(s) && Switches(t) == Switches(s)
  {
    TotalSame(s.list, Degrees(t.g), Degrees(s.g));
  }

  lemma SwapFacts(s: Shape, b: nat)
    requires Sound(s) && b in s.list && b < |s.g.outs| && |s.g.outs[b]| >= 2
    ensures OutPaired(s.g, b, 0) && OutPaired(s.g, b, 1)
    ensures var t := WithGraph(s, SwapOut(s.g, b));
      && Sound(t) && SameDegrees(s.g, t.g) && Size(t) == Size(s) && Switches(t) == Switches(s) &&
         (Narrow(s) ==> Narrow(t))
      && t.g.outs[b] == s.g.outs[b][0 := s.g.outs[b][1]][1 := s.g.outs[b][0]]
      && (forall y: nat :: y < |t.g.outs| && y != b ==> t.g.outs[y] == s.g.outs[y])
      && (forall y: nat :: y < |t.g.ins| ==> |t.g.ins[y]| == |s.g.ins[y]|)
  {
    PairedSwap(s.g, b);
    var h := SwapOut(s.g, b);
    forall y: nat | y in s.list ensures Inside(h.ins[y], Members(s.list)) && Inside(h.outs[y], Members(s.list)) {
      forall i | 0 <= i < |h.ins[y]| ensures h.ins[y][i].point in Members(s.list) {
        assert h.ins[y][i].point == s.g.ins[y][i].point;
      }
    }
    hide Paired, SwapOut;
    SoundOver(s, h);
    SameSize(s, WithGraph(s, h));
  }

  /** One edge of x is gone. */
  lemma RemoveFacts(s: Shape, b: nat, slot: nat)
    requires Sound(s) && b in s.list && InSlot(s.g, b, slot)
    ensures InPaired(s.g, b, slot)
    ensures var t, x := WithGraph(s, RemoveIn(s.g, b, slot)), s.g.ins[b][slot].point;
      && Sound(t) && |t.g.outs| == |s.g.outs| && x < |s.g.outs| && |t.g.outs[x]| == |s.g.outs[x]| - 1
      && (forall y: nat :: y < |s.g.outs| && y != x ==> |t.g.outs[y]| == |s.g.outs[y]|)
  {
    RemoveCuts(s.g, b, slot);
    PairedRemoveIn(s.g, b, slot);
    assert InPaired(s.g, b, slot);
    var h := RemoveIn(s.g, b, slot);
    var all := Members(s.list);
    hide Paired, RemoveIn;
    forall y: nat | y in s.list ensures Inside(h.ins[y], all) && Inside(h.outs[y], all) {
      forall i | 0 <= i < |h.ins[y]| ensures h.ins[y][i].point in all {
        assert h.ins[y][i].point == s.g.ins[y][Before(i, slot, y == b)].point;
      }
      var e := s.g.ins[b][slot];
      forall k | 0 <= k < |h.outs[y]| ensures h.outs[y][k].point in all {
        assert h.outs[y][k].point == s.g.outs[y][Before(k, e.rev, y == e.point)].point;
      }
    }
    SoundOver(s, h);
  }

  lemma {:induction false} UnmarkedOne(row: seq<Edge>, k: nat, e: Edge)
    requires k < |row| && GotoEdge in e.flags
    ensures Unmarked(row[k := e]) <= Unmarked(row)
    ensures GotoEdge !in row[k].flags ==> Unmarked(row[k := e]) < Unmarked(row)
  {
    var n := |row| - 1;
    if k < n {
      assert row[k := e][..n] == row[..n][k := e];
      UnmarkedOne(row[..n], k, e);
    } else {
      assert row[k := e][..n] == row[..n];
    }
  }

  /** An edge is marked goto: a step down, if it was not. */
  lemma MarkFacts(s: Shape, b: nat, k: nat)
    requires Sound(s) && b in s.list && OutSlot(s.g, b, k)
    ensures OutPaired(s.g, b, k)
    ensures var t := WithGraph(s, Relabel(s.g, b, k, {GotoEdge}, {}));
      && Sound(t) && SameDegrees(s.g, t.g) && (Narrow(s) ==> Narrow(t)) && Size(t) == Size(s) &&
         Switches(t) == Switches(s)
      && UnmarkedEdges(t) <= UnmarkedEdges(s) && (GotoEdge !in s.g.outs[b][k].flags ==> Smaller(t, s))
      && (forall y: nat, j: nat :: OutSlot(t.g, y, j) ==> t.g.outs[y][j].point == s.g.outs[y][j].point)
      && (forall y: nat, j: nat :: OutSlot(t.g, y, j) && !(y == b && j == k) ==> t.g.outs[y][j] == s.g.outs[y][j])
  {
    hide Relabel, Members;
    MarkRows(s.g, b, k);
    var h := Relabel(s.g, b, k, {GotoEdge}, {});
    var all := Members(s.list);
    forall y: nat | y in s.list ensures Inside(h.ins[y], all) && Inside(h.outs[y], all) {}
    SoundOver(s, h);
    SameSize(s, WithGraph(s, h));
    hide Sound, Inside, Narrow;
    UnmarkedOne(s.g.outs[b], k, h.outs[b][k]);
    MarkTotals(s, h, b, k);
  }

  lemma MarkRows(g: Graph, b: nat, k: nat)
    requires Paired(g) && OutSlot(g, b, k)
    ensures OutPaired(g, b, k)
    ensures var h := Relabel(g, b, k, {GotoEdge}, {});
      && Paired(h) && |h.ins| == |g.ins| == |h.outs| == |g.outs| && GotoEdge in h.outs[b][k].flags &&
         h.outs[b][k].point == g.outs[b][k].point
      && h.outs[b] == g.outs[b][k := h.outs[b][k]]
      && (forall y: nat :: y < |h.outs| && y != b ==> h.outs[y] == g.outs[y])
      && (forall y: nat :: y < |h.ins| ==> |h.ins[y]| == |g.ins[y]|)
      && (forall y: nat, i: nat :: InSlot(h, y, i) ==> h.ins[y][i].point == g.ins[y][i].point)
  {
    PairedRelabel(g, b, k, {GotoEdge}, {});
    assert OutPaired(g, b, k);
  }

  lemma MarkTotals(s: Shape, h: Graph, b: nat, k: nat)
    requires Sound(s) && Sound(WithGraph(s, h)) && b in s.list && OutSlot(s.g, b, k) && |h.outs| == |s.g.outs| &&
               |h.outs[b]| == |s.g.outs[b]|
    requires forall y: nat :: y < |h.outs| && y != b ==> h.outs[y] == s.g.outs[y]
    requires Unmarked(h.outs[b]) <= Unmarked(s.g.outs[b])
    ensures UnmarkedEdges(WithGraph(s, h)) <= UnmarkedEdges(s)
    ensures Unmarked(h.outs[b]) < Unmarked(s.g.outs[b]) ==> UnmarkedEdges(WithGraph(s, h)) < UnmarkedEdges(s)
  {
    var w, v := UnmarkedWeights(h), UnmarkedWeights(s.g);
    hide Unmarked;
    assert InRange(s.list, |w|) && InRange(s.list, |v|);
    TotalLe(s.list, w, v);
    if Unmarked(h.outs[b]) < Unmarked(s.g.outs[b]) { TotalLess(s.list, w, v, b); }
  }

  /** Edges of comp that end in comp or in ends. */
  lemma OuterIn(s: Shape, comp: set<nat>, ends: seq<nat>)
    requires forall b: nat, k: nat :: b in comp && OutSlot(s.g, b, k) ==>
               s.g.outs[b][k].point in comp || s.g.outs[b][k].point in ends
    ensures forall p: nat :: Outer(s, comp, p) ==> p in ends
  {
    forall p: nat | Outer(s, comp, p) ensures p in ends {
      var b: nat :| b in comp && b < |s.g.outs| && Leads(s.g.outs[b], p);
      var k: nat :| k < |s.g.outs[b]| && s.g.outs[b][k].point == p;
      assert OutSlot(s.g, b, k);
    }
  }

  lemma NarrowKept(s: Shape, t: Shape, comp: set<nat>)
    requires Sound(s) && Narrow(s) && |t.g.outs| == |s.g.outs| + 1 == |t.facts|
    requires forall b: nat :: b in t.list ==> (b in s.list && b !in comp) || b == |s.g.outs|
    requires forall b: nat :: b in s.list && b !in comp ==> |t.g.outs[b]| <= |s.g.outs[b]| && t.facts[b] == s.facts[b]
    requires |t.g.outs[|s.g.outs|]| <= 2 || t.facts[|s.g.outs|].switchOut
    ensures Narrow(t)
  {
  }

  /** A block of comp has at least the k ways out that the new block gets, and the new block takes the place of others
      too, or has fewer ways out. */
  lemma MergeDown(s: Shape, t: Shape, comp: set<nat>, k: nat, x: nat, ends: seq<nat>)
    requires Super(s, t, comp, k) && Narrow(s) && x in comp
    requires forall p: nat :: Outer(s, comp, p) ==> p in ends
    requires x < |s.g.outs| && |ends| <= k <= |s.g.outs[x]| && k <= 2
    requires (exists y: nat :: y in comp && y != x) || k < |s.g.outs[x]|
    ensures Sound(t) && Narrow(t) && |t.g.outs| == |s.g.outs| + 1 && |t.g.outs[|s.g.ins|]| == k
    ensures Size(t) < Size(s)
  {
    SuperFacts(s, t, comp, k);
    SuperFits(s, t, comp, k, ends);
    SuperList(s, comp);
    SoundSizes(s);
    hide Sound, Outer, Without, Size, Switches;
    NarrowKept(s, t, comp);
    MergeSize(s, t, comp, x);
  }

  ghost predicate SwapsOut(g: Graph, h: Graph, b: nat) {
    && |g.ins| == |g.outs| && b < |g.outs| && |g.outs[b]| >= 2 && OutPaired(g, b, 0) && OutPaired(g, b, 1)
    && h == SwapOut(g, b)
  }

  /** t is s, or s with the two ways out of b the other way round. */
  ghost predicate Turned(s: Shape, t: Shape, b: nat) {
    && t.list == s.list && t.facts == s.facts && |t.g.ins| == |s.g.ins| && |t.g.outs| == |s.g.outs| && b < |s.g.outs|
    && (forall y: nat :: y < |s.g.outs| && y != b ==> t.g.outs[y] == s.g.outs[y])
    && (t.g.outs[b] == s.g.outs[b] || (|s.g.outs[b]| >= 2 &&
       t.g.outs[b] == s.g.outs[b][0 := s.g.outs[b][1]][1 := s.g.outs[b][0]]))
    && (t.g == s.g || SwapsOut(s.g, t.g, b))
  }

  /** All edges out of the nodes end in them or in ends. */
  ghost predicate EndsIn(s: Shape, nodes: seq<nat>, ends: seq<nat>) {
    forall n: nat, j: nat :: n in nodes && OutSlot(s.g, n, j) ==>
        s.g.outs[n][j].point in nodes || s.g.outs[n][j].point in ends
  }

  lemma TurnedEnds(s: Shape, t: Shape, b: nat, nodes: seq<nat>, ends: seq<nat>)
    requires Turned(s, t, b) && EndsIn(s, nodes, ends)
    ensures EndsIn(t, nodes, ends)
  {
    forall n: nat, j: nat | n in nodes && OutSlot(t.g, n, j)
      ensures t.g.outs[n][j].point in nodes || t.g.outs[n][j].point in ends
    {
      var i: nat := if n == b && t.g.outs[b] != s.g.outs[b] && j < 2 then 1 - j else j;
      assert OutSlot(s.g, n, i) && t.g.outs[n][j] == s.g.outs[n][i];
    }
  }

  lemma EndsOuter(s: Shape, nodes: seq<nat>, ends: seq<nat>)
    requires EndsIn(s, nodes, ends)
    ensures forall p: nat :: Outer(s, Members(nodes), p) ==> p in ends
  {
    MembersOf(nodes);
    OuterIn(s, Members(nodes), ends);
  }

  /** Collapsing the nodes, perhaps after one was turned, is a step down. */
  lemma MergedDown(s: Shape, m: Shape, t: Shape, turned: nat, nodes: seq<nat>, k: nat, x: nat, ends: seq<nat>)
    requires Sound(s) && Narrow(m) && Sound(m) && Turned(s, m, turned) && Super(m, t, Members(nodes), k)
    requires x in nodes && x < |s.g.outs| && EndsIn(s, nodes, ends) && |ends| <= k <= |s.g.outs[x]| && k <= 2
    requires (exists y: nat :: y in nodes && y != x) || k < |s.g.outs[x]|
    ensures Sound(t) && Narrow(t) && Size(t) < Size(s) && |t.g.outs| == |s.g.outs| + 1 && |t.g.outs[|s.g.outs|]| == k
  {
    TurnedEnds(s, m, turned, nodes, ends);
    EndsOuter(m, nodes, ends);
    MembersOf(nodes);
    SoundSizes(s);
    TurnedSize(s, m, turned);
    hide Super, Sound, Narrow, Outer, EndsIn, Members, Size, Switches, UnmarkedEdges;
    assert |m.g.outs[x]| == |s.g.outs[x]|;
    MergeDown(m, t, Members(nodes), k, x, ends);
  }

  lemma TurnedSize(s: Shape, t: Shape, b: nat)
    requires Turned(s, t, b) && Sound(s) && Sound(t)
    ensures Size(t) == Size(s) && Switches(t) == Switches(s)
  {
    SameSize(s, t);
  }

  /** Only properties changed that are not those of a switch. */
  lemma FactsOnly(s: Shape, t: Shape)
    requires Sound(s) && t.g == s.g && t.list == s.list && |t.facts| == |s.facts|
    requires forall b :: 0 <= b < |s.facts| ==> t.facts[b].switchOut == s.facts[b].switchOut
    ensures Sound(t) && Size(t) == Size(s) && Switches(t) == Switches(s) && UnmarkedEdges(t) == UnmarkedEdges(s) &&
              (Narrow(s) ==> Narrow(t))
  {
    assert SwitchWeights(t.facts) == SwitchWeights(s.facts);
  }

  /** The new block leads back into itself when comp has fewer outer blocks than the ways out it was given. */
  lemma SelfForced(s: Shape, t: Shape, comp: set<nat>, k: nat, ends: seq<nat>)
    requires Super(s, t, comp, k) && (forall p: nat :: Outer(s, comp, p) ==> p in ends) && |ends| < k
    ensures |t.g.outs| == |s.g.ins| + 1 && Leads(t.g.outs[|s.g.ins|], |s.g.ins|)
  {
    hide Forced, Without, Inherits;
    var ret := |s.g.ins|;
    var h: Graph :| SuperGraph(s.g, t.g, comp, k, h);
    NewRow(s, h, comp, k, t.g);
    ForcedRows(h, ret, k);
    forall i | 0 <= i < |h.outs[ret]| ensures h.outs[ret][i].point in ends {
      SlotLeads(h.outs[ret], i);
    }
    RowFits(h.outs[ret], ends);
    SlotLeads(t.g.outs[ret], |h.outs[ret]|);
  }

  /** The new block has at most one edge to each outer block. */
  lemma SuperOnce(s: Shape, t: Shape, comp: set<nat>, k: nat, p: nat)
    requires Super(s, t, comp, k) && p != |s.g.ins|
    ensures |t.g.outs| == |s.g.ins| + 1 && AtMostOnce(t.g.outs[|s.g.ins|], p)
  {
    var ret := |s.g.ins|;
    var h: Graph :| SuperGraph(s.g, t.g, comp, k, h);
    NewRow(s, h, comp, k, t.g);
    ForcedRows(h, ret, k);
    hide Collapsed, Paired, Forced;
    assert AtMostOnce(h.outs[ret], p);
    var row := t.g.outs[ret];
    forall i, j | 0 <= i < j < |row| ensures !(row[i].point == p && row[j].point == p) {
      if j < |h.outs[ret]| { assert row[i] == h.outs[ret][i] && row[j] == h.outs[ret][j]; }
    }
  }
}
