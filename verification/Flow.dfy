/** Control-flow edges between blocks: every edge has two halves, one in the out-list of its source
    and one in the in-list of its target, and each half records the slot of the other.
    The pure functions say what each operation does to the pair of edge tables. */
module Flow {

  import opened Wrappers

  /** Boolean properties on edges. */
  datatype EdgeFlag = GotoEdge | LoopEdge | DefaultSwitch | IrreducibleEdge | TreeEdge
                    | ForwardEdge | CrossEdge | BackEdge | LoopExit

  /** One half of an edge: the block at the other end and the slot of the other half there. */
  datatype Edge = Edge(point: nat, flags: set<EdgeFlag>, rev: nat)

  /** isGotoIn, isGotoOut: the edge is not to be structured. */
  predicate Goto(e: Edge) {
    IrreducibleEdge in e.flags || GotoEdge in e.flags
  }

  type Adj = seq<seq<Edge>>

  /** The in-lists and out-lists of all blocks; a block is its position in both tables. */
  datatype Graph = Graph(ins: Adj, outs: Adj)

  function RemoveAt<T>(s: seq<T>, i: nat): seq<T>
    requires i < |s|
  {
    s[..i] + s[i + 1..]
  }

  ghost predicate InSlot(g: Graph, b: nat, i: nat) {
    b < |g.ins| && i < |g.ins[b]|
  }

  ghost predicate OutSlot(g: Graph, b: nat, k: nat) {
    b < |g.outs| && k < |g.outs[b]|
  }

  /** The in-half at slot i of b has an out-half that points back to it. */
  ghost predicate InPaired(g: Graph, b: nat, i: nat)
    requires InSlot(g, b, i)
  {
    var e := g.ins[b][i];
    OutSlot(g, e.point, e.rev) && g.outs[e.point][e.rev].point == b && g.outs[e.point][e.rev].rev == i
  }

  /** The out-half at slot k of b has an in-half that points back to it. */
  ghost predicate OutPaired(g: Graph, b: nat, k: nat)
    requires OutSlot(g, b, k)
  {
    var e := g.outs[b][k];
    InSlot(g, e.point, e.rev) && g.ins[e.point][e.rev].point == b && g.ins[e.point][e.rev].rev == k
  }

  /** The two-way edge invariant: what checkEdges tests on every block. */
  ghost predicate Paired(g: Graph) {
    && |g.ins| == |g.outs|
    && (forall b: nat, i: nat :: InSlot(g, b, i) ==> InPaired(g, b, i))
    && (forall b: nat, k: nat :: OutSlot(g, b, k) ==> OutPaired(g, b, k))
  }

  // ---------- what one half-deletion does ----------

  function Dec(e: Edge): Edge
    requires e.rev > 0
  {
    e.(rev := e.rev - 1)
  }

  /** The out-half (x, k) is the partner of an in-half of b that lies above slot. */
  predicate AboveIn(g: Graph, b: nat, slot: nat, x: nat, k: nat)
    requires b < |g.ins| && x < |g.outs| && k < |g.outs[x]|
  {
    var e := g.outs[x][k];
    e.point == b && slot < e.rev < |g.ins[b]| && g.ins[b][e.rev].point == x && g.ins[b][e.rev].rev == k
  }

  function HalfDeleteIn(g: Graph, b: nat, slot: nat): Graph
    requires b < |g.ins| && slot < |g.ins[b]|
  {
    Graph(g.ins[b := RemoveAt(g.ins[b], slot)],
          seq(|g.outs|, x requires 0 <= x < |g.outs| =>
            seq(|g.outs[x]|, k requires 0 <= k < |g.outs[x]| =>
              if AboveIn(g, b, slot, x, k) then Dec(g.outs[x][k]) else g.outs[x][k])))
  }

  /** The graph with every edge turned round. */
  function Flip(g: Graph): Graph {
    Graph(g.outs, g.ins)
  }

  function HalfDeleteOut(g: Graph, b: nat, slot: nat): Graph
    requires b < |g.outs| && slot < |g.outs[b]|
  {
    Flip(HalfDeleteIn(Flip(g), b, slot))
  }

  lemma SameRows(a: Adj, b: Adj)
    requires |a| == |b|
    requires forall x :: 0 <= x < |a| ==> |a[x]| == |b[x]|
    requires forall x, k :: 0 <= x < |a| && 0 <= k < |a[x]| ==> a[x][k] == b[x][k]
    ensures a == b
  {
    forall x | 0 <= x < |a| ensures a[x] == b[x] {
    }
  }

  // ---------- the edge operations ----------

  /** A new edge from source to target. */
  function AddEdge(g: Graph, source: nat, target: nat, flags: set<EdgeFlag>): Graph
    requires |g.ins| == |g.outs| && source < |g.outs| && target < |g.ins|
  {
    Graph(g.ins[target := g.ins[target] + [Edge(source, flags, |g.outs[source]|)]],
          g.outs[source := g.outs[source] + [Edge(target, flags, |g.ins[target]|)]])
  }

  /** The edge at in-slot slot of b is removed. */
  function RemoveIn(g: Graph, b: nat, slot: nat): Graph
    requires |g.ins| == |g.outs| && InSlot(g, b, slot) && InPaired(g, b, slot)
  {
    var e := g.ins[b][slot];
    HalfDeleteOut(HalfDeleteIn(g, b, slot), e.point, e.rev)
  }

  /** The edge at out-slot slot of b is removed. */
  function RemoveOut(g: Graph, b: nat, slot: nat): Graph
    requires |g.ins| == |g.outs| && OutSlot(g, b, slot) && OutPaired(g, b, slot)
  {
    var e := g.outs[b][slot];
    HalfDeleteIn(HalfDeleteOut(g, b, slot), e.point, e.rev)
  }

  /** The source of the edge at in-slot num of b becomes source. */
  function ReplaceIn(g: Graph, b: nat, num: nat, source: nat): Graph
    requires |g.ins| == |g.outs| && InSlot(g, b, num) && InPaired(g, b, num) && source < |g.outs|
  {
    var e := g.ins[b][num];
    var h := HalfDeleteOut(g, e.point, e.rev);
    Graph(h.ins[b := h.ins[b][num := Edge(source, h.ins[b][num].flags, |h.outs[source]|)]],
          h.outs[source := h.outs[source] + [Edge(b, h.ins[b][num].flags, num)]])
  }

  /** The target of the edge at out-slot num of b becomes target. */
  function ReplaceOut(g: Graph, b: nat, num: nat, target: nat): Graph
    requires |g.ins| == |g.outs| && OutSlot(g, b, num) && OutPaired(g, b, num) && target < |g.ins|
  {
    var e := g.outs[b][num];
    var h := HalfDeleteIn(g, e.point, e.rev);
    Graph(h.ins[target := h.ins[target] + [Edge(b, h.outs[b][num].flags, num)]],
          h.outs[b := h.outs[b][num := Edge(target, h.outs[b][num].flags, |h.ins[target]|)]])
  }

  /** Where position i of a list was before the entry at slot went away. */
  function Before(i: nat, slot: nat, hit: bool): nat {
    if hit && i >= slot then i + 1 else i
  }

  /** The half-edge after the partner list of x lost its entry k. */
  function Slid(e: Edge, x: nat, k: nat): Edge {
    if e.point == x && e.rev > k then e.(rev := e.rev - 1) else e
  }

  /** Every entry of the in-lists after an edge is removed. */
  lemma RemoveInAt(g: Graph, b: nat, slot: nat)
    requires Paired(g) && InSlot(g, b, slot)
    ensures var h, e := RemoveIn(g, b, slot), g.ins[b][slot];
      && |h.ins| == |g.ins| && |h.outs| == |g.outs|
      && (forall y: nat :: y < |h.ins| ==> |h.ins[y]| == if y == b then |g.ins[y]| - 1 else |g.ins[y]|)
      && (forall y: nat, i: nat :: InSlot(h, y, i) ==>
         h.ins[y][i] == Slid(g.ins[y][Before(i, slot, y == b)], e.point, e.rev))
      && (forall y: nat :: y < |h.outs| ==> |h.outs[y]| == if y == e.point then |g.outs[y]| - 1 else |g.outs[y]|)
      && (forall y: nat, k: nat :: OutSlot(h, y, k) ==>
         h.outs[y][k] == Slid(g.outs[y][Before(k, e.rev, y == e.point)], b, slot))
  {
    var e := g.ins[b][slot];
    var m := HalfDeleteIn(g, b, slot);
    var h := RemoveIn(g, b, slot);
    forall y: nat, i: nat | InSlot(h, y, i)
      ensures h.ins[y][i] == Slid(g.ins[y][Before(i, slot, y == b)], e.point, e.rev)
    {
      var j := Before(i, slot, y == b);
      assert m.ins[y][i] == g.ins[y][j];
      assert InPaired(g, y, j);
    }
    forall y: nat, k: nat | OutSlot(h, y, k)
      ensures h.outs[y][k] == Slid(g.outs[y][Before(k, e.rev, y == e.point)], b, slot)
    {
      var j := Before(k, e.rev, y == e.point);
      assert h.outs[y][k] == m.outs[y][j];
      assert OutPaired(g, y, j);
    }
  }

  lemma PairedFlip(g: Graph)
    requires Paired(g)
    ensures Paired(Flip(g))
  {
    var h := Flip(g);
    forall y: nat, i: nat | InSlot(h, y, i) ensures InPaired(h, y, i) {
      assert OutSlot(g, y, i) && OutPaired(g, y, i);
    }
    forall y: nat, k: nat | OutSlot(h, y, k) ensures OutPaired(h, y, k) {
      assert InSlot(g, y, k) && InPaired(g, y, k);
    }
  }

  lemma RemoveEitherHalf(g: Graph, b: nat, slot: nat)
    requires Paired(g) && InSlot(g, b, slot)
    ensures RemoveOut(g, g.ins[b][slot].point, g.ins[b][slot].rev) == RemoveIn(g, b, slot)
  {
    var e := g.ins[b][slot];
    RemoveInAt(g, b, slot);
    PairedFlip(g);
    assert InPaired(g, b, slot);
    RemoveInAt(Flip(g), e.point, e.rev);
    assert RemoveOut(g, e.point, e.rev) == Flip(RemoveIn(Flip(g), e.point, e.rev));
    SameRows(RemoveIn(g, b, slot).ins, RemoveOut(g, e.point, e.rev).ins);
    SameRows(RemoveIn(g, b, slot).outs, RemoveOut(g, e.point, e.rev).outs);
  }

  lemma PairedRemoveInHalf(g: Graph, b: nat, slot: nat)
    requires Paired(g) && InSlot(g, b, slot)
    ensures var h := RemoveIn(g, b, slot); forall y: nat, i: nat :: InSlot(h, y, i) ==> InPaired(h, y, i)
  {
    RemoveInAt(g, b, slot);
    var h, e := RemoveIn(g, b, slot), g.ins[b][slot];
    assert InPaired(g, b, slot);
    forall y: nat, i: nat | InSlot(h, y, i) ensures InPaired(h, y, i) {
      var j := Before(i, slot, y == b);
      var f := g.ins[y][j];
      assert InPaired(g, y, j);
      var x, k := f.point, h.ins[y][i].rev;
      assert Before(k, e.rev, x == e.point) == f.rev;
      assert h.outs[x][k] == Slid(g.outs[x][f.rev], b, slot);
    }
  }

  lemma PairedRemoveIn(g: Graph, b: nat, slot: nat)
    requires Paired(g) && InSlot(g, b, slot)
    ensures Paired(RemoveIn(g, b, slot))
  {
    var e := g.ins[b][slot];
    PairedRemoveInHalf(g, b, slot);
    assert InPaired(g, b, slot);
    PairedFlip(g);
    PairedRemoveInHalf(Flip(g), e.point, e.rev);
    RemoveEitherHalf(g, b, slot);
    var h := RemoveIn(g, b, slot);
    assert Flip(h) == RemoveIn(Flip(g), e.point, e.rev);
    forall y: nat, k: nat | OutSlot(h, y, k) ensures OutPaired(h, y, k) {
      assert InSlot(Flip(h), y, k) && InPaired(Flip(h), y, k);
    }
    RemoveInAt(g, b, slot);
  }

  lemma PairedAdd(g: Graph, source: nat, target: nat, flags: set<EdgeFlag>)
    requires Paired(g) && source < |g.outs| && target < |g.ins|
    ensures Paired(AddEdge(g, source, target, flags))
  {
    var h := AddEdge(g, source, target, flags);
    forall y: nat, i: nat | InSlot(h, y, i) ensures InPaired(h, y, i) {
      assert InSlot(g, y, i) ==> InPaired(g, y, i);
    }
    forall y: nat, k: nat | OutSlot(h, y, k) ensures OutPaired(h, y, k) {
      assert OutSlot(g, y, k) ==> OutPaired(g, y, k);
    }
  }

  /** Every entry of both tables after the source of an edge is replaced. */
  lemma ReplaceInAt(g: Graph, b: nat, num: nat, source: nat)
    requires Paired(g) && InSlot(g, b, num) && source < |g.outs|
    ensures var h, e := ReplaceIn(g, b, num, source), g.ins[b][num];
      && |h.ins| == |g.ins| && |h.outs| == |g.outs|
      && (forall y: nat :: y < |h.ins| ==> |h.ins[y]| == |g.ins[y]|)
      && (forall y: nat, i: nat :: InSlot(g, y, i) && !(y == b && i == num) ==>
         h.ins[y][i] == Slid(g.ins[y][i], e.point, e.rev))
      && h.ins[b][num] == Edge(source, e.flags, |h.outs[source]| - 1)
      && (forall y: nat :: y < |h.outs| ==>
            |h.outs[y]| == |g.outs[y]| - (if y == e.point then 1 else 0) + (if y == source then 1 else 0))
      && h.outs[source][|h.outs[source]| - 1] == Edge(b, e.flags, num)
      && (forall y: nat, k: nat :: OutSlot(h, y, k) && !(y == source && k == |h.outs[source]| - 1) ==>
            h.outs[y][k] == g.outs[y][Before(k, e.rev, y == e.point)])
  {
    var e := g.ins[b][num];
    var h := ReplaceIn(g, b, num, source);
    assert InPaired(g, b, num);
    forall y: nat, i: nat | InSlot(g, y, i) && !(y == b && i == num)
      ensures h.ins[y][i] == Slid(g.ins[y][i], e.point, e.rev)
    {
      assert InPaired(g, y, i);
    }
  }

  lemma PairedReplaceIn(g: Graph, b: nat, num: nat, source: nat)
    requires Paired(g) && InSlot(g, b, num) && source < |g.outs|
    ensures Paired(ReplaceIn(g, b, num, source))
  {
    ReplaceInAt(g, b, num, source);
    var h, e := ReplaceIn(g, b, num, source), g.ins[b][num];
    assert InPaired(g, b, num);
    forall y: nat, i: nat | InSlot(h, y, i) ensures InPaired(h, y, i) {
      if !(y == b && i == num) {
        assert InPaired(g, y, i);
        var f := g.ins[y][i];
        assert Before(h.ins[y][i].rev, e.rev, f.point == e.point) == f.rev;
      }
    }
    forall y: nat, k: nat | OutSlot(h, y, k) ensures OutPaired(h, y, k) {
      if !(y == source && k == |h.outs[source]| - 1) {
        assert OutPaired(g, y, Before(k, e.rev, y == e.point));
      }
    }
  }

  lemma PairedReplaceOut(g: Graph, b: nat, num: nat, target: nat)
    requires Paired(g) && OutSlot(g, b, num) && target < |g.ins|
    ensures Paired(ReplaceOut(g, b, num, target))
  {
    PairedFlip(g);
    PairedReplaceIn(Flip(g), b, num, target);
    assert Flip(ReplaceOut(g, b, num, target)) == ReplaceIn(Flip(g), b, num, target);
    PairedFlip(Flip(ReplaceOut(g, b, num, target)));
  }

  /** Between the two half-deletions of RemoveIn the other half's later neighbours are still paired. */
  lemma RemoveInHalfway(g: Graph, b: nat, slot: nat)
    requires Paired(g) && InSlot(g, b, slot)
    ensures var m, e := HalfDeleteIn(g, b, slot), g.ins[b][slot];
      OutSlot(m, e.point, e.rev) && forall k: nat :: e.rev < k < |m.outs[e.point]| ==> OutPaired(m, e.point, k)
  {
    var m, e := HalfDeleteIn(g, b, slot), g.ins[b][slot];
    assert InPaired(g, b, slot);
    forall k: nat | e.rev < k < |m.outs[e.point]| ensures OutPaired(m, e.point, k) {
      assert OutPaired(g, e.point, k);
      var f := m.outs[e.point][k];
      assert m.ins[f.point][f.rev] == g.ins[f.point][g.outs[e.point][k].rev];
    }
  }

  /** The edge at in-slot i and the edge at out-slot o of b become one edge past b. */
  function JoinHalves(g: Graph, b: nat, i: nat, o: nat): Graph
    requires |g.ins| == |g.outs| && InSlot(g, b, i) && InPaired(g, b, i) && OutSlot(g, b, o) && OutPaired(g, b, o)
  {
    var e, f := g.ins[b][i], g.outs[b][o];
    Graph(g.ins[f.point := g.ins[f.point][f.rev := g.ins[f.point][f.rev].(point := e.point, rev := e.rev)]],
          g.outs[e.point := g.outs[e.point][e.rev := g.outs[e.point][e.rev].(point := f.point, rev := f.rev)]])
  }

  function ReplaceThru(g: Graph, b: nat, i: nat, o: nat): Graph
    requires |g.ins| == |g.outs| && InSlot(g, b, i) && InPaired(g, b, i) && OutSlot(g, b, o) && OutPaired(g, b, o)
  {
    HalfDeleteOut(HalfDeleteIn(JoinHalves(g, b, i, o), b, i), b, o)
  }

  /** Every entry after b is bypassed: only the two deleted slots of b are gone. */
  lemma ReplaceThruAt(g: Graph, b: nat, i: nat, o: nat)
    requires Paired(g) && InSlot(g, b, i) && OutSlot(g, b, o)
    ensures var h, m := ReplaceThru(g, b, i, o), JoinHalves(g, b, i, o);
      && |h.ins| == |g.ins| && |h.outs| == |g.outs|
      && (forall y: nat :: y < |h.ins| ==> |h.ins[y]| == if y == b then |g.ins[y]| - 1 else |g.ins[y]|)
      && (forall y: nat, j: nat :: InSlot(h, y, j) ==> h.ins[y][j] == Slid(m.ins[y][Before(j, i, y == b)], b, o))
      && (forall y: nat :: y < |h.outs| ==> |h.outs[y]| == if y == b then |g.outs[y]| - 1 else |g.outs[y]|)
      && (forall y: nat, k: nat :: OutSlot(h, y, k) ==> h.outs[y][k] == Slid(m.outs[y][Before(k, o, y == b)], b, i))
  {
    var e, f := g.ins[b][i], g.outs[b][o];
    assert InPaired(g, b, i) && OutPaired(g, b, o);
    var m := JoinHalves(g, b, i, o);
    var n := HalfDeleteIn(m, b, i);
    var h := ReplaceThru(g, b, i, o);
    forall y: nat, j: nat | InSlot(h, y, j)
      ensures h.ins[y][j] == Slid(m.ins[y][Before(j, i, y == b)], b, o)
    {
      var q := Before(j, i, y == b);
      assert n.ins[y][j] == m.ins[y][q];
      assert InPaired(g, y, q);
    }
    forall y: nat, k: nat | OutSlot(h, y, k)
      ensures h.outs[y][k] == Slid(m.outs[y][Before(k, o, y == b)], b, i)
    {
      var q := Before(k, o, y == b);
      assert h.outs[y][k] == n.outs[y][q];
      assert OutPaired(g, y, q);
    }
  }

  lemma ReplaceThruInHalf(g: Graph, b: nat, i: nat, o: nat, y: nat, j: nat)
    requires Paired(g) && InSlot(g, b, i) && OutSlot(g, b, o)
    requires InSlot(ReplaceThru(g, b, i, o), y, j)
    ensures InPaired(ReplaceThru(g, b, i, o), y, j)
  {
    hide ReplaceThru;
    ReplaceThruAt(g, b, i, o);
    var h, m := ReplaceThru(g, b, i, o), JoinHalves(g, b, i, o);
    assert InPaired(g, b, i) && OutPaired(g, b, o);
    var q := Before(j, i, y == b);
    assert InPaired(g, y, q);
    var e := m.ins[y][q];
    assert Before(h.ins[y][j].rev, o, e.point == b) == e.rev;
  }

  lemma ReplaceThruOutHalf(g: Graph, b: nat, i: nat, o: nat, y: nat, k: nat)
    requires Paired(g) && InSlot(g, b, i) && OutSlot(g, b, o)
    requires OutSlot(ReplaceThru(g, b, i, o), y, k)
    ensures OutPaired(ReplaceThru(g, b, i, o), y, k)
  {
    hide ReplaceThru;
    ReplaceThruAt(g, b, i, o);
    var h, m := ReplaceThru(g, b, i, o), JoinHalves(g, b, i, o);
    assert InPaired(g, b, i) && OutPaired(g, b, o);
    var q := Before(k, o, y == b);
    assert OutPaired(g, y, q);
    var e := m.outs[y][q];
    assert Before(h.outs[y][k].rev, i, e.point == b) == e.rev;
  }

  lemma PairedReplaceThru(g: Graph, b: nat, i: nat, o: nat)
    requires Paired(g) && InSlot(g, b, i) && OutSlot(g, b, o)
    ensures Paired(ReplaceThru(g, b, i, o))
  {
    var h := ReplaceThru(g, b, i, o);
    forall y: nat, j: nat | InSlot(h, y, j) ensures InPaired(h, y, j) {
      ReplaceThruInHalf(g, b, i, o, y, j);
    }
    forall y: nat, k: nat | OutSlot(h, y, k) ensures OutPaired(h, y, k) {
      ReplaceThruOutHalf(g, b, i, o, y, k);
    }
  }

  lemma ReplaceThruHalfway(g: Graph, b: nat, i: nat, o: nat)
    requires Paired(g) && InSlot(g, b, i) && OutSlot(g, b, o)
    ensures var m := JoinHalves(g, b, i, o); var n := HalfDeleteIn(m, b, i);
      && (forall j: nat :: i < j < |m.ins[b]| ==> InPaired(m, b, j))
      && OutSlot(n, b, o) && (forall k: nat :: o < k < |n.outs[b]| ==> OutPaired(n, b, k))
  {
    var m := JoinHalves(g, b, i, o);
    var n := HalfDeleteIn(m, b, i);
    assert InPaired(g, b, i) && OutPaired(g, b, o);
    forall j: nat | i < j < |m.ins[b]| ensures InPaired(m, b, j) {
      assert InPaired(g, b, j);
    }
    forall k: nat | o < k < |n.outs[b]| ensures OutPaired(n, b, k) {
      assert OutPaired(g, b, k);
      var f := n.outs[b][k];
      assert m.ins[f.point][m.outs[b][k].rev] == n.ins[f.point][f.rev];
    }
  }

  /** The first two out-edges of b change places. */
  function SwapOut(g: Graph, b: nat): Graph
    requires |g.ins| == |g.outs| && b < |g.outs| && |g.outs[b]| >= 2
    requires OutPaired(g, b, 0) && OutPaired(g, b, 1)
  {
    var e, f := g.outs[b][1], g.outs[b][0];
    var ins := g.ins[e.point := g.ins[e.point][e.rev := g.ins[e.point][e.rev].(rev := 0)]];
    Graph(ins[f.point := ins[f.point][f.rev := ins[f.point][f.rev].(rev := 1)]],
          g.outs[b := g.outs[b][0 := e][1 := f]])
  }

  lemma PairedSwap(g: Graph, b: nat)
    requires Paired(g) && b < |g.outs| && |g.outs[b]| >= 2
    ensures OutPaired(g, b, 0) && OutPaired(g, b, 1) && Paired(SwapOut(g, b))
  {
    assert OutSlot(g, b, 0) && OutSlot(g, b, 1);
    var h := SwapOut(g, b);
    forall y: nat, i: nat | InSlot(h, y, i) ensures InPaired(h, y, i) {
      assert InPaired(g, y, i);
    }
    forall y: nat, k: nat | OutSlot(h, y, k) ensures OutPaired(h, y, k) {
      assert OutPaired(g, y, if y == b && k < 2 then 1 - k else k);
    }
  }

  /** The two halves of out-edge k of b get the flags f(old flags). */
  function Relabel(g: Graph, b: nat, k: nat, add: set<EdgeFlag>, drop: set<EdgeFlag>): Graph
    requires |g.ins| == |g.outs| && OutSlot(g, b, k) && OutPaired(g, b, k)
  {
    var e := g.outs[b][k];
    var d := g.ins[e.point][e.rev];
    Graph(g.ins[e.point := g.ins[e.point][e.rev := d.(flags := d.flags + add - drop)]],
          g.outs[b := g.outs[b][k := e.(flags := e.flags + add - drop)]])
  }

  lemma PairedRelabel(g: Graph, b: nat, k: nat, add: set<EdgeFlag>, drop: set<EdgeFlag>)
    requires Paired(g) && OutSlot(g, b, k)
    ensures Paired(Relabel(g, b, k, add, drop))
  {
    var h := Relabel(g, b, k, add, drop);
    forall y: nat, i: nat | InSlot(h, y, i) ensures InPaired(h, y, i) {
      assert InPaired(g, y, i);
    }
    forall y: nat, j: nat | OutSlot(h, y, j) ensures OutPaired(h, y, j) {
      assert OutPaired(g, y, j);
    }
  }

  /** The two tables have the same edges slot for slot, whatever their flags. */
  ghost predicate SameEnds(a: Adj, b: Adj) {
    && |a| == |b|
    && (forall x :: 0 <= x < |a| ==> |a[x]| == |b[x]|)
    && forall x: nat, k: nat :: x < |a| && k < |a[x]| ==> a[x][k].point == b[x][k].point && a[x][k].rev == b[x][k].rev
  }

  /** Both halves of every edge into one of the blocks have the same flags. */
  ghost predicate FlagsMatch(g: Graph, blocks: set<nat>) {
    forall b: nat, i: nat :: b in blocks && InSlot(g, b, i) && OutSlot(g, g.ins[b][i].point, g.ins[b][i].rev) ==>
      g.ins[b][i].flags == g.outs[g.ins[b][i].point][g.ins[b][i].rev].flags
  }

  lemma RelabelKeeps(g: Graph, b: nat, k: nat, add: set<EdgeFlag>, drop: set<EdgeFlag>, blocks: set<nat>)
    requires Paired(g) && OutSlot(g, b, k)
    ensures var h := Relabel(g, b, k, add, drop);
      SameEnds(g.ins, h.ins) && SameEnds(g.outs, h.outs) && (FlagsMatch(g, blocks) ==> FlagsMatch(h, blocks))
  {
    var h := Relabel(g, b, k, add, drop);
    assert OutPaired(g, b, k);
    if FlagsMatch(g, blocks) {
      forall y: nat, i: nat | y in blocks && InSlot(h, y, i) && OutSlot(h, h.ins[y][i].point, h.ins[y][i].rev)
        ensures h.ins[y][i].flags == h.outs[h.ins[y][i].point][h.ins[y][i].rev].flags
      {
        assert InPaired(g, y, i);
      }
    }
  }

  lemma SameEndsPaired(g: Graph, h: Graph)
    requires Paired(g) && SameEnds(g.ins, h.ins) && SameEnds(g.outs, h.outs)
    ensures Paired(h)
  {
    forall y: nat, i: nat | InSlot(h, y, i) ensures InPaired(h, y, i) {
      assert InPaired(g, y, i);
    }
    forall y: nat, k: nat | OutSlot(h, y, k) ensures OutPaired(h, y, k) {
      assert OutPaired(g, y, k);
    }
  }

  lemma SameEndsTransitive(a: Adj, b: Adj, c: Adj)
    requires SameEnds(a, b) && SameEnds(b, c)
    ensures SameEnds(a, c)
  {
  }

  /** Removing the newest edge undoes its addition. */
  lemma RemoveUndoesAdd(g: Graph, source: nat, target: nat, flags: set<EdgeFlag>)
    requires Paired(g) && source < |g.outs| && target < |g.ins|
    ensures Paired(AddEdge(g, source, target, flags))
    ensures RemoveOut(AddEdge(g, source, target, flags), source, |g.outs[source]|) == g
  {
    PairedAdd(g, source, target, flags);
    var h := AddEdge(g, source, target, flags);
    assert OutPaired(h, source, |g.outs[source]|);
    var r := RemoveOut(h, source, |g.outs[source]|);
    SameRows(r.ins, g.ins);
    SameRows(r.outs, g.outs);
  }

  ghost predicate Distinct(s: seq<nat>) {
    forall i, j :: 0 <= i < j < |s| ==> s[i] != s[j]
  }

  lemma {:induction false} DistinctFits(s: seq<nat>, n: nat)
    requires Distinct(s) && forall x :: x in s ==> x < n
    ensures |s| <= n
    decreases n
  {
    if |s| == 0 {
    } else if s[0] in s && n - 1 in s {
      var i :| 0 <= i < |s| && s[i] == n - 1;
      var r := s[..i] + s[i + 1..];
      forall x | x in r ensures x < n - 1 {
        var j :| 0 <= j < |r| && r[j] == x;
        var k := if j < i then j else j + 1;
        assert x == s[k] && s[k] in s && s[k] != s[i];
      }
      DistinctFits(r, n - 1);
    } else {
      DistinctFits(s, n - 1);
    }
  }

  class BlockGraph {
    var ins: Adj                      // intothis, per block
    var outs: Adj                     // outofthis, per block
    var list: seq<nat>                // the component blocks, in order
    var index: seq<int>
    var visitCount: seq<int>
    var numDesc: seq<int>
    var copyMap: seq<nat>
    var immedDom: seq<Option<nat>>
    var mark: seq<bool>               // f_mark
    var mark2: seq<bool>              // f_mark2

    constructor ()
      ensures ins == [] && outs == [] && list == []
    {
      ins, outs, list, index, visitCount, numDesc, copyMap, immedDom, mark, mark2 := [], [], [], [], [], [], [], [], [],
          [];
    }

    /** Every table has one row per block, and the component list names distinct blocks. */
    ghost predicate Sized()
      reads this
    {
      && |outs| == |ins| && |index| == |ins| && |visitCount| == |ins| && |numDesc| == |ins|
      && |copyMap| == |ins| && |immedDom| == |ins| && |mark| == |ins| && |mark2| == |ins|
      && (forall i :: 0 <= i < |list| ==> list[i] < |ins|)
      && forall i, j :: 0 <= i < j < |list| ==> list[i] != list[j]
    }

    ghost function G(): Graph
      reads this
    {
      Graph(ins, outs)
    }

    method HalfDeleteInEdge(b: nat, slot0: nat)
      requires InSlot(G(), b, slot0)
      requires forall i: nat :: slot0 < i < |ins[b]| ==> InPaired(G(), b, i)
      modifies this`ins, this`outs
      ensures G() == HalfDeleteIn(old(G()), b, slot0)
    {
      ghost var g := G();
      var slot := slot0;
      while slot < |ins[b]| - 1
        invariant slot0 <= slot < |g.ins[b]| && |ins| == |g.ins|
        invariant forall y :: 0 <= y < |ins| && y != b ==> ins[y] == g.ins[y]
        invariant ins[b] == g.ins[b][..slot0] + g.ins[b][slot0 + 1..slot + 1] + g.ins[b][slot..]
        invariant |outs| == |g.outs| && forall x: nat :: x < |outs| ==> |outs[x]| == |g.outs[x]|
        invariant forall x: nat, k: nat :: OutSlot(g, x, k) ==>
          outs[x][k] == if AboveIn(g, b, slot0, x, k) && g.outs[x][k].rev <= slot then Dec(g.outs[x][k])
              else g.outs[x][k]
      {
        var edge := ins[b][slot + 1];
        assert edge == g.ins[b][slot + 1];
        ins := ins[b := ins[b][slot := edge]];
        assert InPaired(g, b, slot + 1);
        var edger := outs[edge.point][edge.rev];
        outs := outs[edge.point := outs[edge.point][edge.rev := edger.(rev := edger.rev - 1)]];
        slot := slot + 1;
      }
      ins := ins[b := ins[b][..|ins[b]| - 1]];
      assert ins[b] == RemoveAt(g.ins[b], slot0);
      assert ins == g.ins[b := RemoveAt(g.ins[b], slot0)];
      SameRows(outs, HalfDeleteIn(g, b, slot0).outs);
    }

    method HalfDeleteOutEdge(b: nat, slot0: nat)
      requires OutSlot(G(), b, slot0)
      requires forall k: nat :: slot0 < k < |outs[b]| ==> OutPaired(G(), b, k)
      modifies this`ins, this`outs
      ensures G() == HalfDeleteOut(old(G()), b, slot0)
    {
      ghost var g := G();
      var slot := slot0;
      while slot < |outs[b]| - 1
        invariant slot0 <= slot < |g.outs[b]| && |outs| == |g.outs|
        invariant forall y :: 0 <= y < |outs| && y != b ==> outs[y] == g.outs[y]
        invariant outs[b] == g.outs[b][..slot0] + g.outs[b][slot0 + 1..slot + 1] + g.outs[b][slot..]
        invariant |ins| == |g.ins| && forall x: nat :: x < |ins| ==> |ins[x]| == |g.ins[x]|
        invariant forall x: nat, i: nat :: InSlot(g, x, i) ==>
          ins[x][i] == if AboveIn(Flip(g), b, slot0, x, i) && g.ins[x][i].rev <= slot then Dec(g.ins[x][i])
              else g.ins[x][i]
      {
        var edge := outs[b][slot + 1];
        assert edge == g.outs[b][slot + 1];
        outs := outs[b := outs[b][slot := edge]];
        assert OutPaired(g, b, slot + 1);
        var edger := ins[edge.point][edge.rev];
        ins := ins[edge.point := ins[edge.point][edge.rev := edger.(rev := edger.rev - 1)]];
        slot := slot + 1;
      }
      outs := outs[b := outs[b][..|outs[b]| - 1]];
      assert outs[b] == RemoveAt(g.outs[b], slot0);
      assert outs == g.outs[b := RemoveAt(g.outs[b], slot0)];
      SameRows(ins, HalfDeleteOut(g, b, slot0).ins);
    }

    method AddInEdge(b: nat, source: nat, flags: set<EdgeFlag>)
      requires Paired(G()) && b < |ins| && source < |outs|
      modifies this`ins, this`outs
      ensures G() == AddEdge(old(G()), source, b, flags) && Paired(G())
    {
      PairedAdd(G(), source, b, flags);
      var ourrev := |outs[source]|;
      var brev := |ins[b]|;
      ins := ins[b := ins[b] + [Edge(source, flags, ourrev)]];
      outs := outs[source := outs[source] + [Edge(b, flags, brev)]];
    }

    method RemoveInEdge(b: nat, slot: nat)
      requires Paired(G()) && InSlot(G(), b, slot)
      modifies this`ins, this`outs
      ensures G() == RemoveIn(old(G()), b, slot) && Paired(G())
    {
      ghost var g := G();
      PairedRemoveIn(g, b, slot);
      assert InPaired(g, b, slot);
      var source, rev := ins[b][slot].point, ins[b][slot].rev;
      HalfDeleteInEdge(b, slot);
      RemoveInHalfway(g, b, slot);
      HalfDeleteOutEdge(source, rev);
    }

    method RemoveOutEdge(b: nat, slot: nat)
      requires Paired(G()) && OutSlot(G(), b, slot)
      modifies this`ins, this`outs
      ensures G() == RemoveOut(old(G()), b, slot) && Paired(G())
    {
      ghost var g := G();
      assert OutPaired(g, b, slot);
      var target, rev := outs[b][slot].point, outs[b][slot].rev;
      HalfDeleteOutEdge(b, slot);
      PairedFlip(g);
      RemoveInHalfway(Flip(g), b, slot);
      ghost var m := G();
      forall i: nat | rev < i < |ins[target]| ensures InPaired(m, target, i) {
        assert OutPaired(Flip(m), target, i);
      }
      HalfDeleteInEdge(target, rev);
      RemoveEitherHalf(g, target, rev);
      PairedRemoveIn(g, target, rev);
    }

    method ReplaceInEdge(b: nat, num: nat, source: nat)
      requires Paired(G()) && InSlot(G(), b, num) && source < |outs|
      modifies this`ins, this`outs
      ensures G() == ReplaceIn(old(G()), b, num, source) && Paired(G())
    {
      ghost var g := G();
      assert InPaired(g, b, num);
      PairedReplaceIn(g, b, num, source);
      var oldb := ins[b][num].point;
      HalfDeleteOutEdge(oldb, ins[b][num].rev);
      ins := ins[b := ins[b][num := ins[b][num].(point := source)]];
      ins := ins[b := ins[b][num := ins[b][num].(rev := |outs[source]|)]];
      SameRows(ins, ReplaceIn(g, b, num, source).ins);
      outs := outs[source := outs[source] + [Edge(b, ins[b][num].flags, num)]];
    }

    method ReplaceOutEdge(b: nat, num: nat, target: nat)
      requires Paired(G()) && OutSlot(G(), b, num) && target < |ins|
      modifies this`ins, this`outs
      ensures G() == ReplaceOut(old(G()), b, num, target) && Paired(G())
    {
      ghost var g := G();
      assert OutPaired(g, b, num);
      PairedReplaceOut(g, b, num, target);
      var oldb := outs[b][num].point;
      HalfDeleteInEdge(oldb, outs[b][num].rev);
      outs := outs[b := outs[b][num := outs[b][num].(point := target)]];
      outs := outs[b := outs[b][num := outs[b][num].(rev := |ins[target]|)]];
      SameRows(outs, ReplaceOut(g, b, num, target).outs);
      ins := ins[target := ins[target] + [Edge(b, outs[b][num].flags, num)]];
    }

    method ReplaceEdgesThru(b: nat, i: nat, o: nat)
      requires Paired(G()) && InSlot(G(), b, i) && OutSlot(G(), b, o)
      modifies this`ins, this`outs
      ensures G() == ReplaceThru(old(G()), b, i, o) && Paired(G())
    {
      ghost var g := G();
      assert InPaired(g, b, i) && OutPaired(g, b, o);
      PairedReplaceThru(g, b, i, o);
      var inb, inSlot := ins[b][i].point, ins[b][i].rev;
      var outb, outSlot := outs[b][o].point, outs[b][o].rev;
      outs := outs[inb := outs[inb][inSlot := outs[inb][inSlot].(point := outb)]];
      outs := outs[inb := outs[inb][inSlot := outs[inb][inSlot].(rev := outSlot)]];
      ins := ins[outb := ins[outb][outSlot := ins[outb][outSlot].(point := inb)]];
      ins := ins[outb := ins[outb][outSlot := ins[outb][outSlot].(rev := inSlot)]];
      SameRows(ins, JoinHalves(g, b, i, o).ins);
      SameRows(outs, JoinHalves(g, b, i, o).outs);
      ReplaceThruHalfway(g, b, i, o);
      HalfDeleteInEdge(b, i);
      HalfDeleteOutEdge(b, o);
    }

    method SwapEdges(b: nat)
      requires Paired(G()) && b < |outs| && |outs[b]| >= 2
      modifies this`ins, this`outs
      ensures OutPaired(old(G()), b, 0) && OutPaired(old(G()), b, 1)
      ensures G() == SwapOut(old(G()), b) && Paired(G())
    {
      PairedSwap(G(), b);
      var tmp := outs[b][0];
      outs := outs[b := outs[b][0 := outs[b][1]]];
      outs := outs[b := outs[b][1 := tmp]];
      var bl := outs[b][0].point;
      ins := ins[bl := ins[bl][outs[b][0].rev := ins[bl][outs[b][0].rev].(rev := 0)]];
      bl := outs[b][1].point;
      ins := ins[bl := ins[bl][outs[b][1].rev := ins[bl][outs[b][1].rev].(rev := 1)]];
    }

    method SetOutEdgeFlag(b: nat, k: nat, flags: set<EdgeFlag>)
      requires Paired(G()) && OutSlot(G(), b, k)
      modifies this`ins, this`outs
      ensures G() == Relabel(old(G()), b, k, flags, {}) && Paired(G())
    {
      PairedRelabel(G(), b, k, flags, {});
      var e := outs[b][k];
      assert OutPaired(G(), b, k);
      assert forall s: set<EdgeFlag> :: s + flags - {} == s + flags;
      outs := outs[b := outs[b][k := e.(flags := e.flags + flags)]];
      var d := ins[e.point][e.rev];
      ins := ins[e.point := ins[e.point][e.rev := d.(flags := d.flags + flags)]];
    }

    method ClearOutEdgeFlag(b: nat, k: nat, flags: set<EdgeFlag>)
      requires Paired(G()) && OutSlot(G(), b, k)
      modifies this`ins, this`outs
      ensures G() == Relabel(old(G()), b, k, {}, flags) && Paired(G())
    {
      PairedRelabel(G(), b, k, {}, flags);
      var e := outs[b][k];
      assert OutPaired(G(), b, k);
      assert forall s: set<EdgeFlag> :: s + {} - flags == s - flags;
      outs := outs[b := outs[b][k := e.(flags := e.flags - flags)]];
      var d := ins[e.point][e.rev];
      ins := ins[e.point := ins[e.point][e.rev := d.(flags := d.flags - flags)]];
    }
  }
}
