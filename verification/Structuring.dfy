/** The structuring engine: rules that collapse blocks of the top level into structured ones. */
module Structuring {

  import opened Wrappers
  import opened Flow
  import opened Quotient
  import opened Identify
  import opened MovedLabels
  import opened Shapes

  predicate Decision(e: Edge) {
    !Goto(e) && BackEdge !in e.flags
  }

  lemma BiggerSound(s: Shape, f: Facts)
    requires Sound(s)
    ensures Sound(Shape(Bigger(s.g), s.list, s.facts + [f]))
  {
    BiggerPaired(s.g);
  }

  /** The ends of an edge marked goto are noted: b has one out of its interior, to one into its interior. */
  ghost predicate FactsMarked(f: seq<Facts>, f': seq<Facts>, b: nat, to: nat) {
    && |f'| == |f|
    && forall n :: 0 <= n < |f| ==>
         f'[n] == f[n].(interiorGotoOut := f[n].interiorGotoOut || n == b, interiorGotoIn := f[n].interiorGotoIn ||
             n == to)
  }

  lemma FactsSet(f: seq<Facts>, b: nat, to: nat)
    requires b < |f| && to < |f|
    ensures var f' := f[b := f[b].(interiorGotoOut := true)];
              FactsMarked(f, f'[to := f'[to].(interiorGotoIn := true)], b, to)
  {
  }

  /** Out-edge k of b is marked goto: a step down, if it was not marked. */
  ghost predicate Marked(s: Shape, t: Shape, b: nat, k: nat) {
    && Sound(s) && Sound(t) && t.list == s.list && |t.facts| == |s.facts| && SameDegrees(s.g, t.g) &&
       |t.g.ins| == |s.g.ins|
    && OutSlot(s.g, b, k) && OutPaired(s.g, b, k) && t.g == Relabel(s.g, b, k, {GotoEdge}, {})
    && FactsMarked(s.facts, t.facts, b, s.g.outs[b][k].point)
    && Size(t) == Size(s) && Switches(t) == Switches(s) && UnmarkedEdges(t) <= UnmarkedEdges(s)
    && (GotoEdge !in s.g.outs[b][k].flags ==> Smaller(t, s))
    && (forall y: nat, j: nat :: OutSlot(t.g, y, j) ==> t.g.outs[y][j].point == s.g.outs[y][j].point)
    && (forall y: nat, j: nat :: OutSlot(t.g, y, j) && !(y == b && j == k) ==> t.g.outs[y][j] == s.g.outs[y][j])
  }

  /** The edge at in-slot i of end, from begin, is gone. */
  ghost predicate Dropped(g: Graph, h: Graph, begin: nat, end: nat, i: nat) {
    |g.ins| == |g.outs| && InSlot(g, end, i) && InPaired(g, end, i) && g.ins[end][i].point == begin &&
        h == RemoveIn(g, end, i)
  }

  /** Entry k of the row, an edge to end, is left out; slots aside, the others stay. */
  ghost predicate CutAt(a: seq<Edge>, b: seq<Edge>, end: nat, k: nat) {
    k < |a| && a[k].point == end && Cut(a, b, k)
  }

  lemma DroppedRow(g: Graph, h: Graph, begin: nat, end: nat, i: nat)
    requires Paired(g) && Dropped(g, h, begin, end, i)
    ensures begin < |g.outs| == |h.outs| && exists k: nat :: CutAt(g.outs[begin], h.outs[begin], end, k)
  {
    RemoveCuts(g, end, i);
    assert CutAt(g.outs[begin], h.outs[begin], end, g.ins[end][i].rev);
  }

  lemma MarkedFrom(s: Shape, t: Shape, b: nat, k: nat)
    requires Sound(s) && b in s.list && OutSlot(s.g, b, k) && OutPaired(s.g, b, k) && |s.g.ins| == |s.g.outs|
    requires t.g == Relabel(s.g, b, k, {GotoEdge}, {}) && t.list == s.list && |t.facts| == |s.facts|
    requires FactsMarked(s.facts, t.facts, b, s.g.outs[b][k].point)
    ensures Marked(s, t, b, k) && Sound(t) && (Narrow(s) ==> Narrow(t))
  {
    MarkFacts(s, b, k);
    MarkRows(s.g, b, k);
    FactsOnly(WithGraph(s, t.g), t);
    hide Relabel, Narrow, Sound, Size, Switches, UnmarkedEdges;
  }

  /** More ways out can be forced later. */
  lemma SuperMore(s: Shape, m: Shape, comp: set<nat>, k: nat)
    requires Super(s, m, comp, 0)
    ensures Sound(m) && |m.g.outs| == |s.g.ins| + 1 == |m.g.ins|
    ensures var t := WithGraph(m, Forced(m.g, |s.g.ins|, k));
      && Super(s, t, comp, k) && Sound(t) && |t.g.outs| == |t.g.ins| == |s.g.ins| + 1 && Paired(t.g)
      && |t.g.outs[|s.g.ins|]| == if |m.g.outs[|s.g.ins|]| < k then k else |m.g.outs[|s.g.ins|]|
  {
    hide Collapsed, Inherits, Without;
    var ret := |s.g.ins|;
    var h: Graph :| SuperGraph(s.g, m.g, comp, 0, h);
    SuperFacts(s, m, comp, 0);
    SizesOfSuper(s, m, comp, 0, h);
    ForcedRows(m.g, ret, k);
    var t := WithGraph(m, Forced(m.g, ret, k));
    assert SuperGraph(s.g, t.g, comp, k, h);
    SuperFacts(s, t, comp, k);
  }

  lemma SizesOfSuper(s: Shape, m: Shape, comp: set<nat>, k: nat, h: Graph)
    requires Super(s, m, comp, k) && SuperGraph(s.g, m.g, comp, k, h)
    ensures |h.ins| == |h.outs| == |s.g.ins| + 1 && |m.g.ins| == |m.g.outs| == |s.g.ins| + 1 && Paired(m.g)
  {
    NewRow(s, h, comp, k, m.g);
  }

  lemma CollapsedSizes(s: Shape, h: Graph, comp: set<nat>, ret: nat)
    requires Collapsed(Bigger(s.g), h, comp, ret) && Sound(s)
    ensures |h.ins| == |h.outs| == |s.g.ins| + 1
  {
  }

  lemma SuperFrom(s: Shape, t: Shape, comp: set<nat>, k: nat, h: Graph, f: Facts)
    requires t.facts == s.facts + [f] && Inherits(s, comp, f) && Sound(s) && comp <= Members(s.list) && comp != {}
    requires t.list == Without(s.list, comp) + [|s.g.ins|] && Paired(h) && Collapsed(Bigger(s.g), h, comp, |s.g.ins|)
    requires |h.ins| == |h.outs| == |s.g.ins| + 1 && t.g == Forced(h, |s.g.ins|, k)
    ensures Super(s, t, comp, k) && Sound(t) && |t.g.ins| == |t.g.outs| == |s.g.ins| + 1
  {
    SoundSizes(s);
    assert SuperGraph(s.g, t.g, comp, k, h);
    hide Collapsed, Inherits, Forced, Paired, Without, SuperGraph;
    assert |t.facts| == |s.g.ins| + 1;
    SuperFacts(s, t, comp, k);
  }

  lemma RecordedMore(made: seq<Composite>, first: nat, s: Shape, nodes: seq<nat>)
    requires Recorded(made, first, |s.g.ins|) && SingleEntry(s, nodes)
    ensures Recorded(made + [Composite(s, nodes)], first, |s.g.ins| + 1)
  {
    hide SingleEntry;
  }

  class CollapseStructure {
    const graph: BlockGraph
    var facts: seq<Facts>             // flags and type of each block
    ghost const first: nat            // the blocks from this one on are built by the rules
    ghost var made: seq<Composite>    // how each of them was built

    /** The engine on a fresh copy of a control-flow graph: newBlockCopy marks every block with more than two ways out
        as a switch, whether or not an indirect branch made it one. */
    constructor FromCopy(g: BlockGraph, isSwitch: seq<bool>, complex: seq<bool>)
      requires g.Sized() && Paired(g.G()) && |isSwitch| == |complex| == |g.ins|
      requires forall b: nat :: b in g.list ==> Inside(g.ins[b], Members(g.list)) && Inside(g.outs[b], Members(g.list))
      requires forall b :: 0 <= b < |g.mark| ==> !g.mark[b] && !g.mark2[b]
      ensures graph == g && Valid() && first == |g.ins| && made == []
      ensures forall b :: 0 <= b < |facts| ==>
                (facts[b].switchOut <==> isSwitch[b] || |g.outs[b]| > 2) && facts[b].complex == complex[b]
    {
      graph := g;
      first := |g.ins|;
      made := [];
      facts := seq(|g.ins|, b requires 0 <= b < |g.ins| && |isSwitch| == |complex| == |g.ins| == |g.outs| reads g =>
        Facts(isSwitch[b] || |g.outs[b]| > 2, false, false, false, false, complex[b]));
    }

    ghost function S(): Shape
      reads this, graph
    {
      Shape(graph.G(), graph.list, facts)
    }

    /** The blocks are consistent, no marks are set, and each block built had a single entry. */
    ghost predicate Ready()
      reads this, graph
    {
      && graph.Sized() && Sound(S()) && Recorded(made, first, |graph.ins|)
      && forall b :: 0 <= b < |graph.mark| ==> !graph.mark[b] && !graph.mark2[b]
    }

    ghost predicate Valid()
      reads this, graph
    {
      Ready() && Narrow(S())
    }

    // ---------- building a new block ----------

    /** Adds a block with no edges, to be made of the nodes. It belongs to no list yet. */
    method NewBlock(f: Facts, index: int, ghost nodes: seq<nat>) returns (ret: nat)
      requires Ready() && SingleEntry(S(), nodes)
      modifies this`facts, this`made, graph
      ensures made == old(made) + [Composite(old(S()), nodes)]
      ensures ret == |old(graph.ins)| && graph.list == old(graph.list) && facts == old(facts) + [f]
      ensures graph.G() == Bigger(old(graph.G())) && Ready()
    {
      hide Sound, Paired, Inside, Members, SingleEntry, Recorded;
      BiggerSound(S(), f);
      ReadySizes();
      RecordedMore(made, first, S(), nodes);
      made := made + [Composite(S(), nodes)];
      ret := |graph.ins|;
      graph.ins := graph.ins + [[]];
      graph.outs := graph.outs + [[]];
      graph.index := graph.index + [index];
      graph.visitCount := graph.visitCount + [0];
      graph.numDesc := graph.numDesc + [0];
      graph.copyMap := graph.copyMap + [ret];
      graph.immedDom := graph.immedDom + [None];
      graph.mark := graph.mark + [false];
      graph.mark2 := graph.mark2 + [false];
      facts := facts + [f];
    }

    ghost predicate Listed(nodes: seq<nat>)
      reads graph
    {
      |nodes| > 0 && forall b :: b in nodes ==> b in graph.list
    }

    lemma ListedIn(nodes: seq<nat>, i: nat)
      requires Ready() && Listed(nodes) && i < |nodes|
      ensures nodes[i] < |graph.ins| == |graph.outs| == |graph.index| == |facts|
    {
      assert nodes[i] in nodes;
    }

    /** addBlock: a graph has the least index of its components. */
    method LeastIndex(nodes: seq<nat>) returns (index: int)
      requires Ready() && Listed(nodes)
    {
      ListedIn(nodes, 0);
      index := graph.index[nodes[0]];
      var i := 1;
      while i < |nodes|
        invariant 1 <= i <= |nodes|
      {
        ListedIn(nodes, i);
        if graph.index[nodes[i]] < index { index := graph.index[nodes[i]]; }
        i := i + 1;
      }
    }

    /** Whether components have jumps into, or out of, their interior. */
    method InteriorGotos(nodes: seq<nat>) returns (into: bool, out: bool)
      requires Ready() && Listed(nodes)
      ensures into <==> exists n: nat :: n in Members(nodes) && n < |facts| && facts[n].interiorGotoIn
      ensures out <==> exists n: nat :: n in Members(nodes) && n < |facts| && facts[n].interiorGotoOut
    {
      into, out := false, false;
      var i := 0;
      while i < |nodes|
        invariant i <= |nodes|
        invariant into <==> exists n: nat :: n in nodes[..i] && n < |facts| && facts[n].interiorGotoIn
        invariant out <==> exists n: nat :: n in nodes[..i] && n < |facts| && facts[n].interiorGotoOut
      {
        ListedIn(nodes, i);
        assert nodes[..i + 1] == nodes[..i] + [nodes[i]];
        into := into || facts[nodes[i]].interiorGotoIn;
        out := out || facts[nodes[i]].interiorGotoOut;
        i := i + 1;
      }
      assert nodes[..i] == nodes;
      MembersOf(nodes);
    }

    /** Whether a component that is a switch has an edge out of the set. */
    method SwitchLeaves(nodes: seq<nat>) returns (switchOut: bool)
      requires Ready() && Listed(nodes)
      ensures switchOut <==> SwitchPasses(S(), Members(nodes))
    {
      hide Inside, Sound;
      switchOut := false;
      var i := 0;
      while i < |nodes|
        invariant i <= |nodes|
        invariant switchOut <==>
                    exists n: nat :: n in nodes[..i] && n < |facts| && n < |graph.outs| && facts[n].switchOut &&
                      !Inside(graph.outs[n], Members(nodes))
      {
        ListedIn(nodes, i);
        assert nodes[..i + 1] == nodes[..i] + [nodes[i]];
        var leaves := Leaves(nodes[i], nodes);
        switchOut := switchOut || (facts[nodes[i]].switchOut && leaves);
        i := i + 1;
      }
      assert nodes[..i] == nodes;
      MembersOf(nodes);
    }

    /** The properties a block made of these components takes over. */
    method Inherited(nodes: seq<nat>, multiGoto: bool, complex: bool) returns (f: Facts)
      requires Ready() && Listed(nodes)
      ensures Inherits(S(), Members(nodes), f) && f.multiGoto == multiGoto && !f.defaultGoto && f.complex == complex
    {
      hide Ready, SwitchPasses;
      var into, out := InteriorGotos(nodes);
      var switchOut := SwitchLeaves(nodes);
      f := Facts(switchOut, multiGoto, false, into, out, complex);
    }

    method Leaves(b: nat, nodes: seq<nat>) returns (leaves: bool)
      requires b < |graph.outs|
      ensures leaves <==> !Inside(graph.outs[b], Members(nodes))
    {
      leaves := false;
      var k := 0;
      while k < |graph.outs[b]|
        invariant k <= |graph.outs[b]|
        invariant leaves <==> exists j :: 0 <= j < k && graph.outs[b][j].point !in Members(nodes)
      {
        if graph.outs[b][k].point !in nodes { leaves := true; }
        k := k + 1;
      }
    }

    method ForceOutputNum(b: nat, k: nat)
      requires Paired(graph.G()) && b < |graph.outs| == |graph.ins|
      modifies graph`ins, graph`outs
      ensures graph.G() == Forced(old(graph.G()), b, k)
    {
      while |graph.outs[b]| < k
        invariant Paired(graph.G()) && b < |graph.outs| == |graph.ins|
        invariant Forced(graph.G(), b, k) == Forced(old(graph.G()), b, k)
        decreases k - |graph.outs[b]|
      {
        graph.AddInEdge(b, b, {LoopEdge, BackEdge});
      }
    }

    /** Puts the components into a new block of the top level that has at least k ways out. */
    method NewSuper(nodes: seq<nat>, k: nat, multiGoto: bool, complex: bool) returns (ret: nat)
      requires Ready() && Listed(nodes) && SingleEntry(S(), nodes)
      modifies this`facts, this`made, graph
      ensures ret == |old(graph.ins)| && Super(old(S()), S(), Members(nodes), k) && Ready()
      ensures made == old(made) + [Composite(old(S()), nodes)] && Labelled(old(S()), S(), nodes)
      ensures ret < |facts| && facts[ret].multiGoto == multiGoto && !facts[ret].defaultGoto &&
                facts[ret].complex == complex
    {
      hide Ready, Inherits, Paired, Collapsed, Super, Members, Sound, Without, Recorded, SingleEntry, LabelsTaken,
        Labelled;
      ghost var s := S();
      ReadySizes();
      ListedMembers(nodes);
      ghost var none := graph.mark;
      var f := Inherited(nodes, multiGoto, complex);
      var index := LeastIndex(nodes);
      ret := NewBlock(f, index, nodes);
      ReadySizes();
      NewIsNew(s, nodes, ret);
      IdentifyInternal(graph, ret, nodes);
      ghost var h := graph.G();
      graph.list := graph.list + [ret];
      NewSuperForced(nodes, k, ret, s, f, h);
    }

    lemma ListedMembers(nodes: seq<nat>)
      requires Ready() && Listed(nodes)
      ensures Members(nodes) <= Members(graph.list) && Members(nodes) != {}
    {
      MembersOf(nodes);
      MembersOf(graph.list);
      assert nodes[0] in Members(nodes);
    }

    lemma NewIsNew(s: Shape, nodes: seq<nat>, ret: nat)
      requires Sound(s) && ret == |s.g.ins| && forall b :: b in nodes ==> b in s.list
      ensures ret !in s.list && ret !in nodes && |s.g.ins| == |s.g.outs|
    {
    }

    ghost predicate Sizes()
      reads this, graph
    {
      && |graph.ins| == |graph.outs| == |graph.mark| == |graph.mark2| == |graph.index| == |facts|
      && |graph.visitCount| == |graph.numDesc| == |graph.copyMap| == |graph.immedDom| == |graph.ins|
      && InRange(graph.list, |graph.ins|) && Paired(graph.G()) && Sound(S())
      && (forall i, j :: 0 <= i < j < |graph.list| ==> graph.list[i] != graph.list[j])
      && Recorded(made, first, |graph.ins|)
      && forall b :: 0 <= b < |graph.mark| ==> !graph.mark[b] && !graph.mark2[b]
    }

    lemma ReadySizes()
      requires Ready()
      ensures Sizes()
    {
    }

    /** Collapsing leaves no edge from the new block to itself. */
    lemma NoSelfLoop(g: Graph, h: Graph, comp: set<nat>, ident: nat)
      requires Collapsed(g, h, comp, ident)
      ensures !Leads(h.ins[ident], ident) && !Leads(h.outs[ident], ident)
    {
    }

    method NewSuperForced(ghost nodes: seq<nat>, k: nat, ret: nat, ghost s: Shape, ghost f: Facts, ghost h: Graph)
      requires ret == |s.g.ins| && facts == s.facts + [f] && Inherits(s, Members(nodes), f)
      requires Sound(s) && Members(nodes) <= Members(s.list) && Members(nodes) != {}
      requires graph.list == Without(s.list, Members(nodes)) + [ret]
      requires graph.G() == h && Paired(h) && Collapsed(Bigger(s.g), h, Members(nodes), ret)
      requires LabelsTaken(Bigger(s.g), h, nodes, ret)
      requires |graph.index| == |graph.visitCount| == |graph.numDesc| == |graph.copyMap| == |graph.immedDom| ==
                 |graph.mark| == |graph.mark2| == ret + 1
      requires Recorded(made, first, ret + 1) && forall b :: 0 <= b < |graph.mark| ==> !graph.mark[b] && !graph.mark2[b]
      modifies graph`ins, graph`outs
      ensures Super(s, S(), Members(nodes), k) && Ready() && Labelled(s, S(), nodes)
    {
      hide LabelsTaken, Labelled, Leads, Collapsed, Inherits, Without, Super, Forced, Members;
      CollapsedSizes(s, h, Members(nodes), ret);
      NoSelfLoop(Bigger(s.g), h, Members(nodes), ret);
      ghost var m := S();
      UnforcedLabelled(s, m, nodes);
      ForceOutputNum(ret, k);
      ForcedLabelled(s, m, S(), nodes, k);
      SuperFrom(s, S(), Members(nodes), k, h, f);
    }

    // ---------- changing edges of the top level ----------

    /** negateCondition: the two ways out change places. */
    method NegateCondition(b: nat)
      requires Valid() && b in graph.list && b < |graph.outs| && |graph.outs[b]| >= 2
      modifies graph`ins, graph`outs
      ensures Valid() && Turned(old(S()), S(), b)
      ensures b < |graph.outs| && graph.outs[b] == old(graph.outs[b])[0 := old(graph.outs[b])[1]][1 :=
                old(graph.outs[b])[0]]
    {
      SwapFacts(S(), b);
      graph.SwapEdges(b);
    }

    /** forceFalseEdge: the first way out leads to out0, or back to the block when out0 became part of it. */
    method ForceFalseEdge(b: nat, out0: nat, nodes: seq<nat>)
      requires Valid() && b in graph.list && b < |graph.outs| && |graph.outs[b]| == 2
      requires Leads(graph.outs[b], if out0 in nodes then b else out0)
      modifies graph`ins, graph`outs
      ensures Valid() && Turned(old(S()), S(), b)
      ensures b < |graph.outs| && |graph.outs[b]| == 2 && graph.outs[b][0].point == if out0 in nodes then b else out0
    {
      var out := if out0 in nodes then b else out0;
      if graph.outs[b][0].point != out {
        NegateCondition(b);
      }
    }

    /** removeEdge: the first edge found between two blocks goes. */
    method RemoveEdge(begin: nat, end: nat)
      requires Ready() && end in graph.list && end < |graph.ins| && Leads(graph.ins[end], begin)
      modifies graph`ins, graph`outs
      ensures Ready() && begin < |graph.outs| == |old(graph.outs)| &&
                |graph.outs[begin]| == |old(graph.outs[begin])| - 1
      ensures forall y: nat :: y < |graph.outs| && y != begin ==> |graph.outs[y]| == |old(graph.outs[y])|
      ensures exists i: nat :: Dropped(old(graph.G()), graph.G(), begin, end, i)
      ensures begin < |old(graph.outs)| && exists k: nat :: CutAt(old(graph.outs[begin]), graph.outs[begin], end, k)
      ensures graph.list == old(graph.list)
    {
      ghost var s := S();
      var i: nat := 0;
      while graph.ins[end][i].point != begin
        invariant i < |graph.ins[end]| && exists n :: i <= n < |graph.ins[end]| && graph.ins[end][n].point == begin
        decreases |graph.ins[end]| - i
      {
        i := i + 1;
      }
      RemoveFacts(s, end, i);
      ReadySizes();
      hide Sound, RemoveIn;
      assert InPaired(s.g, end, i);
      graph.RemoveInEdge(end, i);
      assert Dropped(s.g, graph.G(), begin, end, i);
      DroppedRow(s.g, graph.G(), begin, end, i);
    }

    /** setGotoBranch: an edge is marked goto, and both blocks note it. */
    method SetGotoBranch(b: nat, k: nat)
      requires Valid() && b in graph.list && OutSlot(graph.G(), b, k)
      modifies this`facts, graph`ins, graph`outs
      ensures Valid() && Marked(old(S()), S(), b, k)
    {
      hide Narrow, Marked, Inside, Members, Sound, FactsMarked, Recorded;
      ghost var s := S();
      ReadySizes();
      MarkFrame(graph.G(), b, k);
      graph.SetOutEdgeFlag(b, k, {GotoEdge});
      var to := graph.outs[b][k].point;
      facts := facts[b := facts[b].(interiorGotoOut := true)];
      facts := facts[to := facts[to].(interiorGotoIn := true)];
      FactsSet(s.facts, b, to);
      MarkedFrom(s, S(), b, k);
    }

    lemma MarkFrame(g: Graph, b: nat, k: nat)
      requires Paired(g) && OutSlot(g, b, k)
      ensures g.outs[b][k].point < |g.ins| && OutPaired(g, b, k)
    {
      assert OutPaired(g, b, k);
    }

    /** forceOutputNum on a block that was just built. */
    method ForceMore(ret: nat, k: nat, ghost s: Shape, ghost comp: set<nat>, ghost nodes: seq<nat>)
      requires Ready() && Super(s, S(), comp, 0) && ret == |s.g.ins| && Labelled(s, S(), nodes)
      modifies graph`ins, graph`outs
      ensures Labelled(s, S(), nodes)
      ensures Ready() && Super(s, S(), comp, k) && |graph.outs| == |old(graph.outs)|
      ensures ret < |graph.outs| && |graph.outs[ret]| == if |old(graph.outs[ret])| < k then k
                else |old(graph.outs[ret])|
    {
      hide Sound, Super, Forced, Inside, Members, Labelled, Recorded;
      ghost var m := S();
      ReadySizes();
      SuperMore(s, m, comp, k);
      ForceOutputNum(ret, k);
      ForcedLabelled(s, m, S(), nodes, k);
    }
  }
}
