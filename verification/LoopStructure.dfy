/** BlockGraph::structureLoops and the sequence that follows it when a function is restructured. */
module LoopStructure {

  import opened Wrappers
  import opened Flow
  import opened Forest
  import opened Reducibility
  import opened EntryLists
  import opened SpanningTree
  import opened Irreducible
  import opened Dominance
  import opened Dominators

  /** Every component edge that is not a loop edge leads to a larger index. */
  ghost predicate Ascending(outs: Adj, index: seq<int>, comp: set<nat>) {
    && Closed(outs, comp) && (forall b :: b in comp ==> b < |index|)
    && forall u: nat, k: nat :: u in comp && k < |outs[u]| && LoopEdge !in outs[u][k].flags ==>
         index[u] < index[outs[u][k].point]
  }

  predicate FreeEdge(outs: Adj, u: nat, v: nat) {
    u < |outs| && exists k :: 0 <= k < |outs[u]| && outs[u][k].point == v && LoopEdge !in outs[u][k].flags
  }

  /** A walk along edges that are not loop edges. */
  ghost predicate LoopFreeWalk(outs: Adj, p: seq<nat>) {
    |p| > 0 && forall i :: 0 <= i < |p| - 1 ==> FreeEdge(outs, p[i], p[i + 1])
  }

  /** Without the loop edges there is no cycle. */
  lemma {:induction false} NoCycleWithoutLoopEdges(outs: Adj, index: seq<int>, comp: set<nat>, p: seq<nat>)
    requires Ascending(outs, index, comp) && LoopFreeWalk(outs, p) && |p| > 1 && p[0] in comp
    ensures p[|p| - 1] in comp && index[p[0]] < index[p[|p| - 1]]
    decreases |p|
  {
    assert FreeEdge(outs, p[0], p[1]);
    if |p| > 2 {
      var q := p[1..];
      assert LoopFreeWalk(outs, q) by {
        forall i | 0 <= i < |q| - 1 ensures FreeEdge(outs, q[i], q[i + 1]) {
          assert FreeEdge(outs, p[i + 1], p[i + 2]);
        }
      }
      NoCycleWithoutLoopEdges(outs, index, comp, q);
    }
  }

  /** The path of the search for remaining cycles climbs in index, and mark2 is set exactly on it. */
  ghost predicate Climbing(index: seq<int>, mark2: seq<bool>, comp: set<nat>, path: seq<nat>)
    requires forall b :: b in comp ==> b < |index|
  {
    && (forall j :: 0 <= j < |path| ==> path[j] in comp)
    && (forall i, j :: 0 <= i < j < |path| ==> index[path[i]] < index[path[j]])
    && forall b :: b in comp ==> b < |mark2| && (mark2[b] <==> b in path)
  }

  lemma NextIsNotOnPath(index: seq<int>, mark2: seq<bool>, comp: set<nat>, path: seq<nat>, next: nat)
    requires (forall b :: b in comp ==> b < |index|) && Climbing(index, mark2, comp, path) && |path| > 0
    requires next in comp && index[path[|path| - 1]] < index[next]
    ensures !mark2[next] && Climbing(index, mark2[next := true], comp, path + [next])
  {
    forall j | 0 <= j < |path| ensures index[path[j]] < index[next] {
      assert j < |path| - 1 ==> index[path[j]] < index[path[|path| - 1]];
    }
  }

  lemma PopKeepsClimbing(index: seq<int>, mark2: seq<bool>, comp: set<nat>, path: seq<nat>)
    requires (forall b :: b in comp ==> b < |index|) && Climbing(index, mark2, comp, path) && |path| > 0
    ensures path[|path| - 1] < |mark2|
    ensures Climbing(index, mark2[path[|path| - 1] := false], comp, path[..|path| - 1])
  {
    var top, rest := path[|path| - 1], path[..|path| - 1];
    forall j | 0 <= j < |rest| ensures rest[j] != top {
      assert index[path[j]] < index[top];
    }
    forall b | b in comp && b in path && b != top ensures b in rest {
      var j :| 0 <= j < |path| && path[j] == b;
      assert rest[j] == b;
    }
  }

  /** Looks for cycles left beside the loop edges. None is left when the edges ascend, so the call of
      addLoopEdge is never reached: the edge tables are not even in the frame. */
  method CalcLoop(g: BlockGraph, ghost comp: set<nat>)
    requires comp == Elements(g.list) && Ascending(g.outs, g.index, comp)
    requires forall b :: b in comp ==> b < |g.mark| && b < |g.mark2| && !g.mark[b] && !g.mark2[b]
    modifies g`mark, g`mark2
    ensures forall b :: b in comp ==> b < |g.mark| && b < |g.mark2| && !g.mark[b] && !g.mark2[b]
  {
    hide Climbing, Ascending;
    if |g.list| == 0 { return; }
    forall i | 0 <= i < |g.list| ensures g.list[i] in comp {}
    AscendingSizes(g.outs, g.index, comp);
    ClimbingStarts(g.index, g.mark2, comp, g.list[0]);
    var path, state := [g.list[0]], [0];
    g.mark := g.mark[g.list[0] := true];
    g.mark2 := g.mark2[g.list[0] := true];
    ghost var unvisited := comp - {g.list[0]};
    while |path| > 0
      invariant |state| == |path| && (forall b :: b in comp ==> b < |g.mark| && b < |g.mark2|) &&
                  Climbing(g.index, g.mark2, comp, path)
      invariant forall j :: 0 <= j < |path| ==> path[j] in comp
      invariant forall b :: b in comp ==> (g.mark[b] <==> b !in unvisited)
      invariant forall j :: 0 <= j < |state| ==> 0 <= state[j] <= |g.outs[path[j]]|
      decreases unvisited, |path|, if |path| > 0 then |g.outs[path[|path| - 1]]| - state[|path| - 1] else 0
    {
      var bl := path[|path| - 1];
      var i := state[|state| - 1];
      if i >= |g.outs[bl]| {
        PopKeepsClimbing(g.index, g.mark2, comp, path);
        g.mark2 := g.mark2[bl := false];
        path, state := path[..|path| - 1], state[..|state| - 1];
      } else {
        state := state[|state| - 1 := i + 1];
        if LoopEdge !in g.outs[bl][i].flags {
          var nextbl := g.outs[bl][i].point;
          AscendingEdge(g.outs, g.index, comp, bl, i);
          NextIsNotOnPath(g.index, g.mark2, comp, path, nextbl);
          assert !g.mark2[nextbl];      // no cycle found
          if !g.mark[nextbl] {
            g.mark := g.mark[nextbl := true];
            g.mark2 := g.mark2[nextbl := true];
            unvisited := unvisited - {nextbl};
            path, state := path + [nextbl], state + [0];
          }
        }
      }
    }
    ClearMarks(g, comp);
  }

  lemma ClimbingStarts(index: seq<int>, mark2: seq<bool>, comp: set<nat>, b: nat)
    requires (forall c :: c in comp ==> c < |index| && c < |mark2| && !mark2[c]) && b in comp
    ensures Climbing(index, mark2[b := true], comp, [b])
  {
  }

  lemma AscendingSizes(outs: Adj, index: seq<int>, comp: set<nat>)
    requires Ascending(outs, index, comp)
    ensures forall b :: b in comp ==> b < |index| && b < |outs|
  {
  }

  lemma AscendingEdge(outs: Adj, index: seq<int>, comp: set<nat>, b: nat, k: nat)
    requires Ascending(outs, index, comp) && b in comp && b < |outs| && k < |outs[b]| && LoopEdge !in outs[b][k].flags
    ensures var p := outs[b][k].point; p in comp && b < |index| && p < |index| && index[b] < index[p]
  {
  }

  method ClearMarks(g: BlockGraph, ghost comp: set<nat>)
    requires comp == Elements(g.list) && forall i :: 0 <= i < |g.list| ==> g.list[i] < |g.mark| && g.list[i] < |g.mark2|
    modifies g`mark, g`mark2
    ensures |g.mark| == |old(g.mark)| && |g.mark2| == |old(g.mark2)|
    ensures forall b :: b in comp ==> !g.mark[b] && !g.mark2[b]
  {
    var i := 0;
    while i < |g.list|
      invariant 0 <= i <= |g.list| && |g.mark| == |old(g.mark)| && |g.mark2| == |old(g.mark2)|
      invariant forall j :: 0 <= j < i ==> !g.mark[g.list[j]] && !g.mark2[g.list[j]]
    {
      g.mark := g.mark[g.list[i] := false];
      g.mark2 := g.mark2[g.list[i] := false];
      i := i + 1;
    }
  }

  lemma ForestIsTree(outs: Adj, list: seq<nat>, f: Tables, roots: set<nat>)
    requires SpanningForest(outs, list, f, roots)
    ensures Spanned(outs, f)
  {
  }

  /** Back edges carry the loop flag, and all other edges ascend, flagged as irreducible or not. */
  lemma FlaggedAscends(outs0: Adj, outs: Adj, list: seq<nat>, f: Tables, roots: set<nat>, irr: set<(nat, nat)>)
    requires SpanningForest(outs0, list, f, roots) && Flagged(outs0, outs, f.comp, irr)
    ensures Ascending(outs, f.index, f.comp)
  {
    forall u: nat, k: nat | u in f.comp && k < |outs[u]|
      ensures outs[u][k].point in f.comp && (LoopEdge !in outs[u][k].flags ==> f.index[u] < f.index[outs[u][k].point])
    {
      assert outs[u][k].point == outs0[u][k].point;
      assert Labelled(f, u, k, outs0[u][k].point, outs0[u][k].flags);
      assert (u, k) in irr ==> outs0[u][k].flags == {ForwardEdge} || outs0[u][k].flags == {CrossEdge};
    }
  }

  lemma FlagsKeepOuts(h: Graph, outs0: Adj, comp: set<nat>, irr: set<(nat, nat)>)
    requires EdgeState(h, outs0, comp, irr)
    ensures SameEnds(outs0, h.outs) && Flagged(outs0, h.outs, comp, irr)
  {
  }

  ghost predicate Unmarked(g: BlockGraph, comp: set<nat>)
    reads g
  {
    forall b :: b in comp ==> b < |g.mark| && b < |g.mark2| && !g.mark[b] && !g.mark2[b]
  }

  /** Everything structureLoops leaves behind: outs0 has the labels of the spanning forest, irr the edges
      then flagged as irreducible. */
  ghost predicate Structured(g: BlockGraph, outs0: Adj, f: Tables, roots: set<nat>, irr: set<(nat, nat)>)
    reads g
  {
    && InFields(g, f) && f.comp == Elements(g.list) && SpanningForest(outs0, g.list, f, roots)
    && EdgeState(g.G(), outs0, f.comp, irr)
    && (irr == {} <==> Reducible(outs0, {}, f.par, f.comp)) && Reducible(outs0, irr, f.par, f.comp)
    && (forall e :: e in irr ==> EntersBeside(outs0, f, e))
    && Ascending(g.outs, g.index, f.comp)
  }

  lemma EntryIsListed(h: Graph, list: seq<nat>)
    requires OneEntry(h, list)
    ensures list != []
  {
  }

  /** One pass of the loop of structureLoops: spanning tree, then irreducible edges. */
  method Pass(g: BlockGraph, count0: nat)
    returns (needrebuild: bool, count: nat, rootlist: seq<nat>,
             ghost outs0: Adj, ghost f: Tables, ghost roots: set<nat>, ghost irr: set<(nat, nat)>)
    requires Components(g) && forall b :: b in Elements(g.list) ==> b < |g.mark| && !g.mark[b]
    modifies g`ins, g`outs, g`visitCount, g`index, g`numDesc, g`copyMap, g`list, g`mark
    ensures !needrebuild && count == count0 + |irr|
    ensures Elements(g.list) == Elements(old(g.list)) && |g.list| == |old(g.list)| && |g.index| == |g.ins|
    ensures Structured(g, outs0, f, roots, irr) && roots <= Elements(rootlist) <= Elements(g.list)
    ensures g.list != [] ==> g.list[0] in rootlist
    ensures SameEnds(old(g.outs), g.outs) && SameEnds(old(g.ins), g.ins)
    ensures forall b :: b in Elements(g.list) ==> b < |g.mark| && !g.mark[b]
    ensures OneEntry(old(g.G()), old(g.list)) ==> rootlist == [g.list[0]] && g.list[0] == old(g.list[0])
    ensures EntryList(old(g.G()), old(g.list), rootlist)
  {
    hide SpanningForest, Reducible, EntersBeside, EdgeState, OneEntry, EntryList, Closed, Ascending, Spanned,
      FlagsMatch, SameEnds, Flagged;
    ghost var comp := Elements(g.list);
    ghost var outs, ins := g.outs, g.ins;
    var preorder;
    ghost var par;
    preorder, rootlist, par, roots := FindSpanningTree(g);
    f, outs0 := Tables(preorder, g.visitCount, g.index, g.numDesc, par, comp), g.outs;
    ghost var ins0 := g.ins;
    ForestIsTree(g.outs, g.list, f, roots);
    needrebuild, count, irr := FindIrreducible(g, preorder, count0, f);
    FlagsKeepOuts(g.G(), outs0, comp, irr);
    FlaggedAscends(outs0, g.outs, g.list, f, roots, irr);
    SameEndsTransitive(outs, outs0, g.outs);
    SameEndsTransitive(ins, ins0, g.ins);
  }

  /** Spanning tree and irreducible edges. A rebuild is never asked for, so the loop ends after one pass;
      then nothing is left for calcLoop to do. */
  method StructureLoops(g: BlockGraph)
    returns (rootlist: seq<nat>, ghost outs0: Adj, ghost f: Tables, ghost roots: set<nat>,
             ghost irr: set<(nat, nat)>)
    requires Components(g) && Unmarked(g, Elements(g.list))
    modifies g`ins, g`outs, g`visitCount, g`index, g`numDesc, g`copyMap, g`list, g`mark, g`mark2
    ensures Elements(g.list) == Elements(old(g.list)) && |g.list| == |old(g.list)|
    ensures Structured(g, outs0, f, roots, irr) && roots <= Elements(rootlist) <= Elements(g.list)
    ensures g.list != [] ==> g.list[0] in rootlist
    ensures SameEnds(old(g.outs), g.outs) && SameEnds(old(g.ins), g.ins)
    ensures Unmarked(g, Elements(g.list)) && |g.index| == |g.ins|
    ensures OneEntry(old(g.G()), old(g.list)) ==> rootlist == [g.list[0]] && g.list[0] == old(g.list[0])
    ensures EntryList(old(g.G()), old(g.list), rootlist)
  {
    hide SpanningForest, Reducible, EntersBeside, EdgeState, OneEntry, EntryList, Closed, Spanned, FlagsMatch,
      Components, SameEnds;
    var needrebuild := true;
    var irreduciblecount := 0;
    outs0, f, roots, irr := [], Tables([], [], [], [], [], {}), {}, {};
    rootlist := [];
    while needrebuild
      invariant needrebuild ==> Components(g) && g.list == old(g.list) && g.G() == old(g.G()) && irreduciblecount == 0
      invariant Elements(g.list) == Elements(old(g.list)) && |g.list| == |old(g.list)|
      invariant Unmarked(g, Elements(g.list))
      invariant !needrebuild ==>
                  Structured(g, outs0, f, roots, irr) && roots <= Elements(rootlist) <= Elements(g.list) &&
                  (g.list != [] ==> g.list[0] in rootlist) && |g.index| == |g.ins|
      invariant !needrebuild ==> SameEnds(old(g.outs), g.outs) && SameEnds(old(g.ins), g.ins)
      invariant !needrebuild ==> EntryList(old(g.G()), old(g.list), rootlist)
      invariant !needrebuild && OneEntry(old(g.G()), old(g.list)) ==>
                  old(g.list) != [] && rootlist == [g.list[0]] && g.list[0] == old(g.list[0])
      decreases needrebuild
    {
      if OneEntry(g.G(), g.list) { EntryIsListed(g.G(), g.list); }
      needrebuild, irreduciblecount, rootlist, outs0, f, roots, irr := Pass(g, irreduciblecount);
    }
    if irreduciblecount > 0 {
      CalcLoop(g, Elements(g.list));
    }
  }

  // ---------- followed by the dominators ----------

  lemma ComponentIsListed(list: seq<nat>, index: seq<int>, comp: set<nat>, b: nat)
    requires (forall c :: c in comp ==> c < |index|) && Numbers(list, index, comp) && b in comp
    ensures Listed(list, index, b)
  {
  }

  /** A structured graph is numbered as calcForwardDominator asks for. */
  lemma StructuredIsNumbered(h: Graph, outs0: Adj, list: seq<nat>, f: Tables, roots: set<nat>, irr: set<(nat, nat)>)
    requires SpanningForest(outs0, list, f, roots)
    requires EdgeState(h, outs0, f.comp, irr) && |f.index| == |h.ins|
    ensures Numbered(h.ins, list, f.index) && TargetsListed(h.outs, list, f.index)
    ensures forall b :: b in f.comp ==> Listed(list, f.index, b)
  {
    forall b | b in f.comp ensures Listed(list, f.index, b) { ComponentIsListed(list, f.index, f.comp, b); }
    forall i, j | 0 <= i < |list| && 0 <= j < |h.ins[list[i]]| ensures Listed(list, f.index, h.ins[list[i]][j].point) {
      assert list[i] in f.comp;
    }
    forall i, k | 0 <= i < |list| && list[i] < |h.outs| && 0 <= k < |h.outs[list[i]]|
      ensures Listed(list, f.index, h.outs[list[i]][k].point)
    {
      assert list[i] in f.comp && h.outs[list[i]][k].point == outs0[list[i]][k].point;
    }
  }

  /** The tree edge into a block that is not a root comes from a smaller index. */
  lemma EnteredFromSmaller(h: Graph, outs0: Adj, list: seq<nat>, f: Tables, roots: set<nat>, irr: set<(nat, nat)>,
                           i: nat) returns (j: nat)
    requires SpanningForest(outs0, list, f, roots)
    requires EdgeState(h, outs0, f.comp, irr) && i < |list| && list[i] !in roots
    ensures list[i] < |h.ins| && j < |h.ins[list[i]]| && h.ins[list[i]][j].point in f.comp &&
              f.index[h.ins[list[i]][j].point] < i
  {
    var v := list[i];
    assert v in f.comp && f.index[v] == i;
    var (u, k) := f.par[v].value;
    assert Labelled(f, u, k, v, outs0[u][k].flags);
    OutEdgeOf(h, outs0, f.comp, irr, u, k);
    j := h.outs[u][k].rev;
  }

  /** So it is in reverse post-order from its entry points. */
  lemma StructuredIsEntered(h: Graph, outs0: Adj, list: seq<nat>, f: Tables, roots: set<nat>, irr: set<(nat, nat)>,
                            rootlist: seq<nat>)
    requires SpanningForest(outs0, list, f, roots) && roots <= Elements(rootlist) <= f.comp
    requires EdgeState(h, outs0, f.comp, irr) && |f.index| == |h.ins| && list != [] && list[0] in rootlist
    ensures Entered(h.ins, list, f.index, rootlist)
  {
    hide SpanningForest, EdgeState;
    StructuredIsNumbered(h, outs0, list, f, roots, irr);
    forall k | 0 <= k < |rootlist| ensures Listed(list, f.index, rootlist[k]) {
      assert rootlist[k] in Elements(rootlist);
    }
    assert forall r :: r in roots ==> r in rootlist by { assert forall r :: r in roots ==> r in Elements(rootlist); }
    var preds, w := PredsOf(h.ins, list, f.index), EntryPreds(h.ins, list, f.index, rootlist);
    forall b: nat | 0 < b < |w| ensures EnteredBelow(w, b) {
      if list[b] in rootlist {
        assert w[b][|preds[b]|] == 0;
      } else {
        var j := EnteredFromSmaller(h, outs0, list, f, roots, irr, b);
        assert w[b][j] == preds[b][j] < b;
      }
    }
    forall b: nat, j: nat | b < |w| && j < |w[b]| ensures w[b][j] < |w| {
      if j < |preds[b]| { assert Listed(list, f.index, h.ins[list[b]][j].point); }
    }
  }

  /** The control-flow part of Funcdata::structureReset: labels, order, loops and immediate dominators. */
  method StructureReset(g: BlockGraph)
    returns (rootlist: seq<nat>, ghost outs0: Adj, ghost f: Tables, ghost roots: set<nat>, ghost irr: set<(nat, nat)>)
    requires Components(g) && Unmarked(g, Elements(g.list))
    modifies g
    ensures Elements(g.list) == Elements(old(g.list)) && Elements(rootlist) <= Elements(g.list)
    ensures SameEnds(old(g.outs), g.outs) && SameEnds(old(g.ins), g.ins)
    ensures Structured(g, outs0, f, roots, irr) && roots <= Elements(rootlist)
    ensures Numbered(g.ins, g.list, g.index) && (g.list != [] ==> Entered(g.ins, g.list, g.index, rootlist))
    ensures DominatorForest(g.ins, g.list, g.index, rootlist, g.immedDom)
    ensures EntryList(old(g.G()), old(g.list), rootlist)
    ensures OneEntry(old(g.G()), old(g.list)) ==>
              g.list != [] && rootlist == [g.list[0]] == old(g.list[..1]) &&
              DominatorTree(g.ins, g.list, g.index, g.immedDom)
  {
    hide SpanningForest, Reducible, EntersBeside, EdgeState, OneEntry, EntryList, Closed, Ascending, FlagsMatch,
      SingleEntry, TargetsListed, Numbered, Entered, DominatorForest, DominatorTree;
    ghost var h0, list0 := g.G(), g.list;
    rootlist, outs0, f, roots, irr := StructureLoops(g);
    ReadyForDominators(g, outs0, f, roots, irr, rootlist);
    CalcForwardDominator(g, rootlist);
    if OneEntry(h0, list0) {
      EntryIsListed(h0, list0);
      OneEntryForest(g.ins, g.list, g.index, g.immedDom);
    }
  }

  lemma ReadyForDominators(g: BlockGraph, outs0: Adj, f: Tables, roots: set<nat>, irr: set<(nat, nat)>,
                           rootlist: seq<nat>)
    requires Structured(g, outs0, f, roots, irr) && |g.index| == |g.ins|
    requires roots <= Elements(rootlist) <= Elements(g.list) && (g.list != [] ==> g.list[0] in rootlist)
    ensures Paired(g.G()) && Numbered(g.ins, g.list, g.index) && TargetsListed(g.outs, g.list, g.index)
    ensures g.list != [] ==> Entered(g.ins, g.list, g.index, rootlist)
  {
    StructuredIsNumbered(g.G(), outs0, g.list, f, roots, irr);
    if g.list != [] { StructuredIsEntered(g.G(), outs0, g.list, f, roots, irr, rootlist); }
  }
}
