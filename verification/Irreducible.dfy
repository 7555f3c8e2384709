/** BlockGraph::findIrreducible and structureLoops. */
module Irreducible {

  import opened Wrappers
  import opened Flow
  import opened Forest
  import opened Reducibility

  /** Edges flagged so far lost their forward or cross label to the irreducible flag; the rest of the
      labels are those of the spanning forest. */
  ghost predicate Flagged(outs0: Adj, outs: Adj, comp: set<nat>, irr: set<(nat, nat)>) {
    && SameEnds(outs0, outs)
    && (forall b :: b in comp ==> b < |outs|)
    && (forall e :: e in irr ==>
       e.0 in comp && e.1 < |outs0[e.0]| && (outs0[e.0][e.1].flags == {ForwardEdge} ||
       outs0[e.0][e.1].flags == {CrossEdge}))
    && forall u: nat, k: nat :: u in comp && k < |outs0[u]| ==>
         outs[u][k].flags == if (u, k) in irr then {IrreducibleEdge} else outs0[u][k].flags
  }

  ghost predicate EdgeState(h: Graph, outs0: Adj, comp: set<nat>, irr: set<(nat, nat)>) {
    Paired(h) && FlagsMatch(h, comp) && Closed(h.ins, comp) && Flagged(outs0, h.outs, comp, irr)
  }

  /** The in-half at slot i of t and its out-half, which is an edge of the forest. */
  lemma InEdgeOf(h: Graph, outs0: Adj, comp: set<nat>, irr: set<(nat, nat)>, t: nat, i: nat)
    requires EdgeState(h, outs0, comp, irr) && t in comp && i < |h.ins[t]|
    ensures var e := h.ins[t][i];
      && e.point in comp && e.rev < |outs0[e.point]| && outs0[e.point][e.rev].point == t && Edges(outs0, {}, e.point, t)
      && OutSlot(h, e.point, e.rev)
      && e.flags == if (e.point, e.rev) in irr then {IrreducibleEdge} else outs0[e.point][e.rev].flags
  {
    assert InPaired(h, t, i);
  }

  /** Every edge of the forest into t is among the in-edges of t. */
  lemma OutEdgeOf(h: Graph, outs0: Adj, comp: set<nat>, irr: set<(nat, nat)>, y: nat, k: nat)
    requires EdgeState(h, outs0, comp, irr) && y in comp && k < |outs0[y]| && Closed(outs0, comp)
    ensures var t, i := outs0[y][k].point, h.outs[y][k].rev;
      t in comp && i < |h.ins[t]| && h.ins[t][i].point == y && h.ins[t][i].rev == k
  {
    assert OutPaired(h, y, k);
  }

  /** Setting the irreducible flag and dropping the old label of one edge. */
  lemma FlagOneMore(h: Graph, outs0: Adj, comp: set<nat>, irr: set<(nat, nat)>, y: nat, k: nat)
    requires EdgeState(h, outs0, comp, irr) && y in comp && k < |outs0[y]| && (y, k) !in irr
    requires outs0[y][k].flags == {ForwardEdge} || outs0[y][k].flags == {CrossEdge}
    ensures OutSlot(h, y, k) && Paired(Relabel(h, y, k, {IrreducibleEdge}, {})) &&
              OutSlot(Relabel(h, y, k, {IrreducibleEdge}, {}), y, k)
    ensures EdgeState(Relabel(Relabel(h, y, k, {IrreducibleEdge}, {}), y, k, {}, {CrossEdge, ForwardEdge}), outs0, comp,
              irr + {(y, k)})
  {
    PairedRelabel(h, y, k, {IrreducibleEdge}, {});
    RelabelKeeps(h, y, k, {IrreducibleEdge}, {}, comp);
    var m := Relabel(h, y, k, {IrreducibleEdge}, {});
    PairedRelabel(m, y, k, {}, {CrossEdge, ForwardEdge});
    RelabelKeeps(m, y, k, {}, {CrossEdge, ForwardEdge}, comp);
    var r := Relabel(m, y, k, {}, {CrossEdge, ForwardEdge});
    SameEndsTransitive(outs0, h.outs, m.outs);
    SameEndsTransitive(outs0, m.outs, r.outs);
    assert r.outs[y][k].flags == {IrreducibleEdge};
    forall b: nat, i: nat | b in comp && i < |r.ins[b]| ensures r.ins[b][i].point in comp {
      assert r.ins[b][i].point == h.ins[b][i].point;
    }
    forall u: nat, j: nat | u in comp && j < |outs0[u]|
      ensures r.outs[u][j].flags == if (u, j) in irr + {(y, k)} then {IrreducibleEdge} else outs0[u][j].flags
    {
      if !(u == y && j == k) { assert r.outs[u][j] == h.outs[u][j]; }
    }
  }

  ghost predicate MarksAre(mark: seq<bool>, comp: set<nat>, ru: seq<nat>) {
    forall b :: b in comp ==> b < |mark| && (mark[b] <==> b in ru)
  }

  /** The state of the search around head x: marks, list, and what flagged edges so far mean. */
  ghost predicate HeadState(outs0: Adj, f: Tables, copy: seq<nat>, mark: seq<bool>, x: nat, ru: seq<nat>, q: nat,
                            irr: set<(nat, nat)>) {
    && (forall b :: b in f.comp ==> b < |f.visit| && b < |copy|) && q <= |ru|
    && Reachunder(outs0, irr, f, copy, x, ru, q)
    && MarksAre(mark, f.comp, ru)
    && (forall e :: e in irr ==> EntersBeside(outs0, f, e))
  }

  lemma PushKeepsHead(outs0: Adj, f: Tables, copy: seq<nat>, mark: seq<bool>, x: nat, ru: seq<nat>, q: nat,
                      irr: set<(nat, nat)>, b: nat)
    requires HeadState(outs0, f, copy, mark, x, ru, q, irr)
    requires b in f.comp && b != x && Within(f, x, b) && ReachesTail(outs0, x, b)
    ensures HeadState(outs0, f, copy, mark[b := true], x, ru + [b], q, irr)
  {
    var more := ru + [b];
    forall i, y: nat | 0 <= i < q && y in f.comp && Edges(outs0, irr, y, more[i])
      ensures copy[y] == x || copy[y] in more
    {
      assert more[i] == ru[i];
    }
  }

  /** The fields of the blocks are those of the forest. */
  ghost predicate InFields(g: BlockGraph, f: Tables)
    reads g`visitCount, g`index, g`numDesc
  {
    g.visitCount == f.visit && g.index == f.index && g.numDesc == f.num
  }

  /** Flags an edge that may be forward or cross; a tree edge would ask for a new spanning tree. */
  method FlagEdge(g: BlockGraph, y: nat, edgeout: nat, flags: set<EdgeFlag>, rebuild0: bool,
                  ghost outs0: Adj, ghost comp: set<nat>, ghost irr: set<(nat, nat)>)
    returns (rebuild: bool)
    requires EdgeState(g.G(), outs0, comp, irr) && y in comp && edgeout < |outs0[y]| && (y, edgeout) !in irr
    requires flags == outs0[y][edgeout].flags && (flags == {ForwardEdge} || flags == {CrossEdge})
    modifies g`ins, g`outs
    ensures EdgeState(g.G(), outs0, comp, irr + {(y, edgeout)}) && SameEnds(old(g.ins), g.ins) && rebuild == rebuild0
  {
    ghost var h := g.G();
    FlagOneMore(h, outs0, comp, irr, y, edgeout);
    RelabelKeeps(h, y, edgeout, {IrreducibleEdge}, {}, comp);
    g.SetOutEdgeFlag(y, edgeout, {IrreducibleEdge});
    RelabelKeeps(g.G(), y, edgeout, {}, {CrossEdge, ForwardEdge}, comp);
    SameEndsTransitive(h.ins, g.ins, Relabel(g.G(), y, edgeout, {}, {CrossEdge, ForwardEdge}).ins);
    rebuild := rebuild0 || TreeEdge in flags;
    if TreeEdge !in flags {
      g.ClearOutEdgeFlag(y, edgeout, {CrossEdge, ForwardEdge});
    }
  }

  lemma HeadFacts(outs0: Adj, f: Tables, copy: seq<nat>, mark: seq<bool>, x: nat, ru: seq<nat>, q: nat,
                  irr: set<(nat, nat)>, t: nat, y: nat)
    requires Spanned(outs0, f) && x in f.comp && y in f.comp
    requires CopyOk(f, copy, f.visit[x])
    requires HeadState(outs0, f, copy, mark, x, ru, q, irr) && t in ru
    ensures t in f.comp && t != x && Within(f, x, t) && ReachesTail(outs0, x, t)
    ensures y < |copy| && copy[y] in f.comp && copy[y] < |f.visit| && copy[y] < |mark| && x < |f.visit| && x < |f.num|
    ensures mark[copy[y]] <==> copy[y] in ru
    ensures f.visit[x] > f.visit[copy[y]] || f.visit[x] + f.num[x] <= f.visit[copy[y]] <==> !Within(f, x, copy[y])
  {
  }

  lemma ForestLabels(outs0: Adj, f: Tables, y: nat, k: nat)
    requires Spanned(outs0, f) && y in f.comp && y < |outs0| && k < |outs0[y]|
    ensures IrreducibleEdge !in outs0[y][k].flags
  {
    assert Labelled(f, y, k, outs0[y][k].point, outs0[y][k].flags);
  }

  lemma FlagKeepsHead(outs0: Adj, f: Tables, copy: seq<nat>, mark: seq<bool>, x: nat, ru: seq<nat>, q: nat,
                      irr: set<(nat, nat)>, e: (nat, nat))
    requires HeadState(outs0, f, copy, mark, x, ru, q, irr) && EntersBeside(outs0, f, e)
    ensures HeadState(outs0, f, copy, mark, x, ru, q, irr + {e})
  {
    FewerEdgesKeepList(outs0, irr, irr + {e}, f, copy, x, ru, q);
  }

  /** One in-edge of a block on the list: flagged as irreducible when its source lies outside the subtree
      of x, and otherwise followed to the representative of the source. */
  method ProcessInEdge(g: BlockGraph, x: nat, t: nat, i: nat, ru0: seq<nat>, count0: nat, rebuild0: bool,
                       ghost outs0: Adj, ghost f: Tables,
                       ghost q: nat, ghost irr0: set<(nat, nat)>)
    returns (ru: seq<nat>, count: nat, rebuild: bool, ghost irr: set<(nat, nat)>)
    requires InFields(g, f) && Spanned(outs0, f) && EdgeState(g.G(), outs0, f.comp, irr0)
    requires x in f.comp && t in f.comp && t < |g.ins| && i < |g.ins[t]| && t in ru0
    requires x < |g.visitCount| && CopyOk(f, g.copyMap, g.visitCount[x])
    requires HeadState(outs0, f, g.copyMap, g.mark, x, ru0, q, irr0)
    modifies g`ins, g`outs, g`mark
    ensures EdgeState(g.G(), outs0, f.comp, irr) && SameEnds(old(g.ins), g.ins)
    ensures HeadState(outs0, f, g.copyMap, g.mark, x, ru, q, irr)
    ensures ru == ru0 || (exists b :: b in f.comp && b !in ru0 && ru == ru0 + [b])
    ensures irr0 <= irr && count - count0 == |irr| - |irr0| && rebuild == rebuild0
    ensures var e := old(g.ins[t][i]);
      e.point < |g.copyMap| && ((e.point, e.rev) in irr || g.copyMap[e.point] == x || g.copyMap[e.point] in ru)
  {
    hide Spanned, EdgeState, CopyOk, HeadState, Reducible, ReachesTail, Within;
    ru, count, rebuild, irr := ru0, count0, rebuild0, irr0;
    InEdgeOf(g.G(), outs0, f.comp, irr, t, i);
    var y := g.ins[t][i].point;
    HeadFacts(outs0, f, g.copyMap, g.mark, x, ru, q, irr, t, y);
    ForestLabels(outs0, f, y, g.ins[t][i].rev);
    if IrreducibleEdge !in g.ins[t][i].flags {
      var yprime := g.copyMap[y];
      ghost var k := g.ins[t][i].rev;
      SourceDecides(outs0, f, g.copyMap, x, t, y, k);
      if g.visitCount[x] > g.visitCount[yprime] || g.visitCount[x] + g.numDesc[x] <= g.visitCount[yprime] {
        count := count + 1;
        var edgeout := g.ins[t][i].rev;
        FlagKeepsHead(outs0, f, g.copyMap, g.mark, x, ru, q, irr, (y, k));
        rebuild := FlagEdge(g, y, edgeout, g.ins[t][i].flags, rebuild, outs0, f.comp, irr);
        irr := irr + {(y, k)};
      } else if !g.mark[yprime] && yprime != x {
        PushKeepsHead(outs0, f, g.copyMap, g.mark, x, ru, q, irr, yprime);
        ru := ru + [yprime];
        g.mark := g.mark[yprime := true];
      }
    }
  }

  /** The list starts with the representatives of the sources of the back edges into x. */
  method CollectTails(g: BlockGraph, x: nat,
                      ghost outs0: Adj, ghost f: Tables,
                      ghost irr: set<(nat, nat)>)
    returns (ru: seq<nat>)
    requires InFields(g, f) && Spanned(outs0, f) && EdgeState(g.G(), outs0, f.comp, irr)
    requires x in f.comp && x < |g.visitCount| && CopyOk(f, g.copyMap, g.visitCount[x])
    requires HeadState(outs0, f, g.copyMap, g.mark, x, [], 0, irr)
    modifies g`mark
    ensures HeadState(outs0, f, g.copyMap, g.mark, x, ru, 0, irr)
    ensures (forall b :: b in f.comp ==> b < |g.copyMap|) && TailsListed(outs0, f.comp, g.copyMap, x, ru)
  {
    hide Spanned, EdgeState, HeadState, Reducible, EntersBeside, ReachesTail, Within, CopyOk;
    InComponent(g.G(), outs0, f.comp, irr, x);
    CopyBounds(f, g.copyMap, g.visitCount[x]);
    ru := [];
    var i := 0;
    while i < |g.ins[x]|
      invariant 0 <= i <= |g.ins[x]|
      invariant HeadState(outs0, f, g.copyMap, g.mark, x, ru, 0, irr)
      invariant forall j :: 0 <= j < i && BackEdge in g.ins[x][j].flags && g.ins[x][j].point != x ==>
                  g.ins[x][j].point < |g.copyMap| && g.copyMap[g.ins[x][j].point] in ru
    {
      InEdgeOf(g.G(), outs0, f.comp, irr, x, i);
      if BackEdge in g.ins[x][i].flags {
        var y := g.ins[x][i].point;
        if y != x {
          BackEdgeLabel(outs0, f, y, g.ins[x][i].rev);
          TailIsBelow(outs0, f, g.copyMap, x, y, g.ins[x][i].rev);
          MarkBound(outs0, f, g.copyMap, g.mark, x, ru, 0, irr, g.copyMap[y]);
          PushKeepsHead(outs0, f, g.copyMap, g.mark, x, ru, 0, irr, g.copyMap[y]);
          ru := ru + [g.copyMap[y]];
          g.mark := g.mark[g.copyMap[y] := true];
        }
      }
      i := i + 1;
    }
    forall w | w in f.comp && BackInto(outs0, w, x) && w != x ensures g.copyMap[w] in ru {
      var k :| 0 <= k < |outs0[w]| && outs0[w][k].point == x && outs0[w][k].flags == BACK;
      BackHalf(g.G(), outs0, f.comp, irr, w, k);
      var j := g.outs[w][k].rev;
      assert g.ins[x][j].point == w;
    }
  }

  lemma InComponent(h: Graph, outs0: Adj, comp: set<nat>, irr: set<(nat, nat)>, x: nat)
    requires EdgeState(h, outs0, comp, irr) && x in comp
    ensures x < |h.ins| && |h.ins| == |h.outs| == |outs0|
  {
  }

  lemma CopyBounds(f: Tables, copy: seq<nat>, xi: int)
    requires CopyOk(f, copy, xi)
    ensures forall b :: b in f.comp ==> b < |copy|
  {
  }

  lemma MarkBound(outs0: Adj, f: Tables, copy: seq<nat>, mark: seq<bool>, x: nat, ru: seq<nat>, q: nat,
                  irr: set<(nat, nat)>, b: nat)
    requires HeadState(outs0, f, copy, mark, x, ru, q, irr) && b in f.comp
    ensures b < |mark|
  {
  }

  lemma BackEdgeLabel(outs0: Adj, f: Tables, y: nat, k: nat)
    requires Spanned(outs0, f) && y in f.comp && y < |outs0| && k < |outs0[y]|
    ensures BackEdge in outs0[y][k].flags ==> outs0[y][k].flags == BACK
  {
    assert Labelled(f, y, k, outs0[y][k].point, outs0[y][k].flags);
  }

  /** A back edge is found among the in-edges of its target, with its label. */
  lemma BackHalf(h: Graph, outs0: Adj, comp: set<nat>, irr: set<(nat, nat)>, w: nat, k: nat)
    requires EdgeState(h, outs0, comp, irr) && w in comp && k < |outs0[w]| && outs0[w][k].flags == BACK &&
               outs0[w][k].point in comp
    ensures w < |h.outs| && k < |h.outs[w]| && outs0[w][k].point < |h.ins|
    ensures var x, i := outs0[w][k].point, h.outs[w][k].rev;
      i < |h.ins[x]| && h.ins[x][i].point == w && BackEdge in h.ins[x][i].flags
  {
    assert OutPaired(h, w, k);
    assert (w, k) !in irr;
  }

  /** The sources of all in-edges of ru[q] seen so far, except flagged ones, are on the list through their
      representatives. */
  ghost predicate SourcesListed(row: seq<Edge>, irr: set<(nat, nat)>, copy: seq<nat>, x: nat, ru: seq<nat>, i: nat) {
    forall j :: 0 <= j < i && j < |row| ==>
      row[j].point < |copy| && ((row[j].point, row[j].rev) in irr || copy[row[j].point] == x ||
          copy[row[j].point] in ru)
  }

  lemma AdvanceHead(h: Graph, outs0: Adj, f: Tables, copy: seq<nat>, mark: seq<bool>, x: nat, ru: seq<nat>, q: nat,
                    irr: set<(nat, nat)>)
    requires HeadState(outs0, f, copy, mark, x, ru, q, irr) && q < |ru|
    requires EdgeState(h, outs0, f.comp, irr) && Closed(outs0, f.comp) && ru[q] < |h.ins|
    requires SourcesListed(h.ins[ru[q]], irr, copy, x, ru, |h.ins[ru[q]]|)
    ensures HeadState(outs0, f, copy, mark, x, ru, q + 1, irr)
  {
    hide ReachesTail, EntersBeside, Within;
    forall y: nat | y in f.comp && Edges(outs0, irr, y, ru[q]) ensures copy[y] == x || copy[y] in ru {
      var k :| 0 <= k < |outs0[y]| && (y, k) !in irr && outs0[y][k].point == ru[q];
      OutEdgeOf(h, outs0, f.comp, irr, y, k);
      assert h.ins[ru[q]][h.outs[y][k].rev].point == y;
    }
  }

  lemma InListIsComponent(outs0: Adj, f: Tables, copy: seq<nat>, mark: seq<bool>, x: nat, ru: seq<nat>, q: nat,
                          irr: set<(nat, nat)>)
    requires HeadState(outs0, f, copy, mark, x, ru, q, irr)
    ensures Elements(ru) <= f.comp && forall i :: 0 <= i < |ru| ==> ru[i] in f.comp
  {
  }

  /** The in-edges of one block on the list. */
  method ProcessBlock(g: BlockGraph, x: nat, ru0: seq<nat>, count0: nat, rebuild0: bool,
                      ghost outs0: Adj, ghost f: Tables,
                      q: nat, ghost irr0: set<(nat, nat)>)
    returns (ru: seq<nat>, count: nat, rebuild: bool, ghost irr: set<(nat, nat)>)
    requires InFields(g, f) && Spanned(outs0, f) && EdgeState(g.G(), outs0, f.comp, irr0)
    requires x in f.comp && x < |g.visitCount| && CopyOk(f, g.copyMap, g.visitCount[x])
    requires HeadState(outs0, f, g.copyMap, g.mark, x, ru0, q, irr0) && q < |ru0|
    modifies g`ins, g`outs, g`mark
    ensures EdgeState(g.G(), outs0, f.comp, irr) && SameEnds(old(g.ins), g.ins)
    ensures HeadState(outs0, f, g.copyMap, g.mark, x, ru, q + 1, irr)
    ensures ru0 <= ru && (|ru| > |ru0| ==> Elements(ru0) < Elements(ru))
    ensures irr0 <= irr && count - count0 == |irr| - |irr0| && rebuild == rebuild0
  {
    hide Spanned, EdgeState, HeadState, Reducible, EntersBeside, ReachesTail, Within, CopyOk;
    ru, count, rebuild, irr := ru0, count0, rebuild0, irr0;
    var t := ru[q];
    InListIsComponent(outs0, f, g.copyMap, g.mark, x, ru, q, irr);
    InComponent(g.G(), outs0, f.comp, irr, t);
    ghost var ins0 := g.ins;
    var i := 0;
    while i < |g.ins[t]|
      invariant t < |g.ins| && SameEnds(ins0, g.ins) && 0 <= i <= |g.ins[t]|
      invariant EdgeState(g.G(), outs0, f.comp, irr)
      invariant HeadState(outs0, f, g.copyMap, g.mark, x, ru, q, irr)
      invariant ru0 <= ru && (|ru| > |ru0| ==> Elements(ru0) < Elements(ru))
      invariant irr0 <= irr && count - count0 == |irr| - |irr0| && rebuild == rebuild0
      invariant SourcesListed(ins0[t], irr, g.copyMap, x, ru, i)
    {
      ghost var ru1, ins1 := ru, g.ins;
      assert t == ru[q];
      ru, count, rebuild, irr := ProcessInEdge(g, x, t, i, ru, count, rebuild, outs0, f, q, irr);
      SameEndsTransitive(ins0, ins1, g.ins);
      GrowElements(ru0, ru1, ru);
      i := i + 1;
    }
    TreeClosed(outs0, f);
    AdvanceHead(g.G(), outs0, f, g.copyMap, g.mark, x, ru, q, irr);
  }

  lemma TreeClosed(outs0: Adj, f: Tables)
    requires Spanned(outs0, f)
    ensures Closed(outs0, f.comp)
  {
  }

  lemma GrowElements(ru0: seq<nat>, ru1: seq<nat>, ru: seq<nat>)
    requires ru0 <= ru1 && (|ru1| > |ru0| ==> Elements(ru0) < Elements(ru1))
    requires ru == ru1 || exists b :: b !in ru1 && ru == ru1 + [b]
    ensures ru1 <= ru && ru0 <= ru && (|ru| > |ru0| ==> Elements(ru0) < Elements(ru))
  {
    if ru != ru1 {
      var b :| b !in ru1 && ru == ru1 + [b];
      assert ru[|ru1|] == b;
      forall y | y in Elements(ru1) ensures y in Elements(ru) {
        var i :| 0 <= i < |ru1| && ru1[i] == y;
        assert ru[i] == y;
      }
      assert b in Elements(ru) && b !in Elements(ru1);
    }
  }

  /** The blocks that reach a tail of x without passing x, through representatives, by a worklist. */
  method CollectReachunder(g: BlockGraph, x: nat, count0: nat, rebuild0: bool,
                           ghost outs0: Adj, ghost f: Tables,
                           ghost irr0: set<(nat, nat)>)
    returns (ru: seq<nat>, count: nat, rebuild: bool, ghost irr: set<(nat, nat)>)
    requires InFields(g, f) && Spanned(outs0, f) && EdgeState(g.G(), outs0, f.comp, irr0)
    requires x in f.comp && x < |g.visitCount| && CopyOk(f, g.copyMap, g.visitCount[x])
    requires HeadState(outs0, f, g.copyMap, g.mark, x, [], 0, irr0)
    modifies g`ins, g`outs, g`mark
    ensures EdgeState(g.G(), outs0, f.comp, irr) && SameEnds(old(g.ins), g.ins)
    ensures HeadState(outs0, f, g.copyMap, g.mark, x, ru, |ru|, irr)
    ensures (forall b :: b in f.comp ==> b < |g.copyMap|) && TailsListed(outs0, f.comp, g.copyMap, x, ru)
    ensures irr0 <= irr && count - count0 == |irr| - |irr0| && rebuild == rebuild0
  {
    hide Spanned, EdgeState, HeadState, Reducible, EntersBeside, ReachesTail, Within, CopyOk;
    count, rebuild, irr := count0, rebuild0, irr0;
    ru := CollectTails(g, x, outs0, f, irr);
    var q := 0;
    while q < |ru|
      invariant q <= |ru|
      invariant EdgeState(g.G(), outs0, f.comp, irr) && SameEnds(old(g.ins), g.ins)
      invariant HeadState(outs0, f, g.copyMap, g.mark, x, ru, q, irr)
      invariant (forall b :: b in f.comp ==> b < |g.copyMap|) && TailsListed(outs0, f.comp, g.copyMap, x, ru)
      invariant irr0 <= irr && count - count0 == |irr| - |irr0| && rebuild == rebuild0
      decreases f.comp - Elements(ru), |ru| - q
    {
      ghost var ru1, ins1 := ru, g.ins;
      ru, count, rebuild, irr := ProcessBlock(g, x, ru, count, rebuild, outs0, f, q, irr);
      SameEndsTransitive(old(g.ins), ins1, g.ins);
      InListIsComponent(outs0, f, g.copyMap, g.mark, x, ru, q + 1, irr);
      forall b | b in ru1 ensures b in ru {
        var i :| 0 <= i < |ru1| && ru1[i] == b;
        assert ru[i] == b;
      }
      q := q + 1;
    }
  }

  /** The blocks of the list are unmarked and from now on represented by x. */
  method CollapseInto(g: BlockGraph, x: nat, ru: seq<nat>, ghost comp: set<nat>)
    requires MarksAre(g.mark, comp, ru) && (forall i :: 0 <= i < |ru| ==> ru[i] in comp && ru[i] < |g.copyMap|)
    modifies g`mark, g`copyMap
    ensures MarksAre(g.mark, comp, []) && g.copyMap == Collapse(old(g.copyMap), ru, x)
  {
    var i := 0;
    while i < |ru|
      invariant 0 <= i <= |ru| && |g.mark| == |old(g.mark)| && |g.copyMap| == |old(g.copyMap)|
      invariant forall b :: b in comp ==> (g.mark[b] <==> b in ru && b !in ru[..i])
      invariant forall b :: 0 <= b < |g.copyMap| ==> g.copyMap[b] == if b in ru[..i] then x else old(g.copyMap[b])
    {
      assert ru[..i + 1] == ru[..i] + [ru[i]];
      var s := ru[i];
      g.mark := g.mark[s := false];
      g.copyMap := g.copyMap[s := x];
      i := i + 1;
    }
    assert ru[..i] == ru;
  }

  /** What holds between two heads: FIND, the bodies of processed heads without the flagged edges, clear marks. */
  ghost predicate BetweenHeads(outs0: Adj, f: Tables, copy: seq<nat>, mark: seq<bool>, bodies: map<nat, set<nat>>,
                               irr: set<(nat, nat)>, xi: int) {
    && (forall b :: b in f.comp ==> b < |f.visit|) && CopyOk(f, copy, xi)
    && BodiesOk(outs0, irr, f, copy, bodies, xi)
    && (forall e :: e in irr ==> EntersBeside(outs0, f, e)) && MarksAre(mark, f.comp, [])
  }

  lemma HeadBegins(outs0: Adj, f: Tables, copy: seq<nat>, mark: seq<bool>, bodies: map<nat, set<nat>>,
                   irr: set<(nat, nat)>, x: nat, xi: int)
    requires BetweenHeads(outs0, f, copy, mark, bodies, irr, xi)
    ensures CopyOk(f, copy, xi)
    ensures HeadState(outs0, f, copy, mark, x, [], 0, irr)
  {
  }

  /** What the list around a finished head holds. */
  lemma ListFacts(outs0: Adj, f: Tables, copy: seq<nat>, mark: seq<bool>, irr: set<(nat, nat)>, x: nat, ru: seq<nat>)
    requires Spanned(outs0, f) && x in f.comp
    requires HeadState(outs0, f, copy, mark, x, ru, |ru|, irr)
    ensures forall b :: b in f.comp ==> b < |f.visit| && b < |copy| && b < |f.index| && b < |f.num|
    ensures Numbers(f.pre, f.visit, f.comp) && Intervals(f) && Within(f, x, x)
    ensures forall i :: 0 <= i < |ru| ==>
              ru[i] in f.comp && ru[i] != x && Within(f, x, ru[i]) && f.visit[ru[i]] > f.visit[x]
    ensures Reachunder(outs0, irr, f, copy, x, ru, |ru|)
    ensures forall e :: e in irr ==> EntersBeside(outs0, f, e)
  {
    forall i | 0 <= i < |ru|
      ensures ru[i] in f.comp && ru[i] != x && Within(f, x, ru[i]) && f.visit[ru[i]] > f.visit[x]
    {
      SpanPair(outs0, f, x, ru[i]);
    }
  }

  lemma HeadEnds(outs0: Adj, f: Tables, copy: seq<nat>, bodies: map<nat, set<nat>>, mark: seq<bool>, after: seq<bool>,
                 irr0: set<(nat, nat)>, irr: set<(nat, nat)>, x: nat, ru: seq<nat>)
    requires Spanned(outs0, f) && x in f.comp
    requires CopyOk(f, copy, f.visit[x]) && irr0 <= irr
    requires (forall b :: b in f.comp ==> b < |f.visit| && b < |copy|) &&
               BodiesOk(outs0, irr0, f, copy, bodies, f.visit[x])
    requires HeadState(outs0, f, copy, mark, x, ru, |ru|, irr) && TailsListed(outs0, f.comp, copy, x, ru)
    requires MarksAre(after, f.comp, [])
    ensures BetweenHeads(outs0, f, Collapse(copy, ru, x), after, bodies[x := BodyFrom(bodies, ru)], irr, f.visit[x] - 1)
  {
    hide CopyOk, BodiesOk, BodyOk, Reducible, Labelled, Reachunder, HeadState, TailsListed, Spanned, MarksAre, Within;
    ListFacts(outs0, f, copy, mark, irr, x, ru);
    CollapseKeepsCopy(f, copy, x, ru);
    FewerEdgesKeepBodies(outs0, irr0, irr, f, copy, bodies, f.visit[x]);
    ListClosesToBody(outs0, irr, f, copy, bodies, x, ru);
    CollapseKeepsBodies(outs0, irr, f, copy, bodies, x, ru);
  }

  lemma StartHeads(outs0: Adj, f: Tables, copy: seq<nat>, mark: seq<bool>)
    requires Spanned(outs0, f)
    requires forall b :: b in f.comp ==> b < |copy| && copy[b] == b && b < |mark| && !mark[b]
    ensures BetweenHeads(outs0, f, copy, mark, map[], {}, |f.pre| - 1)
  {
  }

  lemma HeadInOrder(outs0: Adj, f: Tables, xi: nat)
    requires Spanned(outs0, f) && xi < |f.pre|
    ensures f.pre[xi] in f.comp && f.pre[xi] < |f.visit| && f.visit[f.pre[xi]] == xi
  {
  }

  /** Flags the edges that enter a loop beside its head. No tree edge is ever flagged, every flagged edge is
      a second way into a loop, the graph without the flagged edges is reducible, and no edge at all is
      flagged exactly when the graph itself is. */
  method FindIrreducible(g: BlockGraph, preorder: seq<nat>, count0: nat, ghost f: Tables)
    returns (needrebuild: bool, count: nat, ghost irr: set<(nat, nat)>)
    requires InFields(g, f) && preorder == f.pre && Spanned(g.outs, f)
    requires Paired(g.G()) && FlagsMatch(g.G(), f.comp) && Closed(g.ins, f.comp)
    requires forall b :: b in f.comp ==> b < |g.copyMap| && g.copyMap[b] == b && b < |g.mark| && !g.mark[b]
    modifies g`ins, g`outs, g`mark, g`copyMap
    ensures !needrebuild
    ensures EdgeState(g.G(), old(g.outs), f.comp, irr) && SameEnds(old(g.ins), g.ins) && count == count0 + |irr|
    ensures irr == {} <==> Reducible(old(g.outs), {}, f.par, f.comp)
    ensures Reducible(old(g.outs), irr, f.par, f.comp)
    ensures forall e :: e in irr ==> EntersBeside(old(g.outs), f, e)
    ensures MarksAre(g.mark, f.comp, [])
  {
    hide Spanned, EdgeState, HeadState, Reducible, EntersBeside, CopyOk, BodiesOk, BetweenHeads;
    ghost var outs0 := g.outs;
    needrebuild, count, irr := false, count0, {};
    ghost var bodies: map<nat, set<nat>> := map[];
    StartHeads(outs0, f, g.copyMap, g.mark);
    UnflaggedState(g.G(), f);
    var xi := |preorder| - 1;
    while xi >= 0
      invariant -1 <= xi < |preorder| && !needrebuild && count == count0 + |irr|
      invariant EdgeState(g.G(), outs0, f.comp, irr) && SameEnds(old(g.ins), g.ins)
      invariant BetweenHeads(outs0, f, g.copyMap, g.mark, bodies, irr, xi)
    {
      var x := preorder[xi];
      HeadInOrder(outs0, f, xi);
      HeadBegins(outs0, f, g.copyMap, g.mark, bodies, irr, x, xi);
      ghost var irr0, copy0, ins1 := irr, g.copyMap, g.ins;
      assert BodiesOk(outs0, irr0, f, copy0, bodies, xi) by {
        BodiesBetween(outs0, f, g.copyMap, g.mark, bodies, irr, xi);
      }
      var reachunder;
      reachunder, count, needrebuild, irr := CollectReachunder(g, x, count, needrebuild, outs0, f,
          irr);
      SameEndsTransitive(old(g.ins), ins1, g.ins);
      ghost var mark0 := g.mark;
      MarksOfHead(outs0, f, g.copyMap, g.mark, x, reachunder, |reachunder|, irr);
      CollapseInto(g, x, reachunder, f.comp);
      HeadEnds(outs0, f, copy0, bodies, mark0, g.mark, irr0, irr, x, reachunder);
      bodies := bodies[x := BodyFrom(bodies, reachunder)];
      xi := xi - 1;
    }
    AllHeadsDone(outs0, f, g.copyMap, g.mark, bodies, irr);
  }

  lemma UnflaggedState(h: Graph, f: Tables)
    requires Spanned(h.outs, f) && Paired(h) && FlagsMatch(h, f.comp) &&
               Closed(h.ins, f.comp)
    ensures EdgeState(h, h.outs, f.comp, {})
  {
  }

  lemma BodiesBetween(outs0: Adj, f: Tables, copy: seq<nat>, mark: seq<bool>, bodies: map<nat, set<nat>>,
                      irr: set<(nat, nat)>, xi: int)
    requires BetweenHeads(outs0, f, copy, mark, bodies, irr, xi)
    ensures forall b :: b in f.comp ==> b < |f.visit| && b < |copy|
    ensures BodiesOk(outs0, irr, f, copy, bodies, xi)
  {
  }

  lemma MarksOfHead(outs0: Adj, f: Tables, copy: seq<nat>, mark: seq<bool>, x: nat, ru: seq<nat>, q: nat,
                    irr: set<(nat, nat)>)
    requires HeadState(outs0, f, copy, mark, x, ru, q, irr)
    ensures MarksAre(mark, f.comp, ru) && forall i :: 0 <= i < |ru| ==> ru[i] in f.comp && ru[i] < |copy|
  {
  }

  lemma AllHeadsDone(outs0: Adj, f: Tables, copy: seq<nat>, mark: seq<bool>, bodies: map<nat, set<nat>>,
                     irr: set<(nat, nat)>)
    requires Spanned(outs0, f)
    requires BetweenHeads(outs0, f, copy, mark, bodies, irr, -1)
    ensures irr == {} <==> Reducible(outs0, {}, f.par, f.comp)
    ensures Reducible(outs0, irr, f.par, f.comp)
    ensures forall e :: e in irr ==> EntersBeside(outs0, f, e)
    ensures MarksAre(mark, f.comp, [])
  {
    forall e | e in irr ensures !Reducible(outs0, {}, f.par, f.comp) {
      EntryFromOutside(outs0, f, e);
    }
    BodiesMakeReducible(outs0, irr, f, copy, bodies);
  }
}
