/** BlockGraph::selfIdentify and identifyInternal: a set of blocks is collapsed into one new block. */
module Identify {

  import opened Flow
  import opened Quotient
  import opened Deduplication
  import opened MovedLabels
  import opened Wrappers

  /** The first i edges of the row lead into the set. */
  ghost predicate StartsInside(row: seq<Edge>, i: nat, comp: set<nat>) {
    i <= |row| && forall k :: 0 <= k < i ==> row[k].point in comp
  }

  /** The rows that led only into the set still do. */
  ghost predicate StayInside(a: Adj, b: Adj, comp: set<nat>) {
    |a| == |b| && forall c: nat :: c in comp && c < |a| && Inside(a[c], comp) ==> Inside(b[c], comp)
  }

  lemma MoveStaysInside(g: Graph, x: nat, j: nat, comp: set<nat>, ident: nat, i: nat)
    requires Paired(g) && OutSlot(g, x, j) && ident < |g.ins| && (forall b :: b in comp ==> b < |g.ins|)
    requires ident !in comp && x !in comp && x != ident && g.outs[x][j].point in comp
    requires StartsInside(g.ins[g.outs[x][j].point], i, comp)
    ensures OutPaired(g, x, j)
    ensures var h, c := ReplaceOut(g, x, j, ident), g.outs[x][j].point;
      && StayInside(g.ins, h.ins, comp) && StayInside(g.outs, h.outs, comp)
      && StartsInside(h.ins[c], i, comp) && |h.ins[c]| == |g.ins[c]| - 1
      && |h.outs[x]| == |g.outs[x]| && h.outs[x][j].point == ident
      && (forall k :: 0 <= k < |g.outs[x]| && k != j ==> h.outs[x][k].point == g.outs[x][k].point)
  {
    ReplaceCuts(g, x, j, ident);
    var h, e := ReplaceOut(g, x, j, ident), g.outs[x][j];
    var c := e.point;
    hide Paired, ReplaceOut;
    assert e.rev >= i;
    forall k | 0 <= k < i ensures h.ins[c][k].point in comp {
      assert Before(k, e.rev, true) == k;
    }
    forall b: nat | b in comp && b < |g.ins| && Inside(g.ins[b], comp) ensures Inside(h.ins[b], comp) {
      assert b != c;
      assert SameEdges(g.ins[b], h.ins[b]);
    }
    forall b: nat | b in comp && b < |g.outs| && Inside(g.outs[b], comp) ensures Inside(h.outs[b], comp) {
      assert SameEdges(g.outs[b], h.outs[b]);
    }
  }

  /** The stage of moving the edges between mybl and one outside block: the first i in-edges of mybl are inner ones. */
  ghost predicate Moving(g0: Graph, g: Graph, comp: set<nat>, ident: nat, mybl: nat, i: nat) {
    && |g.ins| == |g.outs| == |g0.ins| == |g0.outs| && Paired(g) && Quiet(g0, g, comp, ident) && mybl in comp &&
       mybl < |g.ins| && ident < |g.ins|
    && StayInside(g0.ins, g.ins, comp) && StayInside(g0.outs, g.outs, comp) && StartsInside(g.ins[mybl], i, comp)
  }

  lemma MovingStarts(g: Graph, comp: set<nat>, ident: nat, mybl: nat, i: nat)
    requires Paired(g) && ident < |g.ins| && (forall b :: b in comp ==> b < |g.ins|) && mybl in comp &&
               StartsInside(g.ins[mybl], i, comp)
    ensures Moving(g, g, comp, ident, mybl, i)
  {
    QuietReflexive(g, comp, ident);
  }

  lemma MovingStep(g0: Graph, g: Graph, x: nat, j: nat, comp: set<nat>, ident: nat, mybl: nat, i: nat, k: nat)
    requires Moving(g0, g, comp, ident, mybl, i) && OutSlot(g, x, j) && g.outs[x][j].point == mybl
    requires ident !in comp && x !in comp && x != ident && (forall b :: b in comp ==> b < |g.ins|)
    ensures OutPaired(g, x, j)
    ensures var h := ReplaceOut(g, x, j, ident);
      && |h.ins| == |h.outs| == |g.ins| && Moving(g0, h, comp, ident, mybl, i) && |h.ins[mybl]| == |g.ins[mybl]| - 1
      && |h.outs[x]| == |g.outs[x]| && (k < |g.outs[x]| && k != j ==> h.outs[x][k].point == g.outs[x][k].point)
  {
    MoveIsQuiet(g, x, j, comp, ident);
    MoveStaysInside(g, x, j, comp, ident, i);
    PairedReplaceOut(g, x, j, ident);
    hide Paired, Quiet;
    QuietTransitive(g0, g, ReplaceOut(g, x, j, ident), comp, ident);
  }

  /** No edge leads from ident into the set. */
  ghost predicate NoneInto(g: Graph, comp: set<nat>, ident: nat) {
    ident < |g.outs| && forall p :: p in comp ==> !Leads(g.outs[ident], p)
  }

  /** The edges of x into mybl before slot j are moved; those of the other blocks outside the set are moved or not. */
  ghost predicate Handing(gs: Graph, g: Graph, comp: set<nat>, ident: nat, gone: seq<nat>, left: seq<nat>, mybl: nat,
                          x: nat, j: nat) {
    && HandedBut(gs, g, comp, ident, gone, gone + [mybl], Some(x)) && mybl !in gone
    && HandedBut(Flip(gs), Flip(g), comp, ident, left, left, None)
    && x < |gs.outs| && x < |g.outs| && HandedPart(gs.outs[x], g.outs[x], InLabels(g, ident), x, ident, gone, mybl, j)
  }

  lemma HandingStep(gs: Graph, g0: Graph, g: Graph, comp: set<nat>, ident: nat, gone: seq<nat>, left: seq<nat>,
                    mybl: nat, i: nat, x: nat, j: nat)
    requires Moving(g0, g, comp, ident, mybl, i) && NoneInto(g0, comp, ident) && OutSlot(g, x, j)
    requires ident !in comp && x !in comp + {ident} && Handing(gs, g, comp, ident, gone, left, mybl, x, j)
    ensures |g.ins| == |g.outs| && ident < |g.ins| && OutPaired(g, x, j)
    ensures var h := if g.outs[x][j].point == mybl then ReplaceOut(g, x, j, ident) else g;
      Handing(gs, h, comp, ident, gone, left, mybl, x, j + 1)
  {
    hide Paired, HandedBut, HandedPart, InLabels, ReplaceOut, Leads;
    assert OutPaired(g, x, j) by { PairedSlot(g, x, j); }
    if g.outs[x][j].point == mybl {
      HandedMove(gs, g, comp, ident, gone, mybl, x, j);
      HandedOther(gs, g, comp, ident, left, x, j);
    } else {
      HandedSkip(gs, g, comp, ident, gone, mybl, x, j);
    }
  }

  lemma PairedSlot(g: Graph, x: nat, j: nat)
    requires Paired(g) && OutSlot(g, x, j)
    ensures OutPaired(g, x, j)
  {
  }

  lemma HandingStarts(gs: Graph, g: Graph, comp: set<nat>, ident: nat, gone: seq<nat>, left: seq<nat>, mybl: nat,
                      x: nat)
    requires HandedBut(gs, g, comp, ident, gone, gone + [mybl], None) && mybl != ident
    requires HandedBut(Flip(gs), Flip(g), comp, ident, left, left, None)
    requires x < |g.outs| && x !in comp + {ident} && Leads(g.outs[x], mybl)
    ensures Handing(gs, g, comp, ident, gone, left, mybl, x, 0)
  {
    hide HandedPart, InLabels;
    HandedFirst(gs, g, comp, ident, gone, mybl, x);
  }

  lemma HandingEnds(gs: Graph, g: Graph, comp: set<nat>, ident: nat, gone: seq<nat>, left: seq<nat>, mybl: nat,
                    x: nat)
    requires x < |g.outs| && Handing(gs, g, comp, ident, gone, left, mybl, x, |g.outs[x]|)
    ensures HandedBut(gs, g, comp, ident, gone, gone + [mybl], None)
    ensures HandedBut(Flip(gs), Flip(g), comp, ident, left, left, None)
  {
    hide HandedPart, InLabels;
    HandedLast(gs, g, comp, ident, gone, mybl, x);
  }

  lemma LeadsAt(row: seq<Edge>, p: nat) returns (k: nat)
    requires Leads(row, p)
    ensures k < |row| && row[k].point == p
  {
    k :| k < |row| && row[k].point == p;
  }

  /** All edges from otherbl, outside the set, into mybl are moved to ident. */
  method MoveEntering(g: BlockGraph, otherbl: nat, mybl: nat, ident: nat, ghost comp: set<nat>, ghost i: nat,
                      ghost g0: Graph, ghost gs: Graph, ghost gone: seq<nat>, ghost left: seq<nat>)
    requires Moving(g0, g.G(), comp, ident, mybl, i) && otherbl < |g.outs| && (forall b :: b in comp ==> b < |g.ins|)
    requires ident !in comp && otherbl !in comp && otherbl != ident && Leads(g.outs[otherbl], mybl)
    requires NoneInto(g0, comp, ident) && HandedBut(gs, g.G(), comp, ident, gone, gone + [mybl], None)
    requires HandedBut(Flip(gs), Flip(g.G()), comp, ident, left, left, None)
    modifies g`ins, g`outs
    ensures Moving(g0, g.G(), comp, ident, mybl, i) && |g.ins| == |old(g.ins)| && |g.ins[mybl]| < |old(g.ins[mybl])|
    ensures HandedBut(gs, g.G(), comp, ident, gone, gone + [mybl], None)
    ensures HandedBut(Flip(gs), Flip(g.G()), comp, ident, left, left, None)
  {
    hide Moving, Paired, ReplaceOut, ReplaceIn, HandedBut, Handing, NoneInto, Leads, OutPaired, InPaired;
    ghost var h0 := g.G();
    MovingFacts(g0, h0, comp, ident, mybl, i);
    HandingStarts(gs, h0, comp, ident, gone, left, mybl, otherbl);
    ghost var k0 := LeadsAt(g.outs[otherbl], mybl);
    var j := 0;
    while j < |g.outs[otherbl]|
      invariant Moving(g0, g.G(), comp, ident, mybl, i) && |g.ins| == |g.outs| == |h0.ins| && Paired(g.G())
      invariant k0 < |g.outs[otherbl]| && 0 <= j <= |g.outs[otherbl]| && (j <= k0 ==> g.outs[otherbl][k0].point == mybl)
      invariant if j <= k0 then |g.ins[mybl]| <= |h0.ins[mybl]| else |g.ins[mybl]| < |h0.ins[mybl]|
      invariant Handing(gs, g.G(), comp, ident, gone, left, mybl, otherbl, j)
    {
      HandingStep(gs, g0, g.G(), comp, ident, gone, left, mybl, i, otherbl, j);
      if g.outs[otherbl][j].point == mybl {
        MovingStep(g0, g.G(), otherbl, j, comp, ident, mybl, i, k0);
        g.ReplaceOutEdge(otherbl, j, ident);
      }
      j := j + 1;
    }
    HandingEnds(gs, g.G(), comp, ident, gone, left, mybl, otherbl);
  }

  lemma MovingFacts(g0: Graph, g: Graph, comp: set<nat>, ident: nat, mybl: nat, i: nat)
    requires Moving(g0, g, comp, ident, mybl, i)
    ensures |g.ins| == |g.outs| == |g0.ins| && Paired(g) && mybl < |g.ins| && ident < |g.ins|
    ensures mybl in comp && i <= |g.ins[mybl]|
  {
  }

  lemma FlipMove(g: Graph, y: nat, i: nat, t: nat)
    requires Paired(g) && InSlot(g, y, i) && t < |g.outs|
    ensures Paired(Flip(g)) && OutSlot(Flip(g), y, i) && InPaired(g, y, i) && OutPaired(Flip(g), y, i)
    ensures ReplaceIn(g, y, i, t) == Flip(ReplaceOut(Flip(g), y, i, t))
  {
    assert InPaired(g, y, i);
    PairedFlip(g);
    assert OutPaired(Flip(g), y, i);
  }

  /** All edges from mybl to otherbl, outside the set, are moved to ident. */
  method MoveLeaving(g: BlockGraph, otherbl: nat, mybl: nat, ident: nat, ghost comp: set<nat>, ghost i: nat,
                     ghost g0: Graph, ghost gs: Graph, ghost gone: seq<nat>, ghost entered: seq<nat>)
    requires Moving(Flip(g0), Flip(g.G()), comp, ident, mybl, i) && otherbl < |g.ins| &&
               (forall b :: b in comp ==> b < |g.ins|)
    requires ident !in comp && otherbl !in comp && otherbl != ident && Leads(g.ins[otherbl], mybl)
    requires NoneInto(Flip(g0), comp, ident) && HandedBut(Flip(gs), Flip(g.G()), comp, ident, gone, gone + [mybl], None)
    requires HandedBut(gs, g.G(), comp, ident, entered, entered, None)
    modifies g`ins, g`outs
    ensures HandedBut(Flip(gs), Flip(g.G()), comp, ident, gone, gone + [mybl], None)
    ensures HandedBut(gs, g.G(), comp, ident, entered, entered, None)
    ensures Moving(Flip(g0), Flip(g.G()), comp, ident, mybl, i) && |g.outs| == |old(g.outs)| &&
              |g.outs[mybl]| < |old(g.outs[mybl])|
  {
    hide Moving, Paired, ReplaceOut, ReplaceIn, HandedBut, Handing, NoneInto, Leads, OutPaired, InPaired;
    ghost var h0 := g.G();
    MovingFacts(Flip(g0), Flip(h0), comp, ident, mybl, i);
    PairedFlip(Flip(h0));
    HandingStarts(Flip(gs), Flip(h0), comp, ident, gone, entered, mybl, otherbl);
    ghost var k0 := LeadsAt(g.ins[otherbl], mybl);
    var j := 0;
    while j < |g.ins[otherbl]|
      invariant Moving(Flip(g0), Flip(g.G()), comp, ident, mybl, i) && |g.ins| == |g.outs| == |h0.ins| && Paired(g.G())
      invariant k0 < |g.ins[otherbl]| && 0 <= j <= |g.ins[otherbl]| && (j <= k0 ==> g.ins[otherbl][k0].point == mybl)
      invariant if j <= k0 then |g.outs[mybl]| <= |h0.outs[mybl]| else |g.outs[mybl]| < |h0.outs[mybl]|
      invariant Handing(Flip(gs), Flip(g.G()), comp, ident, gone, entered, mybl, otherbl, j)
    {
      HandingStep(Flip(gs), Flip(g0), Flip(g.G()), comp, ident, gone, entered, mybl, i, otherbl, j);
      if g.ins[otherbl][j].point == mybl {
        FlipMove(g.G(), otherbl, j, ident);
        MovingStep(Flip(g0), Flip(g.G()), otherbl, j, comp, ident, mybl, i, k0);
        g.ReplaceInEdge(otherbl, j, ident);
      }
      j := j + 1;
    }
    HandingEnds(Flip(gs), Flip(g.G()), comp, ident, gone, entered, mybl, otherbl);
  }

  // ---------- the whole set ----------

  /** The first t blocks of the list have only inner edges. */
  ghost predicate AllInner(g: Graph, list: seq<nat>, t: nat, comp: set<nat>)
    requires t <= |list|
  {
    forall k :: 0 <= k < t ==>
        list[k] < |g.ins| && list[k] < |g.outs| && Inside(g.ins[list[k]], comp) && Inside(g.outs[list[k]], comp)
  }

  lemma OnlyOuter(g: Graph, comp: set<nat>, ident: nat)
    requires ident < |g.ins| == |g.outs|
    requires forall p: nat :: Leads(g.ins[ident], p) || Leads(g.outs[ident], p) ==> p !in comp + {ident}
    ensures NoneInto(g, comp, ident) && NoneInto(Flip(g), comp, ident)
  {
    hide Leads;
  }

  /** One collapsed block gives up its outer edges. */
  method DetachBlock(g: BlockGraph, mybl: nat, ident: nat, list: seq<nat>, ghost comp: set<nat>, ghost g0: Graph,
                     ghost t: nat)
    requires Paired(g.G()) && Quiet(g0, g.G(), comp, ident) && ident < |g.ins| && ident !in comp
    requires (forall b :: b in comp <==> b in list) && (forall b :: b in comp ==> b < |g.ins|) && mybl in comp
    requires (forall p: nat :: Leads(g.ins[ident], p) || Leads(g.outs[ident], p) ==> p !in comp + {ident}) &&
               t < |list| && AllInner(g.G(), list, t, comp)
    requires mybl == list[t] && HandedUpTo(g0, g.G(), list, t, comp, ident)
    modifies g`ins, g`outs
    ensures HandedUpTo(g0, g.G(), list, t + 1, comp, ident)
    ensures Paired(g.G()) && Quiet(g0, g.G(), comp, ident) && |g.ins| == |old(g.ins)| && mybl < |g.ins| == |g.outs|
    ensures (forall p: nat :: Leads(g.ins[ident], p) || Leads(g.outs[ident], p) ==> p !in comp + {ident}) &&
              AllInner(g.G(), list, t, comp)
    ensures Inside(g.ins[mybl], comp) && Inside(g.outs[mybl], comp)
  {
    hide Moving, Paired, Quiet, AllInner, Leads, Inside, HandedBut, NoneInto, StartsInside;
    ghost var h0, gone := g.G(), list[..t];
    QuietSizes(g0, h0, comp, ident);
    StartsEmpty(h0.ins, mybl, comp);
    MovingStarts(h0, comp, ident, mybl, 0);
    OnlyOuter(h0, comp, ident);
    HandedWider(g0, h0, comp, ident, gone, gone + [mybl]);
    assert list[..t + 1] == gone + [mybl];
    MovingFacts(h0, h0, comp, ident, mybl, 0);
    var i := 0;
    while i < |g.ins[mybl]|
      invariant Moving(h0, g.G(), comp, ident, mybl, i) && |g.ins| == |g.outs| == |h0.ins| && 0 <= i <= |g.ins[mybl]|
      invariant HandedBut(g0, g.G(), comp, ident, gone, gone + [mybl], None)
      invariant HandedBut(Flip(g0), Flip(g.G()), comp, ident, gone, gone, None)
      decreases |g.ins[mybl]| - i
    {
      var otherbl := g.ins[mybl][i].point;
      if otherbl in list {
        MovingOn(h0, g.G(), comp, ident, mybl, i);
        i := i + 1;
      } else {
        OuterNeighbour(h0, g.G(), comp, ident, mybl, i);
        MoveEntering(g, otherbl, mybl, ident, comp, i, h0, g0, gone, gone);
        MovingFacts(h0, g.G(), comp, ident, mybl, i);
      }
    }
    ghost var h1 := g.G();
    MovingDone(g0, h0, h1, comp, ident, mybl, list, t);
    HandedOn(g0, h1, comp, ident, gone, mybl);
    HandedWider(Flip(g0), Flip(h1), comp, ident, gone, gone + [mybl]);
    OnlyOuter(h1, comp, ident);
    MovingStarts(Flip(h1), comp, ident, mybl, 0) by { PairedFlip(h1); StartsEmpty(h1.outs, mybl, comp); }
    i := 0;
    while i < |g.outs[mybl]|
      invariant Moving(Flip(h1), Flip(g.G()), comp, ident, mybl, i) && |g.ins| == |g.outs| == |h0.ins| &&
                  0 <= i <= |g.outs[mybl]|
      invariant HandedBut(Flip(g0), Flip(g.G()), comp, ident, gone, gone + [mybl], None)
      invariant HandedBut(g0, g.G(), comp, ident, gone + [mybl], gone + [mybl], None)
      decreases |g.outs[mybl]| - i
    {
      var otherbl := g.outs[mybl][i].point;
      if otherbl in list {
        MovingOn(Flip(h1), Flip(g.G()), comp, ident, mybl, i);
        i := i + 1;
      } else {
        OuterNeighbour(Flip(h1), Flip(g.G()), comp, ident, mybl, i);
        MoveLeaving(g, otherbl, mybl, ident, comp, i, h1, g0, gone, gone + [mybl]);
        MovingFacts(Flip(h1), Flip(g.G()), comp, ident, mybl, i);
      }
    }
    MovingOutDone(g0, h1, g.G(), comp, ident, mybl, list, t);
    HandedOn(Flip(g0), Flip(g.G()), comp, ident, gone, mybl);
  }

  lemma StartsEmpty(rows: Adj, mybl: nat, comp: set<nat>)
    requires mybl < |rows|
    ensures StartsInside(rows[mybl], 0, comp)
  {
  }

  lemma MovingOn(g0: Graph, g: Graph, comp: set<nat>, ident: nat, mybl: nat, i: nat)
    requires Moving(g0, g, comp, ident, mybl, i) && mybl < |g.ins| && i < |g.ins[mybl]| && g.ins[mybl][i].point in comp
    ensures Moving(g0, g, comp, ident, mybl, i + 1)
  {
  }

  /** The block at the other end of an outer edge is neither collapsed nor the new block. */
  lemma OuterNeighbour(g0: Graph, g: Graph, comp: set<nat>, ident: nat, mybl: nat, i: nat)
    requires Moving(g0, g, comp, ident, mybl, i) && mybl < |g.ins| && i < |g.ins[mybl]| && g.ins[mybl][i].point !in comp
    requires forall p: nat :: Leads(g0.ins[ident], p) || Leads(g0.outs[ident], p) ==> p !in comp + {ident}
    requires ident < |g0.ins| == |g0.outs|
    ensures var other := g.ins[mybl][i].point; other < |g.outs| && other != ident && Leads(g.outs[other], mybl)
  {
    assert InPaired(g, mybl, i);
    var other := g.ins[mybl][i].point;
    SlotLeads(g.outs[other], g.ins[mybl][i].rev);
  }

  lemma MovingDone(g0: Graph, h0: Graph, h1: Graph, comp: set<nat>, ident: nat, mybl: nat, list: seq<nat>, t: nat)
    requires mybl < |h1.ins| && Moving(h0, h1, comp, ident, mybl, |h1.ins[mybl]|) && Quiet(g0, h0, comp, ident)
    requires (forall p: nat :: Leads(h0.ins[ident], p) || Leads(h0.outs[ident], p) ==> p !in comp + {ident})
    requires ident < |h0.ins| && t <= |list| && (forall b :: b in comp <==> b in list) && AllInner(h0, list, t, comp)
    ensures Paired(h1) && Quiet(g0, h1, comp, ident) && AllInner(h1, list, t, comp) && Inside(h1.ins[mybl], comp)
    ensures forall p: nat :: Leads(h1.ins[ident], p) || Leads(h1.outs[ident], p) ==> p !in comp + {ident}
  {
    QuietTransitive(g0, h0, h1, comp, ident);
  }

  lemma MovingOutDone(g0: Graph, h1: Graph, h2: Graph, comp: set<nat>, ident: nat, mybl: nat, list: seq<nat>, t: nat)
    requires mybl < |h2.outs| && Moving(Flip(h1), Flip(h2), comp, ident, mybl, |h2.outs[mybl]|) &&
               Quiet(g0, h1, comp, ident)
    requires (forall p: nat :: Leads(h1.ins[ident], p) || Leads(h1.outs[ident], p) ==> p !in comp + {ident})
    requires ident < |h1.ins| && t <= |list| && (forall b :: b in comp <==> b in list) && AllInner(h1, list, t, comp)
    requires mybl < |h1.ins| && Inside(h1.ins[mybl], comp)
    ensures Paired(h2) && Quiet(g0, h2, comp, ident) && AllInner(h2, list, t, comp)
    ensures mybl < |h2.ins| && Inside(h2.ins[mybl], comp) && Inside(h2.outs[mybl], comp)
    ensures forall p: nat :: Leads(h2.ins[ident], p) || Leads(h2.outs[ident], p) ==> p !in comp + {ident}
  {
    PairedFlip(Flip(h2));
    QuietFlip(Flip(h1), Flip(h2), comp, ident);
    QuietTransitive(g0, h1, h2, comp, ident);
  }

  // ---------- the result ----------

  /** h is g with the blocks of comp collapsed into ident: edges wholly inside or wholly outside are kept, with their
      labels and in their order; no edge joins a collapsed block to any other; ident has one edge from (to) each
      outside block that some collapsed block had an edge from (to), and no others. */
  ghost predicate Collapsed(g: Graph, h: Graph, comp: set<nat>, ident: nat) {
    && |h.ins| == |g.ins| == |h.outs| == |g.outs| && ident < |g.ins| && (forall b :: b in comp ==> b < |g.ins|)
    && SideKept(g.ins, h.ins, Side(comp + {ident}, false)) && SideKept(g.outs, h.outs, Side(comp + {ident}, false))
    && SideKept(g.ins, h.ins, Side(comp, true)) && SideKept(g.outs, h.outs, Side(comp, true))
    && (forall c: nat :: c in comp ==> Inside(h.ins[c], comp) && Inside(h.outs[c], comp))
    && (forall p: nat :: Leads(h.ins[ident], p) <==> p !in comp + {ident} && GroupLeads(g.ins, comp, p))
    && (forall p: nat :: Leads(h.outs[ident], p) <==> p !in comp + {ident} && GroupLeads(g.outs, comp, p))
    && (forall p: nat :: AtMostOnce(h.ins[ident], p) && AtMostOnce(h.outs[ident], p))
  }

  /** The edges of a row to one side, out of those to a larger side. */
  ghost function Finer(kept: seq<(nat, set<EdgeFlag>)>, s: Side): seq<(nat, set<EdgeFlag>)> {
    if kept == [] then []
    else Finer(kept[..|kept| - 1], s) + if On(kept[|kept| - 1].0, s) then [kept[|kept| - 1]] else []
  }

  lemma {:induction false} KeptFiner(row: seq<Edge>, s: Side, t: Side)
    requires forall p: nat :: On(p, t) ==> On(p, s)
    ensures Kept(row, t) == Finer(Kept(row, s), t)
  {
    if row != [] {
      var e := row[|row| - 1];
      KeptFiner(row[..|row| - 1], s, t);
      var rest, all := Kept(row[..|row| - 1], s), Kept(row, s);
      if On(e.point, s) {
        assert all == rest + [(e.point, e.flags)];
        assert all[..|all| - 1] == rest && all[|all| - 1] == (e.point, e.flags);
      } else {
        assert all == rest && !On(e.point, t);
      }
    }
  }

  lemma {:induction false} KeptLeads(row: seq<Edge>, s: Side, p: nat)
    requires On(p, s)
    ensures Leads(row, p) <==> exists k :: 0 <= k < |Kept(row, s)| && Kept(row, s)[k].0 == p
  {
    if row != [] {
      var n := |row| - 1;
      var rest := Kept(row[..n], s);
      var all := Kept(row, s);
      KeptLeads(row[..n], s, p);
      assert all[..|rest|] == rest;
      if Leads(row, p) {
        var i :| 0 <= i < |row| && row[i].point == p;
        if i < n {
          assert row[..n][i].point == p;
          var k :| 0 <= k < |rest| && rest[k].0 == p;
          assert all[k].0 == p;
        } else {
          assert all[|rest|].0 == p;
        }
      }
      if k :| 0 <= k < |all| && all[k].0 == p {
        if k < |rest| {
          assert rest[k].0 == p;
          var i :| 0 <= i < n && row[..n][i].point == p;
          assert row[i].point == p;
        } else {
          assert row[n].point == p;
        }
      }
    }
  }

  lemma {:induction false} InsideKept(a: seq<Edge>, b: seq<Edge>, comp: set<nat>, ident: nat)
    requires ident !in comp && Inside(a, comp) && Kept(a, Side({ident}, false)) == Kept(b, Side({ident}, false)) &&
               !Leads(b, ident)
    ensures Inside(b, comp)
  {
    forall i | 0 <= i < |b| ensures b[i].point in comp {
      SlotLeads(b, i);
      KeptLeads(b, Side({ident}, false), b[i].point);
      KeptLeads(a, Side({ident}, false), b[i].point);
    }
  }

  /** Removing parallel edges of ident does not disturb what was collapsed. */
  lemma DedupedCollapse(g: Graph, m: Graph, h: Graph, comp: set<nat>, ident: nat)
    requires Quiet(g, m, comp, ident) && SameNeighbours(m, h, ident) && ident !in comp && g.ins[ident] == [] &&
               g.outs[ident] == []
    requires forall c: nat :: c in comp ==> Inside(m.ins[c], comp) && Inside(m.outs[c], comp)
    requires forall p: nat :: Leads(m.ins[ident], p) || Leads(m.outs[ident], p) ==> p !in comp + {ident}
    requires forall p: nat :: AtMostOnce(h.ins[ident], p) && AtMostOnce(h.outs[ident], p)
    ensures Collapsed(g, h, comp, ident)
  {
    hide AtMostOnce;
    DedupedSides(m.ins, h.ins, comp, ident);
    DedupedSides(m.outs, h.outs, comp, ident);
    DedupedInside(m.ins, h.ins, comp, ident);
    DedupedInside(m.outs, h.outs, comp, ident);
    DedupedEnds(g.ins, m.ins, h.ins, comp, ident);
    DedupedEnds(g.outs, m.outs, h.outs, comp, ident);
    SidesTransitive(g, m, h, comp, ident);
  }

  lemma SidesTransitive(g: Graph, m: Graph, h: Graph, comp: set<nat>, ident: nat)
    requires Quiet(g, m, comp, ident) && |h.ins| == |h.outs| == |m.ins|
    requires SideKept(m.ins, h.ins, Side(comp + {ident}, false)) &&
               SideKept(m.outs, h.outs, Side(comp + {ident}, false))
    requires SideKept(m.ins, h.ins, Side(comp, true)) && SideKept(m.outs, h.outs, Side(comp, true))
    ensures SideKept(g.ins, h.ins, Side(comp + {ident}, false)) && SideKept(g.outs, h.outs, Side(comp + {ident}, false))
    ensures SideKept(g.ins, h.ins, Side(comp, true)) && SideKept(g.outs, h.outs, Side(comp, true))
  {
    hide Kept, GroupLeads, Leads;
  }

  lemma DedupedSides(a: Adj, b: Adj, comp: set<nat>, ident: nat)
    requires SideKept(a, b, Side({ident}, false)) && ident !in comp
    ensures SideKept(a, b, Side(comp + {ident}, false)) && SideKept(a, b, Side(comp, true))
  {
    forall y: nat | y < |a| && y != ident
      ensures Kept(a[y], Side(comp + {ident}, false)) == Kept(b[y], Side(comp + {ident}, false))
      ensures Kept(a[y], Side(comp, true)) == Kept(b[y], Side(comp, true))
    {
      KeptFiner(a[y], Side({ident}, false), Side(comp + {ident}, false));
      KeptFiner(b[y], Side({ident}, false), Side(comp + {ident}, false));
      KeptFiner(a[y], Side({ident}, false), Side(comp, true));
      KeptFiner(b[y], Side({ident}, false), Side(comp, true));
    }
  }

  lemma DedupedInside(a: Adj, b: Adj, comp: set<nat>, ident: nat)
    requires SideKept(a, b, Side({ident}, false)) && ident !in comp &&
               (forall c: nat :: c in comp ==> c < |a| && Inside(a[c], comp))
    requires forall c: nat :: c < |a| ==> (Leads(b[c], ident) <==> Leads(a[c], ident))
    ensures forall c: nat :: c in comp ==> Inside(b[c], comp)
  {
    forall c: nat | c in comp ensures Inside(b[c], comp) {
      assert !Leads(a[c], ident);
      InsideKept(a[c], b[c], comp, ident);
    }
  }

  lemma DedupedEnds(g: Adj, a: Adj, b: Adj, comp: set<nat>, ident: nat)
    requires |g| == |a| == |b| && ident < |a| && ident !in comp && g[ident] == [] &&
               (forall c: nat :: c in comp ==> c < |a| && Inside(a[c], comp))
    requires forall p: nat :: p !in comp + {ident} ==>
               (GroupLeads(a, comp + {ident}, p) <==> GroupLeads(g, comp + {ident}, p))
    requires forall p: nat :: Leads(a[ident], p) ==> p !in comp + {ident}
    requires forall p: nat :: Leads(b[ident], p) <==> Leads(a[ident], p)
    ensures forall p: nat :: Leads(b[ident], p) <==> p !in comp + {ident} && GroupLeads(g, comp, p)
  {
    forall p: nat ensures Leads(b[ident], p) <==> p !in comp + {ident} && GroupLeads(g, comp, p) {
      if p !in comp + {ident} {
        assert forall c: nat :: c in comp ==> !Leads(a[c], p);
        assert GroupLeads(a, comp + {ident}, p) <==> Leads(a[ident], p);
        assert GroupLeads(g, comp + {ident}, p) <==> GroupLeads(g, comp, p);
      }
    }
  }

  /** The blocks of the list give their outer edges to ident. */
  method SelfIdentify(g: BlockGraph, ident: nat, list: seq<nat>)
    requires Paired(g.G()) && ident < |g.ins| && ident !in list && (forall k :: 0 <= k < |list| ==> list[k] < |g.ins|)
    requires g.ins[ident] == [] && g.outs[ident] == []
    requires |g.mark| == |g.ins| == |g.mark2| && forall p: nat :: p < |g.ins| && p !in list ==>
               !g.mark[p] && !g.mark2[p]
    modifies g`ins, g`outs, g`mark, g`mark2
    ensures Paired(g.G()) && g.mark == old(g.mark) && g.mark2 == old(g.mark2) &&
              Collapsed(old(g.G()), g.G(), Members(list), ident)
    ensures LabelsTaken(old(g.G()), g.G(), list, ident)
  {
    ghost var comp, g0 := Members(list), g.G();
    PairedSizes(g0);
    QuietReflexive(g0, comp, ident);
    if |list| == 0 {
      SameNeighboursReflexive(g0, ident);
      DedupedCollapse(g0, g0, g0, comp, ident);
      NothingTaken(g0, ident);
      return;
    }
    DetachAll(g, ident, list, comp);
    ghost var m := g.G();
    hide Paired, Quiet, SameNeighbours, Collapsed, AllInner, HandedUpTo, LabelsTaken, EdgesMerged, InLabels, OutLabels;
    QuietSizes(g0, m, comp, ident);
    NeighboursExist(m, ident);
    Dedup(g, ident);
    ClosedInside(m, list, comp);
    DedupedCollapse(g0, m, g.G(), comp, ident);
    PairedSizes(g.G());
    assert |g.ins| == |m.ins|;
    HandedMerged(g0, m, g.G(), list, comp, ident);
  }

  lemma NothingTaken(g: Graph, ident: nat)
    requires Paired(g) && ident < |g.ins| == |g.outs| && g.ins[ident] == [] && g.outs[ident] == []
    ensures LabelsTaken(g, g, [], ident)
  {
  }

  lemma QuietSizes(g: Graph, h: Graph, comp: set<nat>, ident: nat)
    requires Quiet(g, h, comp, ident)
    ensures |h.ins| == |h.outs| == |g.ins| == |g.outs| && forall c :: c in comp ==> c < |g.ins|
  {
  }

  lemma NeighboursExist(g: Graph, b: nat)
    requires Paired(g) && b < |g.ins| == |g.outs|
    ensures forall p: nat :: Leads(g.ins[b], p) || Leads(g.outs[b], p) ==> p < |g.ins|
  {
    forall p: nat | Leads(g.ins[b], p) ensures p < |g.ins| {
      var i: nat :| i < |g.ins[b]| && g.ins[b][i].point == p;
      assert InPaired(g, b, i);
    }
    forall p: nat | Leads(g.outs[b], p) ensures p < |g.ins| {
      var k: nat :| k < |g.outs[b]| && g.outs[b][k].point == p;
      assert OutPaired(g, b, k);
    }
  }

  lemma ClosedMore(g: Graph, list: seq<nat>, t: nat, comp: set<nat>)
    requires t < |list| && AllInner(g, list, t, comp) && list[t] < |g.ins| && list[t] < |g.outs|
    requires Inside(g.ins[list[t]], comp) && Inside(g.outs[list[t]], comp)
    ensures AllInner(g, list, t + 1, comp)
  {
  }

  lemma ClosedInside(g: Graph, list: seq<nat>, comp: set<nat>)
    requires AllInner(g, list, |list|, comp) && comp == Members(list)
    ensures forall c: nat :: c in comp ==>
              c < |g.ins| && c < |g.outs| && Inside(g.ins[c], comp) && Inside(g.outs[c], comp)
  {
  }

  ghost function Members(list: seq<nat>): set<nat> {
    set k | 0 <= k < |list| :: list[k]
  }

  method DetachAll(g: BlockGraph, ident: nat, list: seq<nat>, ghost comp: set<nat>)
    requires Paired(g.G()) && ident < |g.ins| && ident !in list && comp == Members(list) &&
               (forall k :: 0 <= k < |list| ==> list[k] < |g.ins|)
    requires g.ins[ident] == [] && g.outs[ident] == [] && |g.ins| == |g.outs|
    modifies g`ins, g`outs
    ensures Paired(g.G()) && Quiet(old(g.G()), g.G(), comp, ident) && |g.ins| == |g.outs| == |old(g.ins)| &&
              AllInner(g.G(), list, |list|, comp)
    ensures forall p: nat :: Leads(g.ins[ident], p) || Leads(g.outs[ident], p) ==> p !in comp + {ident}
    ensures HandedUpTo(old(g.G()), g.G(), list, |list|, comp, ident)
  {
    ghost var g0 := g.G();
    QuietReflexive(g0, comp, ident);
    PairedFlip(g0);
    HandedStarts(g0, comp, ident);
    HandedStarts(Flip(g0), comp, ident);
    assert list[..0] == [];
    assert forall b :: b in comp <==> b in list;
    assert AllInner(g0, list, 0, comp);
    hide Paired, Quiet, AllInner, Leads, Inside, Members, HandedUpTo;
    var t := 0;
    while t < |list|
      invariant 0 <= t <= |list| && |g.ins| == |g.outs| == |g0.ins| && Paired(g.G()) && Quiet(g0, g.G(), comp, ident) &&
                  AllInner(g.G(), list, t, comp)
      invariant forall p: nat :: Leads(g.ins[ident], p) || Leads(g.outs[ident], p) ==> p !in comp + {ident}
      invariant HandedUpTo(g0, g.G(), list, t, comp, ident)
    {
      DetachBlock(g, list[t], ident, list, comp, g0, t);
      ClosedMore(g.G(), list, t, comp);
      t := t + 1;
    }
  }

  /** The nodes leave the list of the graph and become the components of ident. */
  method IdentifyInternal(g: BlockGraph, ident: nat, nodes: seq<nat>)
    requires Paired(g.G()) && ident < |g.ins| && ident !in nodes && ident !in g.list && g.ins[ident] == [] &&
               g.outs[ident] == []
    requires |g.mark| == |g.ins| == |g.mark2| && (forall k :: 0 <= k < |g.list| ==> g.list[k] < |g.ins|)
    requires (forall b :: b in nodes ==> b in g.list) &&
               (forall i, j :: 0 <= i < j < |g.list| ==> g.list[i] != g.list[j])
    requires forall p :: 0 <= p < |g.ins| ==> !g.mark[p] && !g.mark2[p]
    modifies g`ins, g`outs, g`mark, g`mark2, g`list
    ensures Paired(g.G()) && Collapsed(old(g.G()), g.G(), Members(nodes), ident)
    ensures LabelsTaken(old(g.G()), g.G(), nodes, ident)
    ensures g.mark == old(g.mark) && g.mark2 == old(g.mark2)
    ensures g.list == Without(old(g.list), Members(nodes))
  {
    ghost var list0 := g.list;
    forall k | 0 <= k < |nodes| ensures nodes[k] < |g.ins| {
      assert nodes[k] in g.list;
    }
    var i := 0;
    while i < |nodes|
      invariant 0 <= i <= |nodes| && |g.mark| == |old(g.mark)| && g.mark2 == old(g.mark2) && g.G() == old(g.G()) &&
                  g.list == list0
      invariant forall p: nat :: p < |g.mark| ==> (g.mark[p] <==> p in nodes[..i])
    {
      g.mark := g.mark[nodes[i] := true];
      i := i + 1;
    }
    assert nodes[..i] == nodes;
    var newlist: seq<nat> := [];
    i := 0;
    while i < |g.list|
      invariant 0 <= i <= |g.list| && |g.mark| == |old(g.mark)| && g.mark2 == old(g.mark2) && g.G() == old(g.G()) &&
                  g.list == list0
      invariant newlist == Without(g.list[..i], Members(nodes))
      invariant forall p: nat :: p < |g.mark| ==> (g.mark[p] <==> p in nodes && p !in g.list[..i])
    {
      assert g.list[..i + 1][..i] == g.list[..i];
      assert g.list[i] !in g.list[..i];
      if !g.mark[g.list[i]] {
        newlist := newlist + [g.list[i]];
      } else {
        g.mark := g.mark[g.list[i] := false];
      }
      i := i + 1;
    }
    assert g.list[..i] == g.list;
    g.list := newlist;
    assert g.mark == old(g.mark);
    SelfIdentify(g, ident, nodes);
  }

  function Without(list: seq<nat>, s: set<nat>): seq<nat> {
    if list == [] then []
    else Without(list[..|list| - 1], s) + if list[|list| - 1] in s then [] else [list[|list| - 1]]
  }
}
