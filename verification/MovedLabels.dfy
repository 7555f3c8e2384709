/** What selfIdentify does to the labels of the edges it moves to the new block. */
module MovedLabels {

  import opened Wrappers
  import opened Flow
  import opened Quotient
  import opened Deduplication

  /** The labels of the edges to c, in order. */
  ghost function FlagsTo(row: seq<Edge>, c: nat): seq<set<EdgeFlag>> {
    if row == [] then []
    else FlagsTo(row[..|row| - 1], c) + if row[|row| - 1].point == c then [row[|row| - 1].flags] else []
  }

  /** The labels of the edges to the listed blocks: block by block, in the order of the list. */
  ghost function FlagsInto(row: seq<Edge>, list: seq<nat>): seq<set<EdgeFlag>> {
    if list == [] then []
    else
      var rest, c := list[..|list| - 1], list[|list| - 1];
      FlagsInto(row, rest) + if c in rest then [] else FlagsTo(row, c)
  }

  /** Edges to p with these labels on both halves. */
  ghost function Echo(p: nat, s: seq<set<EdgeFlag>>): seq<Labels> {
    seq(|s|, i requires 0 <= i < |s| => Labels(p, s[i], s[i]))
  }

  lemma EchoAppend(p: nat, a: seq<set<EdgeFlag>>, b: seq<set<EdgeFlag>>)
    ensures Echo(p, a + b) == Echo(p, a) + Echo(p, b)
  {
  }

  lemma {:induction false} FlagsToNone(row: seq<Edge>, c: nat)
    requires forall k :: 0 <= k < |row| ==> row[k].point != c
    ensures FlagsTo(row, c) == []
  {
    if row != [] { FlagsToNone(row[..|row| - 1], c); }
  }

  lemma FlagsToNext(row: seq<Edge>, j: nat, c: nat)
    requires j < |row|
    ensures FlagsTo(row[..j + 1], c) == FlagsTo(row[..j], c) + if row[j].point == c then [row[j].flags] else []
  {
    assert row[..j + 1][..j] == row[..j];
  }

  lemma FlagsIntoNext(row: seq<Edge>, list: seq<nat>, c: nat)
    ensures FlagsInto(row, list + [c]) == FlagsInto(row, list) + if c in list then [] else FlagsTo(row, c)
  {
    assert (list + [c])[..|list|] == list;
  }

  // ---------- one edge ----------

  /** Every entry after the target of an edge is replaced. */
  lemma ReplaceOutAt(g: Graph, x: nat, j: nat, t: nat)
    requires Paired(g) && OutSlot(g, x, j) && t < |g.ins|
    ensures OutPaired(g, x, j)
    ensures var h, e := ReplaceOut(g, x, j, t), g.outs[x][j];
      && |h.ins| == |g.ins| == |h.outs| == |g.outs| && Paired(h)
      && (forall y: nat :: y < |h.outs| ==> |h.outs[y]| == |g.outs[y]|)
      && (forall y: nat, k: nat :: OutSlot(g, y, k) && !(y == x && k == j) ==>
         h.outs[y][k] == Slid(g.outs[y][k], e.point, e.rev))
      && h.outs[x][j] == Edge(t, e.flags, |h.ins[t]| - 1)
      && (forall y: nat :: y < |h.ins| ==>
            |h.ins[y]| == |g.ins[y]| - (if y == e.point then 1 else 0) + (if y == t then 1 else 0))
      && h.ins[t][|h.ins[t]| - 1] == Edge(x, e.flags, j)
      && (forall y: nat, i: nat :: InSlot(h, y, i) && !(y == t && i == |h.ins[t]| - 1) ==>
            h.ins[y][i] == g.ins[y][Before(i, e.rev, y == e.point)])
  {
    assert OutPaired(g, x, j);
    PairedFlip(g);
    assert InPaired(Flip(g), x, j);
    ReplaceInAt(Flip(g), x, j, t);
    PairedReplaceOut(g, x, j, t);
    var h, e := ReplaceOut(g, x, j, t), g.outs[x][j];
    assert Flip(h) == ReplaceIn(Flip(g), x, j, t);
    forall y: nat, k: nat | OutSlot(g, y, k) && !(y == x && k == j)
      ensures h.outs[y][k] == Slid(g.outs[y][k], e.point, e.rev)
    {
      assert InSlot(Flip(g), y, k);
    }
    forall y: nat, i: nat | InSlot(h, y, i) && !(y == t && i == |h.ins[t]| - 1)
      ensures h.ins[y][i] == g.ins[y][Before(i, e.rev, y == e.point)]
    {
      assert OutSlot(Flip(h), y, i);
    }
  }

  /** The edges of ident when one into a collapsed block is moved to it: one in-edge more, which has the label of the
      moved edge's half at x, on both halves. */
  lemma MovedIn(g: Graph, x: nat, j: nat, ident: nat)
    requires Paired(g) && OutSlot(g, x, j) && ident < |g.ins| == |g.outs| && x != ident && g.outs[x][j].point != ident
    ensures OutPaired(g, x, j)
    ensures var h, f := ReplaceOut(g, x, j, ident), g.outs[x][j].flags;
      Paired(h) && ident < |h.ins| && InLabels(h, ident) == InLabels(g, ident) + [Labels(x, f, f)]
  {
    ReplaceOutAt(g, x, j, ident);
    var h, e := ReplaceOut(g, x, j, ident), g.outs[x][j];
    hide ReplaceOut;
    var n := |g.ins[ident]|;
    forall i: nat | i < n
      ensures InPaired(h, ident, i) && InPaired(g, ident, i) && InLabel(h, ident, i) == InLabel(g, ident, i)
    {
      assert InSlot(g, ident, i) && InSlot(h, ident, i);
      var f := g.ins[ident][i];
      assert h.ins[ident][i] == f && OutSlot(g, f.point, f.rev);
    }
    assert InSlot(h, ident, n) && InPaired(h, ident, n);
  }

  /** Out-edges of ident to other blocks stay as they are. */
  lemma MovedOut(g: Graph, x: nat, j: nat, ident: nat)
    requires Paired(g) && OutSlot(g, x, j) && ident < |g.ins| == |g.outs| && x != ident && g.outs[x][j].point != ident
    requires !Leads(g.outs[ident], g.outs[x][j].point)
    ensures OutPaired(g, x, j)
    ensures var h := ReplaceOut(g, x, j, ident);
      Paired(h) && ident < |h.outs| && OutLabels(h, ident) == OutLabels(g, ident)
  {
    ReplaceOutAt(g, x, j, ident);
    var h, e := ReplaceOut(g, x, j, ident), g.outs[x][j];
    hide ReplaceOut;
    forall k: nat | k < |g.outs[ident]|
      ensures OutPaired(h, ident, k) && OutPaired(g, ident, k) && OutLabel(h, ident, k) == OutLabel(g, ident, k)
    {
      assert OutSlot(g, ident, k) && OutSlot(h, ident, k);
      var f := g.outs[ident][k];
      assert f.point != e.point;
      assert h.outs[ident][k] == f && InSlot(g, f.point, f.rev) && InSlot(h, f.point, f.rev);
    }
  }

  // ---------- the edges of one outside block ----------

  /** b is row a with the edges to the gone blocks led to ident, and these are the edges of ident to (from) p. */
  ghost predicate Handed(a: seq<Edge>, b: seq<Edge>, labels: seq<Labels>, p: nat, ident: nat, gone: seq<nat>) {
    && |b| == |a| && Only(labels, p) == Echo(p, FlagsInto(a, gone))
    && forall k :: 0 <= k < |a| ==>
         b[k].flags == a[k].flags && b[k].point == if a[k].point in gone then ident else a[k].point
  }

  /** The same when those of the first j edges that lead to c were moved as well. */
  ghost predicate HandedPart(a: seq<Edge>, b: seq<Edge>, labels: seq<Labels>, p: nat, ident: nat, gone: seq<nat>,
                             c: nat,
                             j: nat) {
    && |b| == |a| && j <= |a| && Only(labels, p) == Echo(p, FlagsInto(a, gone) + FlagsTo(a[..j], c))
    && forall k :: 0 <= k < |a| ==>
         b[k].flags == a[k].flags
         && b[k].point == if a[k].point in gone || (k < j && a[k].point == c) then ident else a[k].point
  }

  lemma PartStarts(a: seq<Edge>, b: seq<Edge>, labels: seq<Labels>, p: nat, ident: nat, gone: seq<nat>, c: nat)
    requires Handed(a, b, labels, p, ident, gone)
    ensures HandedPart(a, b, labels, p, ident, gone, c, 0)
  {
    assert FlagsInto(a, gone) + FlagsTo(a[..0], c) == FlagsInto(a, gone);
  }

  lemma PartEnds(a: seq<Edge>, b: seq<Edge>, labels: seq<Labels>, p: nat, ident: nat, gone: seq<nat>, c: nat)
    requires HandedPart(a, b, labels, p, ident, gone, c, |a|) && c !in gone
    ensures Handed(a, b, labels, p, ident, gone + [c])
  {
    FlagsIntoNext(a, gone, c);
    assert a[..|a|] == a;
  }

  lemma OnlyItself(x: Labels)
    ensures Only([x], x.end) == [x]
  {
    OnlyCons(x, [], x.end);
    assert [x] + [] == [x];
  }

  /** Edge j is moved if it leads to c. */
  lemma PartNext(a: seq<Edge>, b: seq<Edge>, b': seq<Edge>, labels: seq<Labels>, labels': seq<Labels>, p: nat,
                 ident: nat, gone: seq<nat>, c: nat, j: nat)
    requires HandedPart(a, b, labels, p, ident, gone, c, j) && j < |a| && c !in gone && c != ident && |b'| == |b|
    requires forall k :: 0 <= k < |b| ==>
               b'[k].flags == b[k].flags && b'[k].point == if k == j && b[j].point == c then ident else b[k].point
    requires labels' == labels + if b[j].point == c then [Labels(p, b[j].flags, b[j].flags)] else []
    ensures HandedPart(a, b', labels', p, ident, gone, c, j + 1)
  {
    FlagsToNext(a, j, c);
    var before, f := FlagsInto(a, gone) + FlagsTo(a[..j], c), b[j].flags;
    if b[j].point == c {
      OnlyAppend(labels, [Labels(p, f, f)], p);
      OnlyItself(Labels(p, f, f));
      EchoAppend(p, before, [f]);
      assert Echo(p, [f]) == [Labels(p, f, f)];
      assert before + [f] == FlagsInto(a, gone) + (FlagsTo(a[..j], c) + [f]);
    } else {
      assert before == FlagsInto(a, gone) + FlagsTo(a[..j + 1], c) && labels' == labels;
    }
  }

  /** An edge of another block was moved. */
  lemma HandedStays(a: seq<Edge>, b: seq<Edge>, b': seq<Edge>, labels: seq<Labels>, more: seq<Labels>, p: nat,
                    ident: nat, gone: seq<nat>)
    requires Handed(a, b, labels, p, ident, gone) && SameEdges(b, b')
    requires forall i :: 0 <= i < |more| ==> more[i].end != p
    ensures Handed(a, b', labels + more, p, ident, gone)
  {
    OnlyAppend(labels, more, p);
    OnlyNone(more, p);
  }

  /** Nothing leads to c any more: all edges to it were moved, or there were none. */
  lemma HandedNext(a: seq<Edge>, b: seq<Edge>, labels: seq<Labels>, p: nat, ident: nat, gone: seq<nat>, c: nat)
    requires Handed(a, b, labels, p, ident, gone) && !Leads(b, c)
    ensures Handed(a, b, labels, p, ident, gone + [c])
  {
    FlagsIntoNext(a, gone, c);
    if c !in gone {
      forall k | 0 <= k < |a| ensures a[k].point != c {
        assert b[k].point != c;
      }
      FlagsToNone(a, c);
    }
  }

  // ---------- the edges of all outside blocks ----------

  /** All but x: every block outside of comp has handed its edges into the gone blocks to ident, or those into the first
      more of them. */
  ghost predicate HandedBut(g0: Graph, g: Graph, comp: set<nat>, ident: nat, gone: seq<nat>, more: seq<nat>,
                            x: Option<nat>) {
    && Paired(g) && |g.outs| == |g0.outs| && ident < |g.ins|
    && forall p: nat :: p < |g.outs| && p !in comp + {ident} && Some(p) != x ==>
         Handed(g0.outs[p], g.outs[p], InLabels(g, ident), p, ident, gone)
         || Handed(g0.outs[p], g.outs[p], InLabels(g, ident), p, ident, more)
  }

  lemma HandedStarts(g: Graph, comp: set<nat>, ident: nat)
    requires Paired(g) && ident < |g.ins| && g.ins[ident] == []
    ensures HandedBut(g, g, comp, ident, [], [], None)
  {
  }

  lemma HandedHas(g0: Graph, g: Graph, comp: set<nat>, ident: nat, gone: seq<nat>, c: nat, p: nat)
    requires HandedBut(g0, g, comp, ident, gone, gone + [c], None) && p < |g.outs| && p !in comp + {ident} && c != ident
    requires Leads(g.outs[p], c)
    ensures Handed(g0.outs[p], g.outs[p], InLabels(g, ident), p, ident, gone) && c !in gone
  {
    if Handed(g0.outs[p], g.outs[p], InLabels(g, ident), p, ident, gone + [c]) {
      LedIsNotGone(g0.outs[p], g.outs[p], InLabels(g, ident), p, ident, gone + [c], c);
    } else {
      LedIsNotGone(g0.outs[p], g.outs[p], InLabels(g, ident), p, ident, gone, c);
    }
  }

  lemma LedIsNotGone(a: seq<Edge>, b: seq<Edge>, labels: seq<Labels>, p: nat, ident: nat, gone: seq<nat>, c: nat)
    requires Handed(a, b, labels, p, ident, gone) && Leads(b, c) && c != ident
    ensures c !in gone
  {
  }

  lemma InsideNotLed(g: Graph, comp: set<nat>, c: nat, p: nat)
    requires Paired(g) && c < |g.ins| && Inside(g.ins[c], comp) && p < |g.outs| && p !in comp
    ensures !Leads(g.outs[p], c)
  {
    forall k: nat | k < |g.outs[p]| ensures g.outs[p][k].point != c {
      assert OutPaired(g, p, k);
    }
  }

  /** Another block of the set is done. */
  lemma HandedOn(g0: Graph, g: Graph, comp: set<nat>, ident: nat, gone: seq<nat>, c: nat)
    requires HandedBut(g0, g, comp, ident, gone, gone + [c], None) && c < |g.ins| && Inside(g.ins[c], comp)
    ensures HandedBut(g0, g, comp, ident, gone + [c], gone + [c], None)
  {
    hide Handed, InLabels;
    forall p: nat | p < |g.outs| && p !in comp + {ident}
      ensures Handed(g0.outs[p], g.outs[p], InLabels(g, ident), p, ident, gone + [c])
    {
      InsideNotLed(g, comp, c, p);
      if Handed(g0.outs[p], g.outs[p], InLabels(g, ident), p, ident, gone) {
        HandedNext(g0.outs[p], g.outs[p], InLabels(g, ident), p, ident, gone, c);
      }
    }
  }

  lemma RowsAfterMove(g: Graph, x: nat, j: nat, ident: nat)
    requires Paired(g) && OutSlot(g, x, j) && ident < |g.ins| == |g.outs| && g.outs[x][j].point != ident
    ensures OutPaired(g, x, j)
    ensures var h, c := ReplaceOut(g, x, j, ident), g.outs[x][j].point;
      && |h.outs| == |g.outs| == |h.ins| == |g.ins| && |h.outs[x]| == |g.outs[x]|
      && (forall p: nat :: p < |g.outs| && p != x ==> SameEdges(g.outs[p], h.outs[p]))
      && (forall p: nat :: p < |g.ins| && p != c && p != ident ==> SameEdges(g.ins[p], h.ins[p]))
      && forall k :: 0 <= k < |g.outs[x]| ==>
         h.outs[x][k].flags == g.outs[x][k].flags && h.outs[x][k].point == if k == j then ident else g.outs[x][k].point
  {
    ReplaceCuts(g, x, j, ident);
  }

  /** Edge j of x, to c, is handed over. */
  lemma HandedMove(g0: Graph, g: Graph, comp: set<nat>, ident: nat, gone: seq<nat>, c: nat, x: nat, j: nat)
    requires HandedBut(g0, g, comp, ident, gone, gone + [c], Some(x)) && OutSlot(g, x, j) && g.outs[x][j].point == c
    requires c !in gone && c != ident && x !in comp + {ident} && x < |g0.outs|
    requires HandedPart(g0.outs[x], g.outs[x], InLabels(g, ident), x, ident, gone, c, j)
    ensures |g.ins| == |g.outs| && OutPaired(g, x, j)
    ensures var h := ReplaceOut(g, x, j, ident);
      && HandedBut(g0, h, comp, ident, gone, gone + [c], Some(x)) && x < |h.outs|
      && HandedPart(g0.outs[x], h.outs[x], InLabels(h, ident), x, ident, gone, c, j + 1)
  {
    PairedSizes(g);
    MovedIn(g, x, j, ident);
    RowsAfterMove(g, x, j, ident);
    var h, f := ReplaceOut(g, x, j, ident), g.outs[x][j].flags;
    PairedSizes(h);
    hide Paired, ReplaceOut, Handed, HandedPart, InLabels, SameEdges;
    PartNext(g0.outs[x], g.outs[x], h.outs[x], InLabels(g, ident), InLabels(h, ident), x, ident, gone, c, j);
    forall p: nat | p < |g.outs| && p !in comp + {ident} && p != x
      ensures Handed(g0.outs[p], h.outs[p], InLabels(h, ident), p, ident, gone)
              || Handed(g0.outs[p], h.outs[p], InLabels(h, ident), p, ident, gone + [c])
    {
      if Handed(g0.outs[p], g.outs[p], InLabels(g, ident), p, ident, gone) {
        HandedStays(g0.outs[p], g.outs[p], h.outs[p], InLabels(g, ident), [Labels(x, f, f)], p, ident, gone);
      } else {
        HandedStays(g0.outs[p], g.outs[p], h.outs[p], InLabels(g, ident), [Labels(x, f, f)], p, ident, gone + [c]);
      }
    }
  }

  /** That does not touch edges that lead the other way. */
  lemma HandedOther(g0: Graph, g: Graph, comp: set<nat>, ident: nat, left: seq<nat>, x: nat, j: nat)
    requires HandedBut(Flip(g0), Flip(g), comp, ident, left, left, None) && Paired(g) && OutSlot(g, x, j)
    requires g.outs[x][j].point in comp && ident !in comp && x !in comp + {ident}
    requires ident < |g.ins| == |g.outs| && !Leads(g.outs[ident], g.outs[x][j].point)
    ensures OutPaired(g, x, j)
    ensures HandedBut(Flip(g0), Flip(ReplaceOut(g, x, j, ident)), comp, ident, left, left, None)
  {
    MovedOut(g, x, j, ident);
    RowsAfterMove(g, x, j, ident);
    var h := ReplaceOut(g, x, j, ident);
    LabelsFlip(g, ident);
    LabelsFlip(h, ident);
    hide Paired, ReplaceOut, Handed, InLabels, OutLabels, SameEdges;
    forall p: nat | p < |g.ins| && p !in comp + {ident}
      ensures Handed(g0.ins[p], h.ins[p], OutLabels(h, ident), p, ident, left)
    {
      HandedStays(g0.ins[p], g.ins[p], h.ins[p], OutLabels(g, ident), [], p, ident, left);
      assert OutLabels(g, ident) + [] == OutLabels(g, ident);
    }
  }

  lemma HandedFirst(g0: Graph, g: Graph, comp: set<nat>, ident: nat, gone: seq<nat>, c: nat, x: nat)
    requires HandedBut(g0, g, comp, ident, gone, gone + [c], None) && x < |g.outs| && x !in comp + {ident} && c != ident
    requires Leads(g.outs[x], c)
    ensures HandedBut(g0, g, comp, ident, gone, gone + [c], Some(x)) && c !in gone && x < |g0.outs|
    ensures HandedPart(g0.outs[x], g.outs[x], InLabels(g, ident), x, ident, gone, c, 0)
  {
    hide Handed, HandedPart, InLabels;
    HandedHas(g0, g, comp, ident, gone, c, x);
    PartStarts(g0.outs[x], g.outs[x], InLabels(g, ident), x, ident, gone, c);
  }

  lemma HandedSkip(g0: Graph, g: Graph, comp: set<nat>, ident: nat, gone: seq<nat>, c: nat, x: nat, j: nat)
    requires Paired(g) && ident < |g.ins| && x < |g.outs| && x < |g0.outs| && j < |g.outs[x]| && g.outs[x][j].point != c
    requires c !in gone && c != ident && HandedPart(g0.outs[x], g.outs[x], InLabels(g, ident), x, ident, gone, c, j)
    ensures HandedPart(g0.outs[x], g.outs[x], InLabels(g, ident), x, ident, gone, c, j + 1)
  {
    hide InLabels;
    assert InLabels(g, ident) + [] == InLabels(g, ident);
    PartNext(g0.outs[x], g.outs[x], g.outs[x], InLabels(g, ident), InLabels(g, ident), x, ident, gone, c, j);
  }

  lemma HandedLast(g0: Graph, g: Graph, comp: set<nat>, ident: nat, gone: seq<nat>, c: nat, x: nat)
    requires HandedBut(g0, g, comp, ident, gone, gone + [c], Some(x)) && x < |g.outs| && c !in gone
    requires HandedPart(g0.outs[x], g.outs[x], InLabels(g, ident), x, ident, gone, c, |g.outs[x]|)
    ensures HandedBut(g0, g, comp, ident, gone, gone + [c], None)
  {
    hide Handed, InLabels;
    PartEnds(g0.outs[x], g.outs[x], InLabels(g, ident), x, ident, gone, c);
  }

  /** The listed blocks before t have given up their outer edges. */
  ghost predicate HandedUpTo(g0: Graph, g: Graph, list: seq<nat>, t: nat, comp: set<nat>, ident: nat)
    requires t <= |list|
  {
    && HandedBut(g0, g, comp, ident, list[..t], list[..t], None)
    && HandedBut(Flip(g0), Flip(g), comp, ident, list[..t], list[..t], None)
  }

  lemma HandedWider(g0: Graph, g: Graph, comp: set<nat>, ident: nat, gone: seq<nat>, more: seq<nat>)
    requires HandedBut(g0, g, comp, ident, gone, gone, None)
    ensures HandedBut(g0, g, comp, ident, gone, more, None)
  {
    hide Handed, InLabels;
  }

  // ---------- the labels of the new block's edges ----------

  /** ident's half of its edge from (to) an outside block p has all labels that the halves at p had of edges into (from)
      the listed blocks; the half at p keeps the label of the first of those. */
  ghost predicate LabelsTaken(g: Graph, h: Graph, list: seq<nat>, ident: nat) {
    && Paired(h) && ident < |h.ins| == |h.outs| == |g.ins| == |g.outs|
    && forall p: nat :: p < |g.outs| && p !in list && p != ident ==>
         Only(InLabels(h, ident), p) == Merged(Echo(p, FlagsInto(g.outs[p], list)))
         && Only(OutLabels(h, ident), p) == Merged(Echo(p, FlagsInto(g.ins[p], list)))
  }

  lemma LabelsTakenFlip(g: Graph, h: Graph, list: seq<nat>, ident: nat)
    requires LabelsTaken(g, h, list, ident)
    ensures LabelsTaken(Flip(g), Flip(h), list, ident)
  {
    LabelsFlip(h, ident);
  }

  /** Edge k of the row leads to a listed block. */
  ghost predicate Into(row: seq<Edge>, list: seq<nat>, k: nat) {
    k < |row| && row[k].point in list
  }

  /** The new edge from p, at in-slot i of ident, by the edges that p had into the listed blocks: a single one keeps its
      label. */
  lemma TakenLabel(g: Graph, h: Graph, list: seq<nat>, ident: nat, i: nat)
    requires LabelsTaken(g, h, list, ident) && InSlot(h, ident, i)
    requires h.ins[ident][i].point !in list && h.ins[ident][i].point != ident
    ensures InPaired(h, ident, i)
    ensures var e := h.ins[ident][i];
      e.point < |g.outs|
      && var row, half := g.outs[e.point], h.outs[e.point][e.rev];
         && (forall f :: f in e.flags <==> exists k: nat :: Into(row, list, k) && f in row[k].flags)
         && FlagsInto(row, list) != [] && half.flags == FlagsInto(row, list)[0]
         && forall k: nat :: Into(row, list, k) && (forall m: nat :: Into(row, list, m) ==> m == k) ==>
              e.flags == half.flags == row[k].flags
  {
    hide LabelsTaken;
    TakenParts(g, h, list, ident, i);
    var e := h.ins[ident][i];
    var row := g.outs[e.point];
    var all := FlagsInto(row, list);
    hide FlagsInto;
    forall f ensures f in e.flags <==> exists k: nat :: Into(row, list, k) && f in row[k].flags {
      if f in e.flags {
        var n :| 0 <= n < |all| && f in all[n];
        var k := FlagsIntoHas(row, list, n);
        assert Into(row, list, k) && f in row[k].flags;
      }
      if k: nat :| Into(row, list, k) && f in row[k].flags {
        var n := FlagsIntoOf(row, list, k);
        assert f in all[n];
      }
    }
    forall k: nat | Into(row, list, k) && (forall m: nat :: Into(row, list, m) ==> m == k)
      ensures e.flags == h.outs[e.point][e.rev].flags == row[k].flags
    {
      FlagsIntoOne(row, list, k);
      assert forall f :: f in e.flags <==> f in all[0];
    }
  }

  /** The same for the new edge to p, at out-slot k, by the edges that p had from the listed blocks. */
  lemma TakenOutLabel(g: Graph, h: Graph, list: seq<nat>, ident: nat, k: nat)
    requires LabelsTaken(g, h, list, ident) && OutSlot(h, ident, k)
    requires h.outs[ident][k].point !in list && h.outs[ident][k].point != ident
    ensures OutPaired(h, ident, k)
    ensures var e := h.outs[ident][k];
      e.point < |g.ins|
      && var row, half := g.ins[e.point], h.ins[e.point][e.rev];
         && (forall f :: f in e.flags <==> exists i: nat :: Into(row, list, i) && f in row[i].flags)
         && FlagsInto(row, list) != [] && half.flags == FlagsInto(row, list)[0]
         && forall i: nat :: Into(row, list, i) && (forall m: nat :: Into(row, list, m) ==> m == i) ==>
              e.flags == half.flags == row[i].flags
  {
    hide LabelsTaken, FlagsInto, Into;
    LabelsTakenFlip(g, h, list, ident);
    LabelsTakenPaired(g, h, list, ident);
    assert OutPaired(h, ident, k);
    TakenLabel(Flip(g), Flip(h), list, ident, k);
  }

  lemma LabelsTakenPaired(g: Graph, h: Graph, list: seq<nat>, ident: nat)
    requires LabelsTaken(g, h, list, ident)
    ensures Paired(h)
  {
  }

  lemma TakenParts(g: Graph, h: Graph, list: seq<nat>, ident: nat, i: nat)
    requires LabelsTaken(g, h, list, ident) && InSlot(h, ident, i)
    requires h.ins[ident][i].point !in list && h.ins[ident][i].point != ident
    ensures InPaired(h, ident, i)
    ensures var e := h.ins[ident][i]; var all := FlagsInto(g.outs[e.point], list);
      && e.point < |g.outs| && all != [] && h.outs[e.point][e.rev].flags == all[0]
      && forall f :: f in e.flags <==> exists n :: 0 <= n < |all| && f in all[n]
  {
    hide Only, Merged, Echo, AllHere, FlagsInto;
    assert InPaired(h, ident, i);
    var e := h.ins[ident][i];
    var all := FlagsInto(g.outs[e.point], list);
    assert e.point < |g.outs| by { PairedSizes(h); }
    OnlyHas(InLabels(h, ident), i, e.point);
    MergedEcho(e.point, all);
  }

  /** Edges to p with these labels, merged. */
  lemma MergedEcho(p: nat, all: seq<set<EdgeFlag>>)
    ensures if all == [] then Merged(Echo(p, all)) == []
            else Merged(Echo(p, all)) == [Labels(p, AllHere(Echo(p, all)), all[0])]
    ensures forall f :: f in AllHere(Echo(p, all)) <==> exists n :: 0 <= n < |all| && f in all[n]
  {
    hide AllHere;
    AllHereAre(Echo(p, all));
    forall n, f | 0 <= n < |all| && f in all[n] ensures f in AllHere(Echo(p, all)) {
      assert f in Echo(p, all)[n].here;
    }
  }

  lemma {:induction false} AllHereAre(s: seq<Labels>)
    ensures forall f :: f in AllHere(s) <==> exists n :: 0 <= n < |s| && f in s[n].here
  {
    if s != [] {
      var rest := s[..|s| - 1];
      AllHereAre(rest);
      forall f | f in AllHere(s) ensures exists n :: 0 <= n < |s| && f in s[n].here {
        if f in AllHere(rest) {
          var n :| 0 <= n < |rest| && f in rest[n].here;
          assert s[n] == rest[n];
        }
      }
      forall n, f | 0 <= n < |s| && f in s[n].here ensures f in AllHere(s) {
        if n < |rest| { assert s[n] == rest[n]; }
      }
    }
  }

  /** Where there is just one edge to p, it is that. */
  lemma {:induction false} OnlyHas(s: seq<Labels>, i: nat, p: nat)
    requires i < |s| && s[i].end == p
    ensures Only(s, p) != [] && (|Only(s, p)| == 1 ==> Only(s, p)[0] == s[i])
  {
    var rest := s[..|s| - 1];
    if i < |rest| { OnlyHas(rest, i, p); }
  }

  lemma {:induction false} FlagsToHas(row: seq<Edge>, c: nat, n: nat) returns (k: nat)
    requires n < |FlagsTo(row, c)|
    ensures k < |row| && row[k].point == c && FlagsTo(row, c)[n] == row[k].flags
  {
    var rest := row[..|row| - 1];
    if n < |FlagsTo(rest, c)| { k := FlagsToHas(rest, c, n); } else { k := |rest|; }
  }

  lemma {:induction false} FlagsToOf(row: seq<Edge>, c: nat, k: nat) returns (n: nat)
    requires k < |row| && row[k].point == c
    ensures n < |FlagsTo(row, c)| && FlagsTo(row, c)[n] == row[k].flags
  {
    var rest := row[..|row| - 1];
    if k < |rest| { n := FlagsToOf(rest, c, k); } else { n := |FlagsTo(rest, c)|; }
  }

  /** Each of these labels is one of an edge into a listed block. */
  lemma {:induction false} FlagsIntoHas(row: seq<Edge>, list: seq<nat>, n: nat) returns (k: nat)
    requires n < |FlagsInto(row, list)|
    ensures Into(row, list, k) && FlagsInto(row, list)[n] == row[k].flags
  {
    var rest, c := list[..|list| - 1], list[|list| - 1];
    assert list == rest + [c];
    var m := |FlagsInto(row, rest)|;
    if n < m { k := FlagsIntoHas(row, rest, n); } else { k := FlagsToHas(row, c, n - m); }
  }

  /** Every such edge has its label among them. */
  lemma {:induction false} FlagsIntoOf(row: seq<Edge>, list: seq<nat>, k: nat) returns (n: nat)
    requires Into(row, list, k)
    ensures n < |FlagsInto(row, list)| && FlagsInto(row, list)[n] == row[k].flags
  {
    var rest, c := list[..|list| - 1], list[|list| - 1];
    assert list == rest + [c];
    if row[k].point in rest {
      n := FlagsIntoOf(row, rest, k);
    } else {
      n := FlagsToOf(row, c, k);
      n := n + |FlagsInto(row, rest)|;
    }
  }

  lemma FlagsIntoOne(row: seq<Edge>, list: seq<nat>, k: nat)
    requires Into(row, list, k) && forall m: nat :: Into(row, list, m) ==> m == k
    ensures FlagsInto(row, list) != [] && forall n :: 0 <= n < |FlagsInto(row, list)| ==>
              FlagsInto(row, list)[n] == row[k].flags
  {
    var first := FlagsIntoOf(row, list, k);
    forall n | 0 <= n < |FlagsInto(row, list)| ensures FlagsInto(row, list)[n] == row[k].flags {
      var m := FlagsIntoHas(row, list, n);
    }
  }

  /** Handing over and merging together. */
  lemma HandedMerged(g: Graph, m: Graph, h: Graph, list: seq<nat>, comp: set<nat>, ident: nat)
    requires HandedUpTo(g, m, list, |list|, comp, ident) && (forall b :: b in comp <==> b in list)
    requires Paired(m) && Paired(h) && |h.ins| == |h.outs| == |m.ins| == |m.outs| == |g.ins| == |g.outs|
    requires ident < |m.ins| && EdgesMerged(m, h, ident)
    ensures LabelsTaken(g, h, list, ident)
  {
    hide Only, Merged, Paired, FlagsInto, InLabels, OutLabels;
    assert list[..|list|] == list;
    LabelsFlip(m, ident);
    forall p: nat | p < |g.outs| && p !in list && p != ident
      ensures Only(InLabels(h, ident), p) == Merged(Echo(p, FlagsInto(g.outs[p], list)))
      ensures Only(OutLabels(h, ident), p) == Merged(Echo(p, FlagsInto(g.ins[p], list)))
    {
      assert p !in comp + {ident};
      assert Handed(g.outs[p], m.outs[p], InLabels(m, ident), p, ident, list);
      assert Handed(g.ins[p], m.ins[p], OutLabels(m, ident), p, ident, list);
    }
  }
}
