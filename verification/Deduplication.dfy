/** FlowBlock::dedup: parallel edges of a block become one. */
module Deduplication {

  import opened Flow
  import opened Quotient

  // ---------- both halves of the edges of one block ----------

  /** An edge as its two halves see it: the block at the other end, the label of the half in the row and the label of
      the half at that block. */
  datatype Labels = Labels(end: nat, here: set<EdgeFlag>, there: set<EdgeFlag>)

  ghost function InLabel(g: Graph, b: nat, i: nat): Labels
    requires InSlot(g, b, i) && InPaired(g, b, i)
  {
    var e := g.ins[b][i];
    Labels(e.point, e.flags, g.outs[e.point][e.rev].flags)
  }

  ghost function OutLabel(g: Graph, b: nat, k: nat): Labels
    requires OutSlot(g, b, k) && OutPaired(g, b, k)
  {
    var e := g.outs[b][k];
    Labels(e.point, e.flags, g.ins[e.point][e.rev].flags)
  }

  ghost function InLabels(g: Graph, b: nat): seq<Labels>
    requires Paired(g) && b < |g.ins|
  {
    seq(|g.ins[b]|, i requires 0 <= i < |g.ins[b]| => InLabel(g, b, i))
  }

  ghost function OutLabels(g: Graph, b: nat): seq<Labels>
    requires Paired(g) && b < |g.outs|
  {
    seq(|g.outs[b]|, k requires 0 <= k < |g.outs[b]| => OutLabel(g, b, k))
  }

  lemma LabelsFlip(g: Graph, b: nat)
    requires Paired(g) && b < |g.ins| && b < |g.outs|
    ensures Paired(Flip(g)) && InLabels(Flip(g), b) == OutLabels(g, b) && OutLabels(Flip(g), b) == InLabels(g, b)
  {
    PairedFlip(g);
  }

  /** The edges to p, in order. */
  ghost function Only(s: seq<Labels>, p: nat): seq<Labels> {
    if s == [] then [] else Only(s[..|s| - 1], p) + if s[|s| - 1].end == p then [s[|s| - 1]] else []
  }

  lemma {:induction false} OnlyAppend(a: seq<Labels>, b: seq<Labels>, p: nat)
    ensures Only(a + b, p) == Only(a, p) + Only(b, p)
  {
    if b == [] {
      assert a + b == a;
    } else {
      var c := b[..|b| - 1];
      assert (a + b)[..|a + b| - 1] == a + c;
      OnlyAppend(a, c, p);
    }
  }

  lemma OnlyCons(x: Labels, c: seq<Labels>, p: nat)
    ensures Only([x] + c, p) == (if x.end == p then [x] else []) + Only(c, p)
  {
    OnlyAppend([x], c, p);
    assert [x][..0] == [];
  }

  lemma {:induction false} OnlyNone(s: seq<Labels>, p: nat)
    requires forall i :: 0 <= i < |s| ==> s[i].end != p
    ensures Only(s, p) == []
  {
    if s != [] { OnlyNone(s[..|s| - 1], p); }
  }

  lemma {:induction false} OnlyOne(s: seq<Labels>, p: nat)
    requires forall i, j :: 0 <= i < j < |s| ==> !(s[i].end == p && s[j].end == p)
    ensures |Only(s, p)| <= 1
  {
    if s != [] {
      if s[|s| - 1].end == p { OnlyNone(s[..|s| - 1], p); } else { OnlyOne(s[..|s| - 1], p); }
    }
  }

  /** The two rows have the same edges, labels on both halves included, to every block that is not one of ends. */
  ghost predicate SameExcept(s: seq<Labels>, t: seq<Labels>, ends: set<nat>) {
    forall q: nat :: q !in ends ==> Only(s, q) == Only(t, q)
  }

  lemma SameExceptTransitive(s: seq<Labels>, t: seq<Labels>, u: seq<Labels>, ends: set<nat>, more: set<nat>)
    requires SameExcept(s, t, ends) && SameExcept(t, u, more) && more <= ends
    ensures SameExcept(s, u, ends)
  {
    hide Only;
  }

  // ---------- what merging parallel edges does to them ----------

  /** All labels on the halves in the row. */
  ghost function AllHere(h: seq<Labels>): set<EdgeFlag> {
    if h == [] then {} else AllHere(h[..|h| - 1]) + h[|h| - 1].here
  }

  lemma {:induction false} AllHereAppend(a: seq<Labels>, b: seq<Labels>)
    ensures AllHere(a + b) == AllHere(a) + AllHere(b)
  {
    if b == [] {
      assert a + b == a;
    } else {
      var c := b[..|b| - 1];
      assert (a + b)[..|a + b| - 1] == a + c;
      AllHereAppend(a, c);
    }
  }

  /** The parallel edges h as one: its half in the row has every label, its other half is that of the first edge. */
  ghost function Merged(h: seq<Labels>): seq<Labels> {
    if h == [] then [] else [h[0].(here := AllHere(h))]
  }

  lemma AllHereOne(x: Labels)
    ensures AllHere([x]) == x.here
  {
    assert [x][..0] == [];
  }

  lemma MergedOne(h: seq<Labels>)
    requires |h| <= 1
    ensures Merged(h) == h
  {
    if |h| == 1 { AllHereOne(h[0]); }
  }

  /** The two halves of every edge have the same label. */
  ghost predicate Agree(h: seq<Labels>) {
    forall k :: 0 <= k < |h| ==> h[k].here == h[k].there
  }

  /** No edge has a label the first one lacks. */
  ghost predicate FirstHasAll(h: seq<Labels>) {
    forall k :: 0 <= k < |h| ==> h[k].here <= h[0].here
  }

  lemma {:induction false} AllHereWithin(h: seq<Labels>, f: set<EdgeFlag>)
    ensures AllHere(h) <= f <==> forall k :: 0 <= k < |h| ==> h[k].here <= f
  {
    if h != [] { AllHereWithin(h[..|h| - 1], f); }
  }

  /** Halves that match before the parallel edges are merged match afterwards exactly when the first edge has the labels
      of all the others. */
  lemma MergedAgree(h: seq<Labels>)
    requires Agree(h)
    ensures Agree(Merged(h)) <==> FirstHasAll(h)
  {
    if h != [] {
      AllHereWithin(h, h[0].here);
      AllHereWithin(h, AllHere(h));
      assert h[0].here <= AllHere(h);
    }
  }

  /** If the halves of the edges to p match in s, then in t they match exactly when no edge of s to p has a label the
      first one lacks. */
  ghost predicate AgreeWhenFirstHasAll(s: seq<Labels>, t: seq<Labels>, p: nat) {
    Agree(Only(s, p)) ==> (Agree(Only(t, p)) <==> FirstHasAll(Only(s, p)))
  }

  /** The second of two parallel edges becomes part of the first. */
  lemma MergedStep(x: Labels, y: Labels, c: seq<Labels>)
    ensures Merged([x] + [y] + c) == Merged([x.(here := x.here + y.here)] + c)
  {
    var z := x.(here := x.here + y.here);
    AllHereAppend([x] + [y], c);
    AllHereAppend([x], [y]);
    AllHereAppend([z], c);
    AllHereOne(x);
    AllHereOne(y);
    AllHereOne(z);
    assert ([x] + [y] + c)[0] == x && ([z] + c)[0] == z;
  }

  lemma OnlyParts(a: seq<Labels>, x: Labels, m: seq<Labels>, c: seq<Labels>, q: nat)
    ensures Only(a + ([x] + (m + c)), q) == Only(a, q) + (if x.end == q then [x] else []) + Only(m, q) + Only(c, q)
  {
    OnlyAppend(a, [x] + (m + c), q);
    OnlyCons(x, m + c, q);
    OnlyAppend(m, c, q);
  }

  /** A row in which the second edge to p, y, becomes part of the first one, x. */
  lemma PartsMerge(a: seq<Labels>, x: Labels, m: seq<Labels>, y: Labels, c: seq<Labels>, p: nat)
    requires x.end == y.end == p && (forall j :: 0 <= j < |a| ==> a[j].end != p)
    requires forall j :: 0 <= j < |m| ==> m[j].end != p
    ensures var s, t := a + ([x] + (m + ([y] + c))), a + ([x.(here := x.here + y.here)] + (m + c));
      Merged(Only(s, p)) == Merged(Only(t, p)) && SameExcept(s, t, {p})
  {
    var z := x.(here := x.here + y.here);
    var s, t := a + ([x] + (m + ([y] + c))), a + ([z] + (m + c));
    hide Only, Merged;
    forall q: nat
      ensures Only(s, q) == Only(a, q) + (if q == p then [x] else []) + Only(m, q) +
                            ((if q == p then [y] else []) + Only(c, q))
      ensures Only(t, q) == Only(a, q) + (if q == p then [z] else []) + Only(m, q) + Only(c, q)
    {
      OnlyParts(a, x, m, [y] + c, q);
      OnlyCons(y, c, q);
      OnlyParts(a, z, m, c, q);
    }
    OnlyNone(a, p);
    OnlyNone(m, p);
    assert Only(s, p) == [x] + [y] + Only(c, p);
    assert Only(t, p) == [z] + Only(c, p);
    MergedStep(x, y, Only(c, p));
    forall q: nat | q != p ensures Only(s, q) == Only(t, q) {
      assert [] + Only(c, q) == Only(c, q);
    }
  }

  lemma RowMerge(s: seq<Labels>, keep: nat, i: nat, p: nat)
    requires keep < i < |s| && s[keep].end == s[i].end == p
    requires forall j :: 0 <= j < i && j != keep ==> s[j].end != p
    ensures var t := RemoveAt(s[keep := s[keep].(here := s[keep].here + s[i].here)], i);
      Merged(Only(s, p)) == Merged(Only(t, p)) && SameExcept(s, t, {p})
  {
    var z := s[keep].(here := s[keep].here + s[i].here);
    var a, m, c := s[..keep], s[keep + 1..i], s[i + 1..];
    assert s == a + ([s[keep]] + (m + ([s[i]] + c)));
    assert RemoveAt(s[keep := z], i) == a + ([z] + (m + c));
    PartsMerge(a, s[keep], m, s[i], c, p);
  }

  /** Leaving out an edge to p. */
  lemma RowCut(s: seq<Labels>, i: nat, p: nat)
    requires i < |s| && s[i].end == p
    ensures SameExcept(s, RemoveAt(s, i), {p})
  {
    var a, c := s[..i], s[i + 1..];
    assert s == a + ([s[i]] + c);
    forall q: nat | q != p ensures Only(s, q) == Only(a + c, q) {
      OnlyAppend(a, [s[i]] + c, q);
      OnlyCons(s[i], c, q);
      OnlyAppend(a, c, q);
    }
  }

  /** Rows that differ at edges to p only. */
  lemma {:induction false} RowRelabel(s: seq<Labels>, t: seq<Labels>, p: nat)
    requires |s| == |t| && forall i :: 0 <= i < |s| ==> s[i] == t[i] || s[i].end == t[i].end == p
    ensures SameExcept(s, t, {p})
  {
    if s != [] { RowRelabel(s[..|s| - 1], t[..|t| - 1], p); }
  }

  // ---------- one duplicate ----------

  /** The label of in-slot i of b is added to that of in-slot keep. The other halves are not told. */
  ghost function Absorb(g: Graph, b: nat, keep: nat, i: nat): Graph
    requires InSlot(g, b, keep) && InSlot(g, b, i)
  {
    Graph(g.ins[b := g.ins[b][keep := g.ins[b][keep].(flags := g.ins[b][keep].flags + g.ins[b][i].flags)]], g.outs)
  }

  lemma AbsorbPaired(g: Graph, b: nat, keep: nat, i: nat)
    requires Paired(g) && InSlot(g, b, keep) && InSlot(g, b, i)
    ensures Paired(Absorb(g, b, keep, i))
  {
    var h := Absorb(g, b, keep, i);
    forall y: nat, j: nat | InSlot(h, y, j) ensures InPaired(h, y, j) {
      assert InPaired(g, y, j);
    }
    forall y: nat, k: nat | OutSlot(h, y, k) ensures OutPaired(h, y, k) {
      assert OutPaired(g, y, k);
    }
  }

  lemma AbsorbKeeps(g: Graph, b: nat, keep: nat, i: nat)
    requires Paired(g) && InSlot(g, b, keep) && InSlot(g, b, i)
    ensures SameNeighbours(g, Absorb(g, b, keep, i), b)
  {
    var row, row' := g.ins[b], Absorb(g, b, keep, i).ins[b];
    forall p ensures Leads(row', p) <==> Leads(row, p) {
      if Leads(row, p) {
        var j :| 0 <= j < |row| && row[j].point == p;
        assert row'[j].point == p;
      }
    }
  }

  /** The in-edges of b with one label more, and the out-edges of b, which feel it only if the edge is a self-loop. */
  lemma AbsorbLabels(g: Graph, b: nat, keep: nat, i: nat)
    requires Paired(g) && InSlot(g, b, keep) && InSlot(g, b, i)
    ensures var m, s, p := Absorb(g, b, keep, i), InLabels(g, b), g.ins[b][keep].point;
      && Paired(m) && InLabels(m, b) == s[keep := s[keep].(here := s[keep].here + s[i].here)]
      && |OutLabels(m, b)| == |OutLabels(g, b)|
      && forall k :: 0 <= k < |OutLabels(g, b)| ==>
         OutLabels(m, b)[k] == OutLabels(g, b)[k] || OutLabels(m, b)[k].end == OutLabels(g, b)[k].end == p == b
  {
    AbsorbPaired(g, b, keep, i);
    var m := Absorb(g, b, keep, i);
    assert InPaired(g, b, keep) && InPaired(g, b, i);
    forall j: nat | j < |g.ins[b]| ensures InPaired(g, b, j) && InPaired(m, b, j) {
      assert InSlot(g, b, j) && InSlot(m, b, j);
    }
    forall k: nat | k < |g.outs[b]|
      ensures OutPaired(g, b, k) && OutPaired(m, b, k)
      ensures OutLabel(m, b, k) == OutLabel(g, b, k) ||
              OutLabel(m, b, k).end == OutLabel(g, b, k).end == g.ins[b][keep].point == b
    {
      assert OutSlot(g, b, k) && OutSlot(m, b, k);
    }
  }

  lemma RemoveSizes(m: Graph, b: nat, i: nat)
    requires Paired(m) && InSlot(m, b, i) && InPaired(m, b, i)
    ensures var h, p := RemoveIn(m, b, i), m.ins[b][i].point;
      && Paired(h) && |h.ins| == |h.outs| == |m.ins| == |m.outs| && |h.ins[b]| == |m.ins[b]| - 1
      && forall y: nat :: y < |m.outs| ==> |h.outs[y]| == if y == p then |m.outs[y]| - 1 else |m.outs[y]|
  {
    RemoveInAt(m, b, i);
    PairedRemoveIn(m, b, i);
  }

  /** Taking an edge away takes its entry out of the row of its target. */
  lemma RemoveInRow(m: Graph, b: nat, i: nat)
    requires Paired(m) && InSlot(m, b, i)
    ensures InPaired(m, b, i)
    ensures var h := RemoveIn(m, b, i);
      Paired(h) && b < |h.ins| && InLabels(h, b) == RemoveAt(InLabels(m, b), i)
  {
    assert InPaired(m, b, i);
    var h, e := RemoveIn(m, b, i), m.ins[b][i];
    RemoveSizes(m, b, i);
    hide RemoveIn;
    forall j: nat | j < |h.ins[b]|
      ensures InPaired(h, b, j) && InPaired(m, b, Before(j, i, true))
      ensures InLabel(h, b, j) == InLabel(m, b, Before(j, i, true))
    {
      RemoveInOne(m, b, i, b, j);
    }
  }

  lemma RemoveInOne(m: Graph, b: nat, i: nat, y: nat, j: nat)
    requires Paired(m) && InSlot(m, b, i) && InPaired(m, b, i) && Paired(RemoveIn(m, b, i))
    requires InSlot(RemoveIn(m, b, i), y, j)
    ensures InPaired(RemoveIn(m, b, i), y, j)
    ensures InSlot(m, y, Before(j, i, y == b)) && InPaired(m, y, Before(j, i, y == b))
    ensures InLabel(RemoveIn(m, b, i), y, j) == InLabel(m, y, Before(j, i, y == b))
  {
    hide RemoveIn;
    RemoveInAt(m, b, i);
    var h, e := RemoveIn(m, b, i), m.ins[b][i];
    assert InSlot(m, y, Before(j, i, y == b));
    assert InPaired(h, y, j) && InPaired(m, y, Before(j, i, y == b));
    var f := m.ins[y][Before(j, i, y == b)];
    assert Before(h.ins[y][j].rev, e.rev, f.point == e.point) == f.rev;
  }

  /** And out of the row of its source. */
  lemma RemoveOutRow(m: Graph, b: nat, i: nat, y: nat)
    requires Paired(m) && InSlot(m, b, i) && y < |m.outs|
    ensures InPaired(m, b, i)
    ensures var h, e := RemoveIn(m, b, i), m.ins[b][i];
      && Paired(h) && y < |h.outs|
      && OutLabels(h, y) == if e.point == y then RemoveAt(OutLabels(m, y), e.rev) else OutLabels(m, y)
  {
    assert InPaired(m, b, i);
    var h, e := RemoveIn(m, b, i), m.ins[b][i];
    RemoveSizes(m, b, i);
    hide RemoveIn;
    forall k: nat | k < |h.outs[y]|
      ensures OutPaired(h, y, k) && OutSlot(m, y, Before(k, e.rev, y == e.point))
      ensures OutPaired(m, y, Before(k, e.rev, y == e.point))
      ensures OutLabel(h, y, k) == OutLabel(m, y, Before(k, e.rev, y == e.point))
    {
      RemoveOutOne(m, b, i, y, k);
    }
  }

  lemma RemoveOutOne(m: Graph, b: nat, i: nat, y: nat, k: nat)
    requires Paired(m) && InSlot(m, b, i) && InPaired(m, b, i) && Paired(RemoveIn(m, b, i))
    requires OutSlot(RemoveIn(m, b, i), y, k)
    ensures OutPaired(RemoveIn(m, b, i), y, k)
    ensures var e := m.ins[b][i];
      && OutSlot(m, y, Before(k, e.rev, y == e.point)) && OutPaired(m, y, Before(k, e.rev, y == e.point))
      && OutLabel(RemoveIn(m, b, i), y, k) == OutLabel(m, y, Before(k, e.rev, y == e.point))
  {
    hide RemoveIn;
    RemoveInAt(m, b, i);
    var h, e := RemoveIn(m, b, i), m.ins[b][i];
    assert OutSlot(m, y, Before(k, e.rev, y == e.point));
    assert OutPaired(h, y, k) && OutPaired(m, y, Before(k, e.rev, y == e.point));
    var f := m.outs[y][Before(k, e.rev, y == e.point)];
    assert Before(h.outs[y][k].rev, i, f.point == b) == f.rev;
  }

  /** The self-loops of b are in both of its rows. */
  ghost function Loops(b: nat, p: nat): set<nat> {
    if p == b then {b} else {}
  }

  /** One in-edge from p is merged into another: the merged row is the same, and all other edges are as before. */
  ghost predicate OneMerged(g: Graph, h: Graph, b: nat, p: nat)
    requires Paired(g) && Paired(h) && b < |g.ins| && b < |g.outs| && b < |h.ins| && b < |h.outs|
  {
    && Merged(Only(InLabels(h, b), p)) == Merged(Only(InLabels(g, b), p))
    && SameExcept(InLabels(g, b), InLabels(h, b), {p})
    && SameExcept(OutLabels(g, b), OutLabels(h, b), Loops(b, p))
  }

  lemma OneMergedReflexive(g: Graph, b: nat, p: nat)
    requires Paired(g) && b < |g.ins| && b < |g.outs|
    ensures OneMerged(g, g, b, p)
  {
  }

  lemma OneMergedTransitive(g: Graph, h: Graph, k: Graph, b: nat, p: nat)
    requires Paired(g) && Paired(h) && Paired(k) && b < |g.ins| && b < |g.outs| && b < |h.ins| && b < |h.outs|
    requires b < |k.ins| && b < |k.outs| && OneMerged(g, h, b, p) && OneMerged(h, k, b, p)
    ensures OneMerged(g, k, b, p)
  {
    hide Only, Merged, InLabels, OutLabels, Paired;
  }

  lemma MergeLabels(g: Graph, b: nat, keep: nat, i: nat)
    requires Paired(g) && InSlot(g, b, keep) && InSlot(g, b, i) && keep < i
    requires g.ins[b][keep].point == g.ins[b][i].point
    requires forall j :: 0 <= j < i && j != keep ==> g.ins[b][j].point != g.ins[b][keep].point
    ensures var m := Absorb(g, b, keep, i);
      && Paired(m) && InSlot(m, b, i) && InPaired(m, b, i) && Paired(RemoveIn(m, b, i))
      && |RemoveIn(m, b, i).ins| == |RemoveIn(m, b, i).outs| == |g.ins| == |g.outs|
      && OneMerged(g, RemoveIn(m, b, i), b, g.ins[b][keep].point)
  {
    var m, p := Absorb(g, b, keep, i), g.ins[b][keep].point;
    AbsorbLabels(g, b, keep, i);
    assert InPaired(g, b, i);
    RemoveInRow(m, b, i);
    RemoveOutRow(m, b, i, b);
    RemoveInAt(m, b, i);
    var h := RemoveIn(m, b, i);
    hide RemoveIn;
    RowMerge(InLabels(g, b), keep, i, p);
    RowRelabel(OutLabels(g, b), OutLabels(m, b), b);
    if p == b {
      assert OutLabels(m, b)[m.ins[b][i].rev].end == b;
      RowCut(OutLabels(m, b), m.ins[b][i].rev, b);
    } else {
      assert OutLabels(h, b) == OutLabels(g, b);
    }
  }

  /** One duplicate is merged into the edge that is kept. */
  lemma MergeDuplicate(g: Graph, b: nat, keep: nat, i: nat)
    requires Paired(g) && InSlot(g, b, keep) && InSlot(g, b, i) && keep < i && g.ins[b][keep].point == g.ins[b][i].point
    requires forall j :: 0 <= j < i && j != keep ==> g.ins[b][j].point != g.ins[b][keep].point
    ensures var m := Absorb(g, b, keep, i);
      && Paired(m) && InSlot(m, b, i) && InPaired(m, b, i)
      && var h := RemoveIn(m, b, i);
         Paired(h) && SameNeighbours(g, h, b) && |h.ins[b]| == |g.ins[b]| - 1 &&
             OneMerged(g, h, b, g.ins[b][i].point) &&
         (forall j :: 0 <= j < i ==> h.ins[b][j].point == g.ins[b][j].point)
  {
    var m := Absorb(g, b, keep, i);
    AbsorbPaired(g, b, keep, i);
    AbsorbKeeps(g, b, keep, i);
    assert InPaired(m, b, i);
    DropDuplicate(m, b, i, keep);
    RemoveCuts(m, b, i);
    MergeLabels(g, b, keep, i);
    SameNeighboursTransitive(g, m, RemoveIn(m, b, i), b);
  }

  lemma SameNeighboursReflexive(g: Graph, b: nat)
    requires |g.ins| == |g.outs| && b < |g.ins|
    ensures SameNeighbours(g, g, b)
  {
  }

  lemma StillOnce(g: Graph, h: Graph, b: nat)
    requires SameNeighbours(g, h, b)
    ensures forall p: nat :: AtMostOnce(g.ins[b], p) ==> AtMostOnce(h.ins[b], p)
    ensures forall p: nat :: AtMostOnce(g.outs[b], p) ==> AtMostOnce(h.outs[b], p)
    ensures |h.ins| == |g.ins| == |h.outs| == |g.outs|
  {
  }

  lemma PairedSizes(g: Graph)
    requires Paired(g)
    ensures |g.ins| == |g.outs|
  {
  }

  /** The merged row of an in-list that has at most one edge from p is the row itself. */
  lemma MergedRow(g: Graph, b: nat, p: nat)
    requires Paired(g) && b < |g.ins| && AtMostOnce(g.ins[b], p)
    ensures Merged(Only(InLabels(g, b), p)) == Only(InLabels(g, b), p)
  {
    OnlyOne(InLabels(g, b), p);
    MergedOne(Only(InLabels(g, b), p));
  }

  /** When one edge from p is left. */
  lemma RowsMerged(g: Graph, h: Graph, b: nat, p: nat)
    requires Paired(g) && Paired(h) && b < |g.ins| && b < |g.outs| && b < |h.ins| && b < |h.outs|
    requires OneMerged(g, h, b, p) && AtMostOnce(h.ins[b], p)
    ensures Only(InLabels(h, b), p) == Merged(Only(InLabels(g, b), p)) &&
              SameExcept(InLabels(g, b), InLabels(h, b), {p})
    ensures SameExcept(OutLabels(g, b), OutLabels(h, b), Loops(b, p))
    ensures AgreeWhenFirstHasAll(InLabels(g, b), InLabels(h, b), p)
  {
    MergedRow(h, b, p);
    hide Paired, InLabels, OutLabels, Only, Merged, Agree, FirstHasAll, SameExcept;
    if Agree(Only(InLabels(g, b), p)) { MergedAgree(Only(InLabels(g, b), p)); }
  }

  /** In the first i entries of the row the only edge to p is the one at slot keep, if keep is not -1. */
  ghost predicate Scanned(row: seq<Edge>, p: nat, keep: int, i: nat) {
    && i <= |row| && -1 <= keep < i && (keep >= 0 ==> row[keep].point == p)
    && forall j :: 0 <= j < i && j != keep ==> row[j].point != p
  }

  lemma ScannedOne(row: seq<Edge>, p: nat, keep: int, i: nat)
    requires Scanned(row, p, keep, i) && i < |row|
    ensures row[i].point != p ==> Scanned(row, p, keep, i + 1)
    ensures row[i].point == p && keep == -1 ==> Scanned(row, p, i, i + 1)
  {
  }

  lemma ScannedAll(row: seq<Edge>, p: nat, keep: int)
    requires Scanned(row, p, keep, |row|)
    ensures AtMostOnce(row, p)
  {
  }

  /** One turn of the loop: the in-edge at slot i becomes part of the one at slot keep. */
  method AbsorbInEdge(g: BlockGraph, b: nat, keep: nat, i: nat)
    requires Paired(g.G()) && b < |g.ins| && i < |g.ins[b]| && b < |g.outs|
    requires Scanned(g.ins[b], g.ins[b][i].point, keep, i)
    modifies g`ins, g`outs
    ensures Paired(g.G()) && SameNeighbours(old(g.G()), g.G(), b) && b < |g.ins| == |g.outs|
    ensures OneMerged(old(g.G()), g.G(), b, old(g.ins[b][i].point)) && |g.ins[b]| == old(|g.ins[b]|) - 1
    ensures Scanned(g.ins[b], old(g.ins[b][i].point), keep, i)
  {
    MergeDuplicate(g.G(), b, keep, i);
    g.ins := g.ins[b := g.ins[b][keep := g.ins[b][keep].(flags := g.ins[b][keep].flags + g.ins[b][i].flags)]];
    g.RemoveInEdge(b, i);
    PairedSizes(g.G());
  }

  /** The in-edges from bl become one. Its half in the list has the labels of all of them, its other half only those of
      the first edge: halves that match before match afterwards exactly when no edge had a label the first one lacks. */
  method EliminateInDups(g: BlockGraph, b: nat, bl: nat)
    requires Paired(g.G()) && b < |g.ins|
    modifies g`ins, g`outs
    ensures Paired(g.G()) && SameNeighbours(old(g.G()), g.G(), b) && AtMostOnce(g.ins[b], bl)
    ensures Only(InLabels(g.G(), b), bl) == Merged(Only(InLabels(old(g.G()), b), bl))
    ensures SameExcept(InLabels(old(g.G()), b), InLabels(g.G(), b), {bl})
    ensures SameExcept(OutLabels(old(g.G()), b), OutLabels(g.G(), b), Loops(b, bl))
    ensures AgreeWhenFirstHasAll(InLabels(old(g.G()), b), InLabels(g.G(), b), bl)
  {
    ghost var g0 := g.G();
    PairedSizes(g0);
    SameNeighboursReflexive(g0, b);
    OneMergedReflexive(g0, b, bl);
    assert Scanned(g.ins[b], bl, -1, 0);
    hide SameNeighbours, Paired, InLabels, OutLabels, Merged, Only, AgreeWhenFirstHasAll, OneMerged, SameExcept,
      Scanned, AtMostOnce, Loops;
    var indval := -1;
    var i := 0;
    while i < |g.ins[b]|
      invariant b < |g.ins| == |g.outs| && 0 <= i <= |g.ins[b]| && Paired(g.G()) && SameNeighbours(g0, g.G(), b) &&
                  OneMerged(g0, g.G(), b, bl)
      invariant -1 <= indval && Scanned(g.ins[b], bl, indval, i)
      decreases |g.ins[b]| - i
    {
      ScannedOne(g.ins[b], bl, indval, i);
      if g.ins[b][i].point == bl {
        if indval == -1 {
          indval := i;
          i := i + 1;
        } else {
          ghost var h := g.G();
          AbsorbInEdge(g, b, indval, i);
          SameNeighboursTransitive(g0, h, g.G(), b);
          OneMergedTransitive(g0, h, g.G(), b, bl);
        }
      } else {
        i := i + 1;
      }
    }
    ScannedAll(g.ins[b], bl, indval);
    RowsMerged(g0, g.G(), b, bl);
  }

  /** The same from the other side. */
  lemma MergeOutDuplicate(g: Graph, b: nat, keep: nat, i: nat)
    requires Paired(g) && OutSlot(g, b, keep) && OutSlot(g, b, i) && keep < i &&
               g.outs[b][keep].point == g.outs[b][i].point
    requires forall j :: 0 <= j < i && j != keep ==> g.outs[b][j].point != g.outs[b][keep].point
    ensures Paired(Flip(g))
    ensures var m := Flip(Absorb(Flip(g), b, keep, i));
      && Paired(m) && OutSlot(m, b, i) && OutPaired(m, b, i)
      && var h := RemoveOut(m, b, i);
         Paired(Flip(h)) && SameNeighbours(g, h, b) && |h.outs[b]| == |g.outs[b]| - 1 &&
         OneMerged(Flip(g), Flip(h), b, g.outs[b][i].point) &&
         (forall j :: 0 <= j < i ==> h.outs[b][j].point == g.outs[b][j].point)
  {
    PairedFlip(g);
    MergeDuplicate(Flip(g), b, keep, i);
    var m := Absorb(Flip(g), b, keep, i);
    PairedFlip(m);
    assert InPaired(m, b, i);
    assert OutPaired(Flip(m), b, i);
    assert RemoveOut(Flip(m), b, i) == Flip(RemoveIn(m, b, i)) by { RemoveFlips(m, b, i); }
    SameNeighboursFlip(Flip(g), RemoveIn(m, b, i), b);
  }

  lemma RemoveFlips(m: Graph, b: nat, i: nat)
    requires Paired(m) && InSlot(m, b, i)
    ensures OutPaired(Flip(m), b, i) && RemoveOut(Flip(m), b, i) == Flip(RemoveIn(m, b, i))
  {
    assert InPaired(m, b, i);
  }

  method AbsorbOutEdge(g: BlockGraph, b: nat, keep: nat, i: nat)
    requires Paired(g.G()) && Paired(Flip(g.G())) && b < |g.ins| && b < |g.outs| && i < |g.outs[b]|
    requires Scanned(g.outs[b], g.outs[b][i].point, keep, i)
    modifies g`ins, g`outs
    ensures Paired(g.G()) && Paired(Flip(g.G())) && SameNeighbours(old(g.G()), g.G(), b) && b < |g.ins| == |g.outs|
    ensures OneMerged(Flip(old(g.G())), Flip(g.G()), b, old(g.outs[b][i].point)) &&
              |g.outs[b]| == old(|g.outs[b]|) - 1
    ensures Scanned(g.outs[b], old(g.outs[b][i].point), keep, i)
  {
    MergeOutDuplicate(g.G(), b, keep, i);
    g.outs := g.outs[b := g.outs[b][keep := g.outs[b][keep].(flags := g.outs[b][keep].flags + g.outs[b][i].flags)]];
    g.RemoveOutEdge(b, i);
    PairedSizes(g.G());
  }

  method EliminateOutDups(g: BlockGraph, b: nat, bl: nat)
    requires Paired(g.G()) && b < |g.outs|
    modifies g`ins, g`outs
    ensures Paired(g.G()) && SameNeighbours(old(g.G()), g.G(), b) && AtMostOnce(g.outs[b], bl)
    ensures Only(OutLabels(g.G(), b), bl) == Merged(Only(OutLabels(old(g.G()), b), bl))
    ensures SameExcept(OutLabels(old(g.G()), b), OutLabels(g.G(), b), {bl})
    ensures SameExcept(InLabels(old(g.G()), b), InLabels(g.G(), b), Loops(b, bl))
    ensures AgreeWhenFirstHasAll(OutLabels(old(g.G()), b), OutLabels(g.G(), b), bl)
  {
    ghost var g0 := g.G();
    PairedSizes(g0);
    LabelsFlip(g0, b);
    SameNeighboursReflexive(g0, b);
    OneMergedReflexive(Flip(g0), b, bl);
    assert Scanned(g.outs[b], bl, -1, 0);
    hide SameNeighbours, Paired, InLabels, OutLabels, Merged, Only, AgreeWhenFirstHasAll, OneMerged, SameExcept,
      Scanned, AtMostOnce, Loops;
    var indval := -1;
    var i := 0;
    while i < |g.outs[b]|
      invariant b < |g.ins| == |g.outs| && 0 <= i <= |g.outs[b]| && Paired(g.G()) && Paired(Flip(g.G())) &&
                  SameNeighbours(g0, g.G(), b) && OneMerged(Flip(g0), Flip(g.G()), b, bl)
      invariant -1 <= indval && Scanned(g.outs[b], bl, indval, i)
      decreases |g.outs[b]| - i
    {
      ScannedOne(g.outs[b], bl, indval, i);
      if g.outs[b][i].point == bl {
        if indval == -1 {
          indval := i;
          i := i + 1;
        } else {
          ghost var h := g.G();
          AbsorbOutEdge(g, b, indval, i);
          SameNeighboursTransitive(g0, h, g.G(), b);
          OneMergedTransitive(Flip(g0), Flip(h), Flip(g.G()), b, bl);
        }
      } else {
        i := i + 1;
      }
    }
    LabelsFlip(g.G(), b);
    ScannedAll(g.outs[b], bl, indval);
    RowsMerged(Flip(g0), Flip(g.G()), b, bl);
  }

  /** The blocks at the end of more than one edge, in the order in which the second edge comes. */
  method FindDups(g: BlockGraph, row: seq<Edge>) returns (duplist: seq<nat>)
    requires forall i :: 0 <= i < |row| ==>
               row[i].point < |g.mark| && row[i].point < |g.mark2| && !g.mark[row[i].point] && !g.mark2[row[i].point]
    modifies g`mark, g`mark2
    ensures g.mark == old(g.mark) && g.mark2 == old(g.mark2)
    ensures forall p: nat :: p in duplist <==> !AtMostOnce(row, p)
    ensures forall i, j :: 0 <= i < j < |duplist| ==> duplist[i] != duplist[j]
  {
    duplist := [];
    var i := 0;
    while i < |row|
      invariant 0 <= i <= |row| && |g.mark| == |old(g.mark)| && |g.mark2| == |old(g.mark2)|
      invariant forall p: nat :: p in duplist <==> !AtMostOnce(row[..i], p)
      invariant forall a, b :: 0 <= a < b < |duplist| ==> duplist[a] != duplist[b]
      invariant forall p :: 0 <= p < |g.mark| ==> (g.mark[p] <==> old(g.mark)[p] || Leads(row[..i], p))
      invariant forall p :: 0 <= p < |g.mark2| ==> (g.mark2[p] <==> old(g.mark2)[p] || p in duplist)
    {
      var point := row[i].point;
      OneMoreEdge(row, i);
      i := i + 1;
      if g.mark2[point] { continue; }
      if g.mark[point] {
        duplist := duplist + [point];
        g.mark2 := g.mark2[point := true];
      } else {
        g.mark := g.mark[point := true];
      }
    }
    assert row[..i] == row;
    EraseMarks(g, row, duplist, old(g.mark), old(g.mark2));
  }

  lemma OneMoreEdge(row: seq<Edge>, i: nat)
    requires i < |row|
    ensures forall p: nat :: Leads(row[..i + 1], p) <==> Leads(row[..i], p) || p == row[i].point
    ensures forall p: nat :: AtMostOnce(row[..i + 1], p) <==>
              AtMostOnce(row[..i], p) && !(p == row[i].point && Leads(row[..i], p))
  {
    var a, b := row[..i], row[..i + 1];
    assert b == a + [row[i]];
    forall p: nat ensures Leads(b, p) <==> Leads(a, p) || p == row[i].point {
      if Leads(a, p) {
        var j :| 0 <= j < |a| && a[j].point == p;
        assert b[j].point == p;
      }
      assert b[i].point == row[i].point;
    }
    forall p: nat ensures AtMostOnce(b, p) <==> AtMostOnce(a, p) && !(p == row[i].point && Leads(a, p)) {
      if AtMostOnce(b, p) {
        forall j, k | 0 <= j < k < |a| ensures !(a[j].point == p && a[k].point == p) {
          assert b[j] == a[j] && b[k] == a[k];
        }
        if Leads(a, p) {
          var j :| 0 <= j < |a| && a[j].point == p;
          assert b[j].point == p;
        }
      }
    }
  }

  method EraseMarks(g: BlockGraph, row: seq<Edge>, ghost duplist: seq<nat>, ghost mark: seq<bool>,
                    ghost mark2: seq<bool>)
    requires |mark| == |g.mark| && |mark2| == |g.mark2|
    requires forall i :: 0 <= i < |row| ==>
               row[i].point < |mark| && row[i].point < |mark2| && !mark[row[i].point] && !mark2[row[i].point]
    requires forall p :: 0 <= p < |mark| && !Leads(row, p) ==> g.mark[p] == mark[p]
    requires forall p :: 0 <= p < |mark2| && !Leads(row, p) ==> g.mark2[p] == mark2[p]
    modifies g`mark, g`mark2
    ensures g.mark == mark && g.mark2 == mark2
  {
    var i := 0;
    while i < |row|
      invariant 0 <= i <= |row| && |g.mark| == |mark| && |g.mark2| == |mark2|
      invariant forall p :: 0 <= p < |mark| && (!Leads(row, p) || Leads(row[..i], p)) ==> g.mark[p] == mark[p]
      invariant forall p :: 0 <= p < |mark2| && (!Leads(row, p) || Leads(row[..i], p)) ==> g.mark2[p] == mark2[p]
    {
      OneMoreEdge(row, i);
      g.mark := g.mark[row[i].point := false];
      g.mark2 := g.mark2[row[i].point := false];
      i := i + 1;
    }
    assert row[..i] == row;
  }

  /** The edges to every block in done are merged and no other edge is changed. */
  ghost predicate MergedSoFar(s: seq<Labels>, t: seq<Labels>, done: seq<nat>) {
    forall p: nat :: Only(t, p) == if p in done then Merged(Only(s, p)) else Only(s, p)
  }

  lemma MergedNext(s: seq<Labels>, t: seq<Labels>, u: seq<Labels>, done: seq<nat>, i: nat)
    requires i < |done| && done[i] !in done[..i] && MergedSoFar(s, t, done[..i])
    requires Only(u, done[i]) == Merged(Only(t, done[i])) && SameExcept(t, u, {done[i]})
    ensures MergedSoFar(s, u, done[..i + 1])
  {
    hide Only, Merged;
    assert done[..i + 1] == done[..i] + [done[i]];
    forall p: nat ensures Only(u, p) == if p in done[..i + 1] then Merged(Only(s, p)) else Only(s, p) {
      assert p != done[i] ==> Only(u, p) == Only(t, p);
    }
  }

  /** Blocks that are not in dups are at the end of one edge at most. */
  ghost predicate Pending(row: seq<Edge>, dups: seq<nat>) {
    forall p: nat :: AtMostOnce(row, p) || p in dups
  }

  lemma OneFewer(row: seq<Edge>, row': seq<Edge>, dups: seq<nat>, i: nat)
    requires i < |dups| && Pending(row, dups[i..]) && AtMostOnce(row', dups[i])
    requires forall p: nat :: AtMostOnce(row, p) ==> AtMostOnce(row', p)
    ensures Pending(row', dups[i + 1..])
  {
    hide AtMostOnce;
    assert dups[i..] == [dups[i]] + dups[i + 1..];
  }

  lemma LoopsWithin(b: nat, p: nat)
    ensures Loops(b, p) <= {b} && (p != b ==> Loops(b, p) == {})
  {
  }

  lemma AllMerged(s: seq<Labels>, t: seq<Labels>, done: seq<nat>)
    requires MergedSoFar(s, t, done) && forall p: nat :: p !in done ==> Merged(Only(s, p)) == Only(s, p)
    ensures MergedExcept(s, t, {})
  {
    hide Only, Merged;
  }

  lemma NothingMerged(s: seq<Labels>, t: seq<Labels>, ends: set<nat>)
    ensures MergedSoFar(s, s, []) && SameExcept(t, t, ends)
  {
  }

  /** Only the edges from blocks in dups have parallel ones. */
  lemma SingleInEdges(g: Graph, b: nat, dups: seq<nat>)
    requires Paired(g) && b < |g.ins| && forall p: nat :: p in dups <==> !AtMostOnce(g.ins[b], p)
    ensures forall p: nat :: p !in dups ==> Merged(Only(InLabels(g, b), p)) == Only(InLabels(g, b), p)
  {
    forall p: nat | p !in dups ensures Merged(Only(InLabels(g, b), p)) == Only(InLabels(g, b), p) {
      MergedRow(g, b, p);
    }
  }

  /** The first loop of dedup: the in-edges from the blocks in duplist. */
  method EliminateInList(g: BlockGraph, b: nat, duplist: seq<nat>)
    requires Paired(g.G()) && b < |g.ins| && Pending(g.ins[b], duplist)
    requires forall i, j :: 0 <= i < j < |duplist| ==> duplist[i] != duplist[j]
    modifies g`ins, g`outs
    ensures Paired(g.G()) && SameNeighbours(old(g.G()), g.G(), b)
    ensures Pending(g.ins[b], [])
    ensures MergedSoFar(InLabels(old(g.G()), b), InLabels(g.G(), b), duplist)
    ensures SameExcept(OutLabels(old(g.G()), b), OutLabels(g.G(), b), {b})
  {
    ghost var g0 := g.G();
    PairedSizes(g0);
    SameNeighboursReflexive(g0, b);
    NothingMerged(InLabels(g0, b), OutLabels(g0, b), {b});
    hide Paired, InLabels, OutLabels, Only, Merged, AgreeWhenFirstHasAll, SameNeighbours, AtMostOnce, Pending,
      MergedSoFar, SameExcept, Loops;
    assert duplist[..0] == [] && duplist[0..] == duplist;
    var i := 0;
    while i < |duplist|
      invariant b < |g.ins| == |g.outs| && 0 <= i <= |duplist| && Paired(g.G()) && SameNeighbours(g0, g.G(), b)
      invariant Pending(g.ins[b], duplist[i..])
      invariant MergedSoFar(InLabels(g0, b), InLabels(g.G(), b), duplist[..i])
      invariant SameExcept(OutLabels(g0, b), OutLabels(g.G(), b), {b})
    {
      ghost var h := g.G();
      LoopsWithin(b, duplist[i]);
      EliminateInDups(g, b, duplist[i]);
      SameNeighboursTransitive(g0, h, g.G(), b);
      StillOnce(h, g.G(), b);
      OneFewer(h.ins[b], g.ins[b], duplist, i);
      SameExceptTransitive(OutLabels(g0, b), OutLabels(h, b), OutLabels(g.G(), b), {b}, Loops(b, duplist[i]));
      MergedNext(InLabels(g0, b), InLabels(h, b), InLabels(g.G(), b), duplist, i);
      i := i + 1;
    }
    assert duplist[..i] == duplist && duplist[i..] == [];
  }

  /** The second loop: the out-edges, none of which is parallel to a self-loop any more. */
  method EliminateOutList(g: BlockGraph, b: nat, duplist: seq<nat>)
    requires Paired(g.G()) && b < |g.outs| && b !in duplist && Pending(g.outs[b], duplist)
    requires forall i, j :: 0 <= i < j < |duplist| ==> duplist[i] != duplist[j]
    modifies g`ins, g`outs
    ensures Paired(g.G()) && SameNeighbours(old(g.G()), g.G(), b)
    ensures Pending(g.outs[b], [])
    ensures MergedSoFar(OutLabels(old(g.G()), b), OutLabels(g.G(), b), duplist)
    ensures SameExcept(InLabels(old(g.G()), b), InLabels(g.G(), b), {})
  {
    ghost var g0 := g.G();
    PairedSizes(g0);
    SameNeighboursReflexive(g0, b);
    NothingMerged(OutLabels(g0, b), InLabels(g0, b), {});
    hide Paired, InLabels, OutLabels, Only, Merged, AgreeWhenFirstHasAll, SameNeighbours, AtMostOnce, Pending,
      MergedSoFar, SameExcept, Loops;
    assert duplist[..0] == [] && duplist[0..] == duplist;
    var i := 0;
    while i < |duplist|
      invariant b < |g.ins| == |g.outs| && 0 <= i <= |duplist| && Paired(g.G()) && SameNeighbours(g0, g.G(), b)
      invariant Pending(g.outs[b], duplist[i..])
      invariant MergedSoFar(OutLabels(g0, b), OutLabels(g.G(), b), duplist[..i])
      invariant SameExcept(InLabels(g0, b), InLabels(g.G(), b), {})
    {
      ghost var h := g.G();
      LoopsWithin(b, duplist[i]);
      EliminateOutDups(g, b, duplist[i]);
      SameNeighboursTransitive(g0, h, g.G(), b);
      StillOnce(h, g.G(), b);
      OneFewer(h.outs[b], g.outs[b], duplist, i);
      SameExceptTransitive(InLabels(g0, b), InLabels(h, b), InLabels(g.G(), b), {}, {});
      MergedNext(OutLabels(g0, b), OutLabels(h, b), OutLabels(g.G(), b), duplist, i);
      i := i + 1;
    }
    assert duplist[..i] == duplist && duplist[i..] == [];
  }

  /** A self-loop is in both rows, so a block with one in-edge from itself has one out-edge to itself. */
  lemma OneLoop(g: Graph, b: nat)
    requires Paired(g) && b < |g.ins| && b < |g.outs| && AtMostOnce(g.ins[b], b)
    ensures AtMostOnce(g.outs[b], b)
  {
    forall j, k | 0 <= j < k < |g.outs[b]| ensures !(g.outs[b][j].point == b && g.outs[b][k].point == b) {
      assert OutPaired(g, b, j) && OutPaired(g, b, k);
    }
  }

  /** The parallel edges to every block that is not one of ends are merged. */
  ghost predicate MergedExcept(s: seq<Labels>, t: seq<Labels>, ends: set<nat>) {
    forall p: nat :: p !in ends ==> Only(t, p) == Merged(Only(s, p))
  }

  lemma MergedThenSame(s: seq<Labels>, t: seq<Labels>, u: seq<Labels>)
    requires MergedExcept(s, t, {}) && SameExcept(t, u, {})
    ensures MergedExcept(s, u, {})
  {
    hide Only, Merged;
  }

  lemma SameThenMerged(s: seq<Labels>, t: seq<Labels>, u: seq<Labels>, ends: set<nat>)
    requires SameExcept(s, t, ends) && MergedExcept(t, u, {})
    ensures MergedExcept(s, u, ends)
  {
    hide Only, Merged;
  }

  /** The parallel edges of every row are merged; a self-loop is merged as an in-edge. */
  ghost predicate EdgesMerged(g: Graph, h: Graph, b: nat)
    requires Paired(g) && Paired(h) && b < |g.ins| && b < |g.outs| && b < |h.ins| && b < |h.outs|
  {
    MergedExcept(InLabels(g, b), InLabels(h, b), {}) && MergedExcept(OutLabels(g, b), OutLabels(h, b), {b})
  }

  lemma EdgesMergedAgree(g: Graph, h: Graph, b: nat)
    requires Paired(g) && Paired(h) && b < |g.ins| && b < |g.outs| && b < |h.ins| && b < |h.outs| &&
               EdgesMerged(g, h, b)
    ensures forall p: nat :: AgreeWhenFirstHasAll(InLabels(g, b), InLabels(h, b), p)
    ensures forall p: nat :: p != b ==> AgreeWhenFirstHasAll(OutLabels(g, b), OutLabels(h, b), p)
  {
    hide Only, Merged, InLabels, OutLabels, Agree, FirstHasAll;
    forall p: nat ensures AgreeWhenFirstHasAll(InLabels(g, b), InLabels(h, b), p) {
      if Agree(Only(InLabels(g, b), p)) { MergedAgree(Only(InLabels(g, b), p)); }
    }
    forall p: nat | p != b ensures AgreeWhenFirstHasAll(OutLabels(g, b), OutLabels(h, b), p) {
      if Agree(Only(OutLabels(g, b), p)) { MergedAgree(Only(OutLabels(g, b), p)); }
    }
  }

  /** What the first loop, from g to m, and the second, from m to h, add up to. */
  lemma BothLoops(g: Graph, m: Graph, h: Graph, b: nat, inDups: seq<nat>, outDups: seq<nat>)
    requires Paired(g) && Paired(m) && Paired(h) && b < |g.ins| && b < |g.outs| && b < |m.ins| && b < |m.outs|
    requires b < |h.ins| && b < |h.outs|
    requires forall p: nat :: p in inDups <==> !AtMostOnce(g.ins[b], p)
    requires forall p: nat :: p in outDups <==> !AtMostOnce(m.outs[b], p)
    requires MergedSoFar(InLabels(g, b), InLabels(m, b), inDups) && SameExcept(OutLabels(g, b), OutLabels(m, b), {b})
    requires MergedSoFar(OutLabels(m, b), OutLabels(h, b), outDups) && SameExcept(InLabels(m, b), InLabels(h, b), {})
    ensures EdgesMerged(g, h, b)
  {
    SingleInEdges(g, b, inDups);
    LabelsFlip(m, b);
    SingleInEdges(Flip(m), b, outDups);
    hide Paired, InLabels, OutLabels, Only, Merged, AtMostOnce, MergedSoFar, SameExcept, MergedExcept;
    AllMerged(InLabels(g, b), InLabels(m, b), inDups);
    AllMerged(OutLabels(m, b), OutLabels(h, b), outDups);
    MergedThenSame(InLabels(g, b), InLabels(m, b), InLabels(h, b));
    SameThenMerged(OutLabels(g, b), OutLabels(m, b), OutLabels(h, b), {b});
  }

  /** Afterwards no block is at the end of two in-edges, or of two out-edges,
      and no neighbour is lost. Each edge that is
      left stands for all that were parallel to it. */
  method Dedup(g: BlockGraph, b: nat)
    requires Paired(g.G()) && b < |g.ins|
    requires forall p: nat :: Leads(g.ins[b], p) || Leads(g.outs[b], p) ==>
               p < |g.mark| && p < |g.mark2| && !g.mark[p] && !g.mark2[p]
    modifies g`ins, g`outs, g`mark, g`mark2
    ensures Paired(g.G()) && SameNeighbours(old(g.G()), g.G(), b) && g.mark == old(g.mark) && g.mark2 == old(g.mark2)
    ensures forall p: nat :: AtMostOnce(g.ins[b], p) && AtMostOnce(g.outs[b], p)
    ensures EdgesMerged(old(g.G()), g.G(), b)
    ensures forall p: nat :: AgreeWhenFirstHasAll(InLabels(old(g.G()), b), InLabels(g.G(), b), p)
    ensures forall p: nat :: p != b ==> AgreeWhenFirstHasAll(OutLabels(old(g.G()), b), OutLabels(g.G(), b), p)
  {
    ghost var g0 := g.G();
    PairedSizes(g0);
    forall i | 0 <= i < |g.ins[b]| ensures Leads(g.ins[b], g.ins[b][i].point) {}
    var duplist := FindDups(g, g.ins[b]);
    EliminateInList(g, b, duplist);
    ghost var m, inDups := g.G(), duplist;
    PairedSizes(m);
    OneLoop(m, b);
    forall k | 0 <= k < |g.outs[b]| ensures Leads(g.outs[b], g.outs[b][k].point) {}
    duplist := FindDups(g, g.outs[b]);
    EliminateOutList(g, b, duplist);
    PairedSizes(g.G());
    SameNeighboursTransitive(g0, m, g.G(), b);
    BothLoops(g0, m, g.G(), b, inDups, duplist);
    EdgesMergedAgree(g0, g.G(), b);
  }

  /** Parallel edges without a label and with a goto label: only the in-half of the edge that is left says goto. The
      same if a third edge without a label follows. */
  lemma GotoOnOneHalf()
    ensures var x, y := Labels(0, {}, {}), Labels(0, {GotoEdge}, {GotoEdge});
      Merged([x] + [y] + []) == Merged([x] + [y] + [x]) == [Labels(0, {GotoEdge}, {})]
  {
    var x, y, z := Labels(0, {}, {}), Labels(0, {GotoEdge}, {GotoEdge}), Labels(0, {GotoEdge}, {});
    assert x.here + y.here == z.here && z.here + x.here == z.here;
    MergedStep(x, y, []);
    MergedStep(x, y, [x]);
    MergedStep(z, x, []);
    assert [z] + [] == [z];
    assert [z] + [x] + [] == [z] + [x];
    MergedOne([z]);
  }

  /** Two edges from block 0 to block 1. */
  ghost function ParallelEdges(): Graph {
    Graph([[], [Edge(0, {}, 0), Edge(0, {GotoEdge}, 1)]], [[Edge(1, {}, 0), Edge(1, {GotoEdge}, 1)], []])
  }

  lemma ParallelRow()
    ensures Paired(ParallelEdges())
    ensures InLabels(ParallelEdges(), 1) == [Labels(0, {}, {}), Labels(0, {GotoEdge}, {GotoEdge})]
  {
    hide Only, Merged;
    var g := ParallelEdges();
    assert InPaired(g, 1, 0) && InPaired(g, 1, 1);
    assert OutPaired(g, 0, 0) && OutPaired(g, 0, 1);
  }

  /** The first of these at a graph. */
  lemma GotoOnOneHalfOfAnEdge()
    ensures Paired(ParallelEdges()) && Merged(Only(InLabels(ParallelEdges(), 1), 0)) == [Labels(0, {GotoEdge}, {})]
  {
    ParallelRow();
    hide Paired, InLabels, Merged;
    var x, y := Labels(0, {}, {}), Labels(0, {GotoEdge}, {GotoEdge});
    OnlyCons(x, [y], 0);
    OnlyCons(y, [], 0);
    assert [x, y] == [x] + [y] && [y] + [] == [y] && [x] + [y] + [] == [x] + [y];
    GotoOnOneHalf();
  }
}
