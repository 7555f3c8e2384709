/** Collapsing a set of blocks into one: what each edge operation leaves of the edges that lie wholly inside or wholly
    outside the set, and which outside blocks the set is joined to. */
module Quotient {

  import opened Flow

  /** A set of blocks, or everything but that set. */
  datatype Side = Side(blocks: set<nat>, within: bool)

  predicate On(p: nat, s: Side) {
    (p in s.blocks) == s.within
  }

  /** The ends and labels of the edges in a row that lead to the given side, in order. */
  ghost function Kept(row: seq<Edge>, s: Side): seq<(nat, set<EdgeFlag>)> {
    if row == [] then []
    else
      var e := row[|row| - 1];
      Kept(row[..|row| - 1], s) + if On(e.point, s) then [(e.point, e.flags)] else []
  }

  lemma {:induction false} KeptAppend(a: seq<Edge>, b: seq<Edge>, s: Side)
    ensures Kept(a + b, s) == Kept(a, s) + Kept(b, s)
  {
    if b == [] {
      assert a + b == a;
    } else {
      var c := b[..|b| - 1];
      assert (a + b)[..|a + b| - 1] == a + c;
      KeptAppend(a, c, s);
    }
  }

  /** Two rows that differ only in slots and in edges to blocks outside s. */
  lemma {:induction false} KeptSame(a: seq<Edge>, b: seq<Edge>, s: Side)
    requires |a| == |b|
    requires forall i :: 0 <= i < |a| ==>
               (a[i].point == b[i].point && a[i].flags == b[i].flags) || (!On(a[i].point, s) && !On(b[i].point, s))
    ensures Kept(a, s) == Kept(b, s)
  {
    if a != [] { KeptSame(a[..|a| - 1], b[..|b| - 1], s); }
  }

  /** Leaving out an edge to a block outside s. */
  lemma {:induction false} KeptRemove(row: seq<Edge>, i: nat, s: Side)
    requires i < |row| && !On(row[i].point, s)
    ensures Kept(RemoveAt(row, i), s) == Kept(row, s)
  {
    assert row == row[..i] + [row[i]] + row[i + 1..];
    KeptAppend(row[..i] + [row[i]], row[i + 1..], s);
    KeptAppend(row[..i], [row[i]], s);
    KeptAppend(row[..i], row[i + 1..], s);
  }

  ghost predicate Leads(row: seq<Edge>, p: nat) {
    exists i :: 0 <= i < |row| && row[i].point == p
  }

  ghost predicate AtMostOnce(row: seq<Edge>, p: nat) {
    forall i, j :: 0 <= i < j < |row| ==> !(row[i].point == p && row[j].point == p)
  }

  /** The rows of the blocks on the given side keep their edges to that side. */
  ghost predicate SideKept(a: Adj, b: Adj, s: Side) {
    |a| == |b| && forall y: nat :: y < |a| && On(y, s) ==> Kept(a[y], s) == Kept(b[y], s)
  }

  // ---------- dropping one of several edges between two blocks ----------

  /** The change is in edges of b alone, and joins or separates no two blocks. */
  ghost predicate SameNeighbours(g: Graph, h: Graph, b: nat) {
    && |h.ins| == |g.ins| && |h.outs| == |g.outs| && b < |g.ins| == |g.outs|
    && SideKept(g.ins, h.ins, Side({b}, false)) && SideKept(g.outs, h.outs, Side({b}, false))
    && (forall y: nat, p: nat :: y < |g.ins| && (y == b || p == b) ==> (Leads(h.ins[y], p) <==> Leads(g.ins[y], p)))
    && (forall y: nat, p: nat :: y < |g.outs| && (y == b || p == b) ==> (Leads(h.outs[y], p) <==> Leads(g.outs[y], p)))
    && (forall p :: AtMostOnce(g.ins[b], p) ==> AtMostOnce(h.ins[b], p))
    && (forall p :: AtMostOnce(g.outs[b], p) ==> AtMostOnce(h.outs[b], p))
  }

  lemma SameNeighboursTransitive(g: Graph, h: Graph, k: Graph, b: nat)
    requires SameNeighbours(g, h, b) && SameNeighbours(h, k, b)
    ensures SameNeighbours(g, k, b)
  {
  }

  lemma SameNeighboursFlip(g: Graph, h: Graph, b: nat)
    requires SameNeighbours(g, h, b)
    ensures SameNeighbours(Flip(g), Flip(h), b)
  {
  }

  /** The row after slot slot is left out, slots of other halves aside. */
  ghost predicate Cut(a: seq<Edge>, b: seq<Edge>, slot: nat) {
    && slot < |a| && |b| == |a| - 1
    && forall i :: 0 <= i < |b| ==>
       b[i].point == a[Before(i, slot, true)].point && b[i].flags == a[Before(i, slot, true)].flags
  }

  ghost predicate SameEdges(a: seq<Edge>, b: seq<Edge>) {
    |a| == |b| && forall i :: 0 <= i < |a| ==> a[i].point == b[i].point && a[i].flags == b[i].flags
  }

  lemma CutKept(a: seq<Edge>, b: seq<Edge>, slot: nat, s: Side)
    requires Cut(a, b, slot) && !On(a[slot].point, s)
    ensures Kept(b, s) == Kept(a, s)
  {
    KeptSame(RemoveAt(a, slot), b, s);
    KeptRemove(a, slot, s);
  }

  /** A second edge to the same end keeps the end in the row. */
  lemma CutLeads(a: seq<Edge>, b: seq<Edge>, slot: nat, other: nat, p: nat)
    requires Cut(a, b, slot) && other < |a| && other != slot && a[other].point == a[slot].point
    ensures Leads(b, p) <==> Leads(a, p)
    ensures AtMostOnce(a, p) ==> AtMostOnce(b, p)
  {
    if Leads(a, p) {
      var i :| 0 <= i < |a| && a[i].point == p;
      var k := if i == slot then other else i;
      var k' := if k > slot then k - 1 else k;
      assert Before(k', slot, true) == k && b[k'].point == p;
    }
    if AtMostOnce(a, p) {
      forall i, j | 0 <= i < j < |b| ensures !(b[i].point == p && b[j].point == p) {
        assert Before(i, slot, true) < Before(j, slot, true);
      }
    }
  }

  lemma SameEdgesLead(a: seq<Edge>, b: seq<Edge>, p: nat, s: Side)
    requires SameEdges(a, b)
    ensures (Leads(b, p) <==> Leads(a, p)) && (AtMostOnce(a, p) <==> AtMostOnce(b, p)) && Kept(a, s) == Kept(b, s)
  {
    KeptSame(a, b, s);
  }

  /** Removing the edge at slot of b's in-list cuts one row on each side and keeps all others. */
  lemma RemoveCuts(g: Graph, b: nat, slot: nat)
    requires Paired(g) && InSlot(g, b, slot)
    ensures var h, e := RemoveIn(g, b, slot), g.ins[b][slot];
      && |h.ins| == |g.ins| && |h.outs| == |g.outs| && e.point < |g.outs|
      && Cut(g.ins[b], h.ins[b], slot) && Cut(g.outs[e.point], h.outs[e.point], e.rev) &&
         g.outs[e.point][e.rev].point == b
      && (forall y: nat :: y < |g.ins| && y != b ==> SameEdges(g.ins[y], h.ins[y]))
      && (forall y: nat :: y < |g.outs| && y != e.point ==> SameEdges(g.outs[y], h.outs[y]))
  {
    RemoveInAt(g, b, slot);
    assert InPaired(g, b, slot);
    var h, e := RemoveIn(g, b, slot), g.ins[b][slot];
    forall y: nat, i: nat | InSlot(h, y, i) ensures h.ins[y][i].point == g.ins[y][Before(i, slot, y == b)].point &&
        h.ins[y][i].flags == g.ins[y][Before(i, slot, y == b)].flags {}
    forall y: nat, k: nat | OutSlot(h, y, k) ensures h.outs[y][k].point ==
        g.outs[y][Before(k, e.rev, y == e.point)].point &&
        h.outs[y][k].flags == g.outs[y][Before(k, e.rev, y == e.point)].flags {}
  }

  /** Dropping an edge that has a parallel one. */
  lemma DropDuplicate(g: Graph, b: nat, slot: nat, other: nat)
    requires Paired(g) && InSlot(g, b, slot) && InSlot(g, b, other) && other != slot &&
               g.ins[b][other].point == g.ins[b][slot].point
    ensures SameNeighbours(g, RemoveIn(g, b, slot), b)
  {
    var h, e := RemoveIn(g, b, slot), g.ins[b][slot];
    RemoveCuts(g, b, slot);
    assert InPaired(g, b, slot) && InPaired(g, b, other);
    var otherOut := g.ins[b][other].rev;
    assert otherOut != e.rev && |g.ins| == |g.outs|;
    var s := Side({b}, false);
    hide Paired, RemoveIn, Kept, Cut, SameEdges, Leads, AtMostOnce;
    forall y: nat, p: nat | y < |g.ins|
      ensures (Leads(h.ins[y], p) <==> Leads(g.ins[y], p)) && (AtMostOnce(g.ins[y], p) ==> AtMostOnce(h.ins[y], p))
    {
      if y == b { CutLeads(g.ins[b], h.ins[b], slot, other, p); } else { SameEdgesLead(g.ins[y], h.ins[y], p, s); }
    }
    forall y: nat | y < |g.ins| && y != b ensures Kept(h.ins[y], s) == Kept(g.ins[y], s) {
      SameEdgesLead(g.ins[y], h.ins[y], 0, s);
    }
    forall y: nat, p: nat | y < |g.outs|
      ensures (Leads(h.outs[y], p) <==> Leads(g.outs[y], p)) && (AtMostOnce(g.outs[y], p) ==> AtMostOnce(h.outs[y], p))
    {
      if y == e.point {
        CutLeads(g.outs[y], h.outs[y], e.rev, otherOut, p);
      } else {
        SameEdgesLead(g.outs[y], h.outs[y], p, s);
      }
    }
    forall y: nat | y < |g.outs| ensures Kept(h.outs[y], s) == Kept(g.outs[y], s) {
      if y == e.point { CutKept(g.outs[y], h.outs[y], e.rev, s); } else { SameEdgesLead(g.outs[y], h.outs[y], 0, s); }
    }
  }

  // ---------- moving an edge from a collapsed block to the block that stands for it ----------

  /** Some block of the group has an edge to p. */
  ghost predicate GroupLeads(rows: Adj, group: set<nat>, p: nat) {
    exists b: nat :: b in group && b < |rows| && Leads(rows[b], p)
  }

  ghost predicate Inside(row: seq<Edge>, comp: set<nat>) {
    forall i :: 0 <= i < |row| ==> row[i].point in comp
  }

  /** Nothing changes but which block of the group an outside block is joined to, and how often. */
  ghost predicate Quiet(g: Graph, h: Graph, comp: set<nat>, ident: nat) {
    var group := comp + {ident};
    && |h.ins| == |g.ins| == |h.outs| == |g.outs| && (forall b :: b in group ==> b < |g.ins|)
    && SideKept(g.ins, h.ins, Side(group, false)) && SideKept(g.outs, h.outs, Side(group, false))
    && SideKept(g.ins, h.ins, Side(comp, true)) && SideKept(g.outs, h.outs, Side(comp, true))
    && (forall p: nat :: p !in group ==> (GroupLeads(h.ins, group, p) <==> GroupLeads(g.ins, group, p)))
    && (forall p: nat :: p !in group ==> (GroupLeads(h.outs, group, p) <==> GroupLeads(g.outs, group, p)))
    && (forall p: nat :: p in group && Leads(h.ins[ident], p) ==> Leads(g.ins[ident], p))
    && (forall p: nat :: p in group && Leads(h.outs[ident], p) ==> Leads(g.outs[ident], p))
  }

  lemma QuietReflexive(g: Graph, comp: set<nat>, ident: nat)
    requires |g.ins| == |g.outs| && forall b :: b in comp + {ident} ==> b < |g.ins|
    ensures Quiet(g, g, comp, ident)
  {
  }

  lemma QuietTransitive(g: Graph, h: Graph, k: Graph, comp: set<nat>, ident: nat)
    requires Quiet(g, h, comp, ident) && Quiet(h, k, comp, ident)
    ensures Quiet(g, k, comp, ident)
  {
    hide GroupLeads, Leads, Kept;
  }

  lemma QuietFlip(g: Graph, h: Graph, comp: set<nat>, ident: nat)
    requires Quiet(g, h, comp, ident)
    ensures Quiet(Flip(g), Flip(h), comp, ident)
  {
  }

  /** Every row after the target of an edge is replaced. */
  lemma ReplaceCuts(g: Graph, x: nat, j: nat, t: nat)
    requires Paired(g) && OutSlot(g, x, j) && t < |g.ins| && t != g.outs[x][j].point
    ensures OutPaired(g, x, j)
    ensures var h, e := ReplaceOut(g, x, j, t), g.outs[x][j];
      && |h.ins| == |g.ins| && |h.outs| == |g.outs| && e.point < |g.ins|
      && Cut(g.ins[e.point], h.ins[e.point], e.rev) && g.ins[e.point][e.rev].point == x
      && SameEdges(g.ins[t] + [Edge(x, e.flags, j)], h.ins[t])
      && SameEdges(g.outs[x][j := Edge(t, e.flags, 0)], h.outs[x])
      && (forall y: nat :: y < |g.ins| && y != e.point && y != t ==> SameEdges(g.ins[y], h.ins[y]))
      && (forall y: nat :: y < |g.outs| && y != x ==> SameEdges(g.outs[y], h.outs[y]))
  {
    assert OutPaired(g, x, j);
    PairedFlip(g);
    assert InPaired(Flip(g), x, j);
    ReplaceInAt(Flip(g), x, j, t);
    var h, e := ReplaceOut(g, x, j, t), g.outs[x][j];
    assert Flip(h) == ReplaceIn(Flip(g), x, j, t);
    forall y: nat, i: nat | OutSlot(g, y, i) && !(y == x && i == j)
      ensures h.outs[y][i].point == g.outs[y][i].point && h.outs[y][i].flags == g.outs[y][i].flags
    {
      assert InSlot(Flip(g), y, i);
    }
    forall y: nat, k: nat | InSlot(h, y, k) && !(y == t && k == |h.ins[t]| - 1)
      ensures h.ins[y][k] == g.ins[y][Before(k, e.rev, y == e.point)]
    {
      assert OutSlot(Flip(h), y, k);
    }
  }

  lemma CutOther(a: seq<Edge>, b: seq<Edge>, slot: nat, p: nat)
    requires Cut(a, b, slot) && a[slot].point != p
    ensures Leads(b, p) <==> Leads(a, p)
  {
    if Leads(a, p) {
      var i :| 0 <= i < |a| && a[i].point == p;
      var k := if i > slot then i - 1 else i;
      assert Before(k, slot, true) == i && b[k].point == p;
    }
  }

  lemma MoreLeads(a: seq<Edge>, b: seq<Edge>, e: Edge, p: nat)
    requires SameEdges(a + [e], b)
    ensures Leads(b, p) <==> Leads(a, p) || p == e.point
  {
    if Leads(a, p) {
      var i :| 0 <= i < |a| && a[i].point == p;
      assert b[i].point == p;
    }
    assert b[|a|].point == e.point;
  }

  lemma MoveKeepsSides(g: Graph, x: nat, j: nat, comp: set<nat>, ident: nat)
    requires Paired(g) && OutSlot(g, x, j) && ident < |g.ins| && (forall b :: b in comp ==> b < |g.ins|)
    requires ident !in comp && x !in comp && x != ident && g.outs[x][j].point in comp
    ensures OutPaired(g, x, j)
    ensures var h, group := ReplaceOut(g, x, j, ident), comp + {ident};
      && SideKept(g.ins, h.ins, Side(group, false)) && SideKept(g.outs, h.outs, Side(group, false))
      && SideKept(g.ins, h.ins, Side(comp, true)) && SideKept(g.outs, h.outs, Side(comp, true))
  {
    ReplaceCuts(g, x, j, ident);
    var h, e := ReplaceOut(g, x, j, ident), g.outs[x][j];
    var out, inner := Side(comp + {ident}, false), Side(comp, true);
    hide Paired, ReplaceOut, Kept, Cut, SameEdges;
    forall y: nat | y < |g.ins| && On(y, out) ensures Kept(g.ins[y], out) == Kept(h.ins[y], out) {
      SameEdgesLead(g.ins[y], h.ins[y], 0, out);
    }
    forall y: nat | y < |g.ins| && On(y, inner) ensures Kept(g.ins[y], inner) == Kept(h.ins[y], inner) {
      if y == e.point {
        CutKept(g.ins[y], h.ins[y], e.rev, inner);
      } else {
        SameEdgesLead(g.ins[y], h.ins[y], 0, inner);
      }
    }
    forall y: nat | y < |g.outs| && On(y, inner) ensures Kept(g.outs[y], inner) == Kept(h.outs[y], inner) {
      SameEdgesLead(g.outs[y], h.outs[y], 0, inner);
    }
    forall y: nat | y < |g.outs| && On(y, out) ensures Kept(g.outs[y], out) == Kept(h.outs[y], out) {
      if y == x {
        KeptSame(g.outs[x], g.outs[x][j := Edge(ident, e.flags, 0)], out);
        SameEdgesLead(g.outs[x][j := Edge(ident, e.flags, 0)], h.outs[x], 0, out);
      } else {
        SameEdgesLead(g.outs[y], h.outs[y], 0, out);
      }
    }
  }

  /** An edge from an outside block into a collapsed one is moved to ident. */
  lemma MoveIsQuiet(g: Graph, x: nat, j: nat, comp: set<nat>, ident: nat)
    requires Paired(g) && OutSlot(g, x, j) && ident < |g.ins| && (forall b :: b in comp ==> b < |g.ins|)
    requires ident !in comp && x !in comp && x != ident && g.outs[x][j].point in comp
    ensures OutPaired(g, x, j) && Quiet(g, ReplaceOut(g, x, j, ident), comp, ident)
  {
    MoveKeepsSides(g, x, j, comp, ident);
    ReplaceCuts(g, x, j, ident);
    var h, e := ReplaceOut(g, x, j, ident), g.outs[x][j];
    var group := comp + {ident};
    assert |g.ins| == |g.outs|;
    hide Paired, ReplaceOut, Kept, Cut, SameEdges, Leads, SideKept;
    forall p: nat | p !in group ensures GroupLeads(h.ins, group, p) <==> GroupLeads(g.ins, group, p) {
      MoreLeads(g.ins[ident], h.ins[ident], Edge(x, e.flags, j), p);
      if p == x {
        assert Leads(g.ins[e.point], x) by { SlotLeads(g.ins[e.point], e.rev); }
      } else {
        CutOther(g.ins[e.point], h.ins[e.point], e.rev, p);
        forall b: nat | b in group && b < |g.ins| ensures Leads(h.ins[b], p) <==> Leads(g.ins[b], p) {
          if b != e.point && b != ident { SameEdgesLead(g.ins[b], h.ins[b], p, Side({}, true)); }
        }
      }
    }
    forall p: nat | p !in group ensures GroupLeads(h.outs, group, p) <==> GroupLeads(g.outs, group, p) {
      forall b: nat | b in group && b < |g.outs| ensures Leads(h.outs[b], p) <==> Leads(g.outs[b], p) {
        SameEdgesLead(g.outs[b], h.outs[b], p, Side({}, true));
      }
    }
    forall p: nat | p in group && Leads(h.ins[ident], p) ensures Leads(g.ins[ident], p) {
      MoreLeads(g.ins[ident], h.ins[ident], Edge(x, e.flags, j), p);
    }
    forall p: nat | p in group && Leads(h.outs[ident], p) ensures Leads(g.outs[ident], p) {
      SameEdgesLead(g.outs[ident], h.outs[ident], p, Side({}, true));
    }
  }

  lemma SlotLeads(row: seq<Edge>, i: nat)
    requires i < |row|
    ensures Leads(row, row[i].point)
  {
  }
}
