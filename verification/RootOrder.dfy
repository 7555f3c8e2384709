/** Which of the given roots comes first in the reverse post-order that findSpanningTree leaves. */
module RootOrder {

  import opened Flow
  import opened Forest

  ghost predicate ClosedSet(outs: Adj, some: set<nat>) {
    forall b: nat, k: nat :: b in some && b < |outs| && k < |outs[b]| ==> outs[b][k].point in some
  }

  /** Every component block can be reached from one of the roots. */
  ghost predicate Covers(outs: Adj, comp: set<nat>, roots: set<nat>) {
    forall some: set<nat> :: roots <= some && ClosedSet(outs, some) ==> comp <= some
  }

  /** v can be reached from u. */
  ghost predicate Leads(outs: Adj, u: nat, v: nat) {
    forall some: set<nat> :: u in some && ClosedSet(outs, some) ==> v in some
  }

  lemma LeadsOn(outs: Adj, u: nat, v: nat, w: nat)
    requires Leads(outs, u, v) && Leads(outs, v, w)
    ensures Leads(outs, u, w)
  {
  }

  /** Nothing else leads to a block without in-edges. */
  lemma NothingLeadsIn(g: Graph, comp: set<nat>, r: nat, b: nat)
    requires Paired(g) && Closed(g.outs, comp) && r in comp && b < |g.ins| && g.ins[b] == [] && r != b
    ensures !Leads(g.outs, r, b)
  {
    var some := comp - {b};
    forall c: nat, k: nat | c in some && c < |g.outs| && k < |g.outs[c]| ensures g.outs[c][k].point in some {
      assert OutSlot(g, c, k) && OutPaired(g, c, k);
    }
    assert r in some && ClosedSet(g.outs, some);
  }

  /** Every block of a spanning forest is led to by a root. */
  lemma {:induction false} RootLeads(d: Dfs, comp: set<nat>, roots: set<nat>, outs0: Adj, v: nat) returns (r: nat)
    requires SpanningForest(d.outs, d.rpost, TablesOf(d, comp), roots) &&
               SameEnds(outs0, d.outs)
    requires v in comp
    ensures r in comp && r in roots && d.par[r].None? && Leads(outs0, r, v) && (d.par[v].Some? ==> r != v)
    decreases d.visit[v]
  {
    r := v;
    if d.par[v].Some? {
      var (u, k) := d.par[v].value;
      assert Labelled(TablesOf(d, comp), u, k, d.outs[u][k].point, d.outs[u][k].flags);
      r := RootLeads(d, comp, roots, outs0, u);
      forall some: set<nat> | r in some && ClosedSet(outs0, some) ensures v in some {
        assert u in some && outs0[u][k].point == v;
      }
    }
  }

  /** No edge leads from the blocks entered before a root to the root or beyond. */
  lemma BeforeRootIsClosed(d: Dfs, comp: set<nat>, roots: set<nat>, outs0: Adj, e: nat, some: set<nat>)
    requires SpanningForest(d.outs, d.rpost, TablesOf(d, comp), roots) &&
               SameEnds(outs0, d.outs)
    requires e in comp && d.par[e].None? && some == set b | b in comp && d.visit[b] < d.visit[e]
    ensures ClosedSet(outs0, some)
  {
    forall b: nat, k: nat | b in some && k < |outs0[b]| ensures outs0[b][k].point in some {
      var v := d.outs[b][k].point;
      assert Labelled(TablesOf(d, comp), b, k, v, d.outs[b][k].flags);
    }
  }

  function Last(s: seq<nat>): nat
    requires s != []
  {
    s[|s| - 1]
  }

  /** When the last given root was searched from at all, it was the last one. */
  ghost predicate EndsWith(visit: seq<int>, given: seq<nat>, roots: set<nat>)
    requires given != []
  {
    Last(given) in roots ==>
      forall r :: (r in roots || r in given) && r != Last(given) ==>
          r < |visit| && Last(given) < |visit| && visit[r] < visit[Last(given)]
  }

  /** No other given root leads to the last one. */
  ghost predicate LastIsApart(outs: Adj, given: seq<nat>)
    requires given != []
  {
    forall r :: r in given && r != Last(given) ==> !Leads(outs, r, Last(given))
  }

  /** A tree edge leads to a block of larger index. */
  lemma ParentIsEarlier(d: Dfs, comp: set<nat>, roots: set<nat>, v: nat)
    requires SpanningForest(d.outs, d.rpost, TablesOf(d, comp), roots) && v in comp
    ensures d.par[v].Some? ==> 0 < d.index[v]
    ensures d.par[v].None? ==> v in roots
  {
    if d.par[v].Some? {
      var (u, k) := d.par[v].value;
      assert Labelled(TablesOf(d, comp), u, k, v, d.outs[u][k].flags);
    }
  }

  /** The block with index 0 is a root. */
  lemma FirstIsRoot(d: Dfs, comp: set<nat>, roots: set<nat>)
    requires SpanningForest(d.outs, d.rpost, TablesOf(d, comp), roots) && |d.rpost| > 0
    ensures d.rpost[0] in comp && d.par[d.rpost[0]].None? && d.rpost[0] in roots
  {
    ParentIsEarlier(d, comp, roots, d.rpost[0]);
  }

  /** A root nothing else given leads to was not entered by an edge. */
  lemma ApartHasNoParent(d: Dfs, comp: set<nat>, roots: set<nat>, outs0: Adj, given: seq<nat>)
    requires SpanningForest(d.outs, d.rpost, TablesOf(d, comp), roots) &&
               SameEnds(outs0, d.outs)
    requires given != [] && Last(given) in comp && roots <= Elements(given) && LastIsApart(outs0, given)
    ensures d.par[Last(given)].None?
  {
    var r := RootLeads(d, comp, roots, outs0, Last(given));
    assert r in Elements(given);
  }

  /** The last given root comes first exactly when no other given root leads to it. */
  lemma LastComesFirst(d: Dfs, comp: set<nat>, roots: set<nat>, outs0: Adj, given: seq<nat>)
    requires SpanningForest(d.outs, d.rpost, TablesOf(d, comp), roots) &&
               SameEnds(outs0, d.outs)
    requires given != [] && Elements(given) <= comp && roots <= Elements(given) && EndsWith(d.visit, given, roots)
    ensures |d.rpost| > 0 && (d.rpost[0] == Last(given) <==> LastIsApart(outs0, given))
  {
    var e := Last(given);
    assert e in Elements(given);
    var first := d.rpost[0];
    FirstIsRoot(d, comp, roots);
    if first == e {
      var some := set b | b in comp && d.visit[b] < d.visit[e];
      BeforeRootIsClosed(d, comp, roots, outs0, e, some);
      forall r | r in given && r != e ensures !Leads(outs0, r, e) {
        assert r in Elements(given);
      }
    } else if LastIsApart(outs0, given) {
      ApartHasNoParent(d, comp, roots, outs0, given);
      assert false;
    }
  }
}
