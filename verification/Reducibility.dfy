/** What findIrreducible computes, on the intervals of the spanning forest: bodies of the loops around
    a head, and when an edge into such a body makes the graph irreducible. */
module Reducibility {

  import opened Wrappers
  import opened Flow
  import opened Forest

  /** An edge from u to v, in the graph without the out-slots of cut. */
  predicate Edges(outs: Adj, cut: set<(nat, nat)>, u: nat, v: nat) {
    u < |outs| && exists k :: 0 <= k < |outs[u]| && (u, k) !in cut && outs[u][k].point == v
  }

  /** Consecutive blocks of p are joined by edges. */
  ghost predicate Walk(outs: Adj, cut: set<(nat, nat)>, p: seq<nat>) {
    |p| > 0 && forall i :: 0 <= i < |p| - 1 ==> Edges(outs, cut, p[i], p[i + 1])
  }

  ghost predicate FromRoot(outs: Adj, cut: set<(nat, nat)>, par: seq<Option<(nat, nat)>>, comp: set<nat>, p: seq<nat>) {
    Walk(outs, cut, p) && p[0] in comp && p[0] < |par| && par[p[0]].None?
  }

  ghost predicate BackInto(outs: Adj, w: nat, x: nat) {
    w < |outs| && exists k :: 0 <= k < |outs[w]| && outs[w][k].point == x && outs[w][k].flags == BACK
  }

  /** Every back edge leads to a block that lies on all walks from the roots to the source of the edge,
      in the graph without the out-slots of cut. */
  ghost predicate Reducible(outs: Adj, cut: set<(nat, nat)>, par: seq<Option<(nat, nat)>>, comp: set<nat>) {
    forall w: nat, x: nat, p: seq<nat> ::
      w in comp && BackInto(outs, w, x) && FromRoot(outs, cut, par, comp, p) && p[|p| - 1] == w ==> x in p
  }

  /** v lies in the subtree of x. */
  predicate Within(f: Tables, x: nat, v: nat) {
    x < |f.visit| && x < |f.num| && v < |f.visit| && f.visit[x] <= f.visit[v] < f.visit[x] + f.num[x]
  }

  /** FIND: every block is represented by itself or by a block above it that has been processed. */
  ghost predicate CopyOk(f: Tables, copy: seq<nat>, xi: int) {
    && (forall v :: v in f.comp ==> v < |copy|)
    && forall v {:trigger copy[v]} :: v in f.comp ==>
      copy[v] in f.comp && Within(f, copy[v], v) && (copy[v] != v ==> f.visit[copy[v]] > xi)
  }

  /** The tables of a spanning forest that the loop analysis reads. */
  ghost predicate Spanned(outs: Adj, f: Tables) {
    && Closed(outs, f.comp) && (forall b :: b in f.comp ==>
       b < |f.visit| && b < |f.index| && b < |f.num| && b < |f.par|)
    && Numbers(f.pre, f.visit, f.comp) && Intervals(f)
    && (forall u: nat, k: nat :: u in f.comp && k < |outs[u]| ==>
          Labelled(f, u, k, outs[u][k].point, outs[u][k].flags))
    && forall v :: v in f.comp ==>
         if f.par[v].None? then forall w :: w in f.comp && f.visit[w] < f.visit[v] ==>
             f.visit[w] + f.num[w] <= f.visit[v]
         else var (u, k) := f.par[v].value;
             u in f.comp && k < |outs[u]| && outs[u][k].point == v && outs[u][k].flags == {TreeEdge}
  }

  lemma SpanSizes(outs: Adj, f: Tables)
    requires Spanned(outs, f)
    ensures Closed(outs, f.comp)
    ensures forall b :: b in f.comp ==> b < |outs| && b < |f.visit| && b < |f.index| && b < |f.num| && b < |f.par|
  {
  }

  /** Two blocks have different visits, and their subtrees are nested or disjoint. */
  lemma SpanPair(outs: Adj, f: Tables, u: nat, w: nat)
    requires Spanned(outs, f) && u in f.comp && w in f.comp
    ensures u < |f.visit| && u < |f.num| && w < |f.visit| && w < |f.num| && f.visit[u] >= 0
    ensures (f.visit[u] == f.visit[w] ==> u == w) && f.num[u] >= 1
    ensures f.visit[u] < f.visit[w] < f.visit[u] + f.num[u] ==> f.visit[w] + f.num[w] <= f.visit[u] + f.num[u]
  {
    hide Labelled;
    assert f.pre[f.visit[u]] == u && f.pre[f.visit[w]] == w;
  }

  lemma SpanEdge(outs: Adj, f: Tables, u: nat, k: nat)
    requires Spanned(outs, f) && u in f.comp && k < |outs[u]|
    ensures u < |outs| && outs[u][k].point in f.comp
    ensures (forall b :: b in f.comp ==> b < |f.visit| && b < |f.index| && b < |f.num| && b < |f.par|) &&
              Labelled(f, u, k, outs[u][k].point, outs[u][k].flags)
  {
    hide Labelled, Numbers, Intervals;
  }

  /** The block that a block other than a root was entered from. */
  lemma SpanParent(outs: Adj, f: Tables, v: nat)
    requires Spanned(outs, f) && v in f.comp
    ensures v < |f.par| && v < |f.visit| && v < |f.num|
    ensures f.par[v].Some? ==> var (u, k) := f.par[v].value;
              && u in f.comp && u < |outs| && k < |outs[u]| && outs[u][k].point == v && Edges(outs, {}, u, v)
              && u < |f.visit| && u < |f.num| && 0 <= f.visit[u] < f.visit[v] &&
                 f.visit[v] + f.num[v] <= f.visit[u] + f.num[u]
  {
    hide Intervals;
    if f.par[v].Some? {
      var (u, k) := f.par[v].value;
      assert Labelled(f, u, k, outs[u][k].point, outs[u][k].flags);
    }
  }

  /** Below a, the block a block was entered from is a or below it too. */
  lemma SpanParentWithin(outs: Adj, f: Tables, a: nat, v: nat)
    requires Spanned(outs, f) && a in f.comp && v in f.comp && a != v && Within(f, a, v)
    ensures v < |f.par| && f.par[v].Some? && Within(f, a, f.par[v].value.0)
  {
    SpanPair(outs, f, a, v);
    if f.par[v].Some? {
      var (u, k) := f.par[v].value;
      hide Intervals, Numbers;
      assert Labelled(f, u, k, outs[u][k].point, outs[u][k].flags);
    }
  }

  /** FIND stays inside the subtree being processed, exactly for blocks inside it. */
  lemma FindStaysInside(outs: Adj, f: Tables, copy: seq<nat>, x: nat, y: nat)
    requires Spanned(outs, f) && x in f.comp && y in f.comp && x < |f.visit| && CopyOk(f, copy, f.visit[x])
    ensures y < |copy| && copy[y] in f.comp
    ensures Within(f, x, copy[y]) <==> Within(f, x, y)
    ensures copy[y] == x <==> y == x
  {
    assert copy[y] in f.comp;
    SpanPair(outs, f, x, copy[y]);
    SpanPair(outs, f, copy[y], x);
    SpanPair(outs, f, copy[y], y);
    SpanPair(outs, f, x, y);
    hide Spanned;
  }

  lemma JoinWalks(outs: Adj, p: seq<nat>, q: seq<nat>)
    requires Walk(outs, {}, p) && Walk(outs, {}, q) && Edges(outs, {}, p[|p| - 1], q[0])
    ensures Walk(outs, {}, p + q)
  {
    var r := p + q;
    forall i | 0 <= i < |r| - 1 ensures Edges(outs, {}, r[i], r[i + 1]) {
      if i < |p| - 1 {
        assert r[i] == p[i] && r[i + 1] == p[i + 1];
      } else if i >= |p| {
        assert r[i] == q[i - |p|] && r[i + 1] == q[i - |p| + 1];
      }
    }
  }

  /** A block is reached from every block above it through the subtree of that block. */
  lemma {:induction false} TreeWalk(outs: Adj, f: Tables, a: nat, v: nat) returns (p: seq<nat>)
    requires Spanned(outs, f) && a in f.comp && v in f.comp && Within(f, a, v)
    ensures Walk(outs, {}, p) && p[0] == a && p[|p| - 1] == v
    ensures forall i :: 0 <= i < |p| ==> p[i] in f.comp && Within(f, a, p[i])
    decreases f.visit[v]
  {
    hide Spanned;
    if v == a {
      p := [a];
      SpanPair(outs, f, a, a);
    } else {
      SpanParentWithin(outs, f, a, v);
      SpanParent(outs, f, v);
      var (u, k) := f.par[v].value;
      p := TreeWalk(outs, f, a, u);
      JoinWalks(outs, p, [v]);
      p := p + [v];
    }
  }

  /** Every block is reached from a root through blocks above it. */
  lemma {:induction false} RootWalk(outs: Adj, f: Tables, v: nat) returns (p: seq<nat>)
    requires Spanned(outs, f) && v in f.comp
    ensures FromRoot(outs, {}, f.par, f.comp, p) && p[|p| - 1] == v
    ensures forall i :: 0 <= i < |p| ==> p[i] in f.comp && Within(f, p[i], v)
    decreases f.visit[v]
  {
    hide Spanned;
    SpanParent(outs, f, v);
    SpanPair(outs, f, v, v);
    if f.par[v].None? {
      p := [v];
    } else {
      var (u, k) := f.par[v].value;
      p := RootWalk(outs, f, u);
      forall i | 0 <= i < |p| ensures Within(f, p[i], v) { SpanPair(outs, f, p[i], u); }
      JoinWalks(outs, p, [v]);
      p := p + [v];
    }
  }

  /** From t the source of a back edge into x is reached without passing x. */
  ghost predicate ReachesTail(outs: Adj, x: nat, t: nat) {
    exists p :: Walk(outs, {}, p) && p[0] == t && x !in p && BackInto(outs, p[|p| - 1], x)
  }

  lemma TailStart(outs: Adj, f: Tables, x: nat, w: nat, c: nat)
    requires Spanned(outs, f) && x in f.comp && w in f.comp && c in f.comp
    requires BackInto(outs, w, x) && Within(f, c, w) && f.visit[x] < f.visit[c]
    ensures ReachesTail(outs, x, c)
  {
    var p := TreeWalk(outs, f, c, w);
  }

  lemma TailExtend(outs: Adj, f: Tables, x: nat, t: nat, y: nat, c: nat)
    requires Spanned(outs, f) && x in f.comp && y in f.comp && c in f.comp
    requires ReachesTail(outs, x, t) && Edges(outs, {}, y, t) && Within(f, c, y) && f.visit[x] < f.visit[c]
    ensures ReachesTail(outs, x, c)
  {
    var q :| Walk(outs, {}, q) && q[0] == t && x !in q && BackInto(outs, q[|q| - 1], x);
    var p := TreeWalk(outs, f, c, y);
    JoinWalks(outs, p, q);
    assert p + q != [] && (p + q)[0] == c && x !in p + q && (p + q)[|p + q| - 1] == q[|q| - 1];
  }

  /** Out-slot e enters, from outside the subtree of some x, a block in it that leads to a tail of x without
      passing x: a second way into the loop of x. */
  ghost predicate EntersBeside(outs: Adj, f: Tables, e: (nat, nat)) {
    && e.0 in f.comp && e.0 < |outs| && e.1 < |outs[e.0]|
    && exists x :: x in f.comp && !Within(f, x, e.0) && ReachesTail(outs, x, outs[e.0][e.1].point)
  }

  /** An edge into the loop body from outside the subtree of the head bypasses the head. */
  lemma EntryFromOutside(outs: Adj, f: Tables, e: (nat, nat))
    requires Spanned(outs, f) && EntersBeside(outs, f, e)
    ensures !Reducible(outs, {}, f.par, f.comp)
  {
    hide Reducible, Intervals, Numbers, Labelled;
    var y, t := e.0, outs[e.0][e.1].point;
    var x :| x in f.comp && !Within(f, x, y) && ReachesTail(outs, x, t);
    assert Edges(outs, {}, y, t);
    var q :| Walk(outs, {}, q) && q[0] == t && x !in q && BackInto(outs, q[|q| - 1], x);
    var p := RootWalk(outs, f, y);
    assert x !in p;
    Bypasses(outs, f.par, f.comp, x, p, q);
  }

  /** A walk from a root joined to one that reaches a tail of x, both past x. */
  lemma Bypasses(outs: Adj, par: seq<Option<(nat, nat)>>, comp: set<nat>, x: nat, p: seq<nat>, q: seq<nat>)
    requires Closed(outs, comp) && FromRoot(outs, {}, par, comp, p) && p[|p| - 1] in comp && x !in p
    requires Walk(outs, {}, q) && x !in q && BackInto(outs, q[|q| - 1], x) && Edges(outs, {}, p[|p| - 1], q[0])
    ensures !Reducible(outs, {}, par, comp)
  {
    hide BackInto;
    JoinWalks(outs, p, q);
    assert q[0] in comp;
    WalkStays(outs, {}, comp, q);
    var r := p + q;
    assert FromRoot(outs, {}, par, comp, r) && r[|r| - 1] == q[|q| - 1] && x !in r;
  }

  lemma {:induction false} WalkStays(outs: Adj, cut: set<(nat, nat)>, comp: set<nat>, p: seq<nat>)
    requires Closed(outs, comp) && Walk(outs, cut, p) && p[0] in comp
    ensures forall i :: 0 <= i < |p| ==> p[i] in comp
    decreases |p|
  {
    if |p| > 1 {
      assert Edges(outs, cut, p[0], p[1]);
      assert Walk(outs, cut, p[1..]) by {
        forall i | 0 <= i < |p[1..]| - 1 ensures Edges(outs, cut, p[1..][i], p[1..][i + 1]) {
          assert p[1..][i] == p[i + 1] && p[1..][i + 1] == p[i + 2];
        }
      }
      WalkStays(outs, cut, comp, p[1..]);
      forall i | 0 <= i < |p| ensures p[i] in comp {
        if i > 0 { assert p[i] == p[1..][i - 1]; }
      }
    }
  }

  // ---------- bodies of processed heads ----------

  /** Nothing outside the body and its head leads into the body, and every back edge into the head
      starts in the body. */
  ghost predicate BodyOk(outs: Adj, cut: set<(nat, nat)>, f: Tables, x: nat, body: set<nat>) {
    && (forall v :: v in body ==> v in f.comp && v != x && Within(f, x, v))
    && (forall y, v :: y in f.comp && v in body && Edges(outs, cut, y, v) ==> y == x || y in body)
    && forall w :: w in f.comp && BackInto(outs, w, x) ==> w == x || w in body
  }

  /** Every processed head has such a body, which holds all blocks that FIND maps to the head. */
  ghost predicate BodiesOk(outs: Adj, cut: set<(nat, nat)>, f: Tables, copy: seq<nat>, bodies: map<nat, set<nat>>,
                           xi: int)
    requires forall b :: b in f.comp ==> b < |f.visit| && b < |copy|
  {
    && (forall x :: x in f.comp && f.visit[x] > xi ==> x in bodies && BodyOk(outs, cut, f, x, bodies[x]))
    && forall v {:trigger copy[v]} :: v in f.comp && copy[v] != v ==> copy[v] in bodies && v in bodies[copy[v]]
  }

  lemma {:induction false} WalkIntoBody(outs: Adj, cut: set<(nat, nat)>, f: Tables, x: nat, body: set<nat>, p: seq<nat>)
    requires BodyOk(outs, cut, f, x, body) && Walk(outs, cut, p) && x !in p && p[|p| - 1] in body
    requires forall i :: 0 <= i < |p| ==> p[i] in f.comp
    ensures p[0] in body
    decreases |p|
  {
    if |p| > 1 {
      var q := p[..|p| - 1];
      assert Edges(outs, cut, p[|p| - 2], p[|p| - 1]);
      assert Walk(outs, cut, q) by {
        forall i | 0 <= i < |q| - 1 ensures Edges(outs, cut, q[i], q[i + 1]) {
          assert Edges(outs, cut, p[i], p[i + 1]);
        }
      }
      WalkIntoBody(outs, cut, f, x, body, q);
    }
  }

  /** A root lies in no other block's subtree. */
  lemma RootOutside(outs: Adj, f: Tables, x: nat, r: nat)
    requires Spanned(outs, f) && x in f.comp && r in f.comp && f.par[r].None?
    ensures Within(f, x, r) ==> x == r
  {
    SpanPair(outs, f, x, r);
  }

  /** When every head has a body that is only entered through the head, the graph is reducible. */
  lemma BodiesMakeReducible(outs: Adj, cut: set<(nat, nat)>, f: Tables, copy: seq<nat>, bodies: map<nat, set<nat>>)
    requires Spanned(outs, f) && (forall b :: b in f.comp ==> b < |copy|)
    requires BodiesOk(outs, cut, f, copy, bodies, -1)
    ensures Reducible(outs, cut, f.par, f.comp)
  {
    forall w: nat, x: nat, p: seq<nat> | w in f.comp && BackInto(outs, w, x) && FromRoot(outs, cut, f.par, f.comp, p) &&
        p[|p| - 1] == w
      ensures x in p
    {
      assert x in f.comp && f.visit[x] > -1;
      WalkStays(outs, cut, f.comp, p);
      RootOutside(outs, f, x, p[0]);
      if x !in p {
        WalkIntoBody(outs, cut, f, x, bodies[x], p);
      }
    }
  }

  // ---------- building one body ----------

  /** What holds while the reachunder list of x is built: its entries lie strictly below x and lead to a
      tail of x; what leads to an entry before q, except along an edge of cut, is x or on the list. */
  ghost predicate Reachunder(outs: Adj, cut: set<(nat, nat)>, f: Tables, copy: seq<nat>, x: nat, ru: seq<nat>, q: nat)
    requires forall b :: b in f.comp ==> b < |f.visit| && b < |copy|
    requires q <= |ru|
  {
    && (forall i :: 0 <= i < |ru| ==>
       ru[i] in f.comp && ru[i] != x && Within(f, x, ru[i]) && ReachesTail(outs, x, ru[i]))
    && forall i, y: nat :: 0 <= i < q && y in f.comp && Edges(outs, cut, y, ru[i]) ==> copy[y] == x || copy[y] in ru
  }

  /** Leaving out more edges keeps the bodies and the list. */
  lemma FewerEdgesKeepBodies(outs: Adj, cut: set<(nat, nat)>, more: set<(nat, nat)>, f: Tables, copy: seq<nat>,
                             bodies: map<nat, set<nat>>, xi: int)
    requires (forall b :: b in f.comp ==> b < |f.visit| && b < |copy|) && cut <= more
    requires BodiesOk(outs, cut, f, copy, bodies, xi)
    ensures BodiesOk(outs, more, f, copy, bodies, xi)
  {
    forall x | x in f.comp && f.visit[x] > xi ensures x in bodies && BodyOk(outs, more, f, x, bodies[x]) {
      assert BodyOk(outs, cut, f, x, bodies[x]);
      forall y, v | y in f.comp && v in bodies[x] && Edges(outs, more, y, v) ensures y == x || y in bodies[x] {
        assert Edges(outs, cut, y, v);
      }
    }
  }

  lemma FewerEdgesKeepList(outs: Adj, cut: set<(nat, nat)>, more: set<(nat, nat)>, f: Tables, copy: seq<nat>, x: nat,
                           ru: seq<nat>, q: nat)
    requires (forall b :: b in f.comp ==> b < |f.visit| && b < |copy|) && cut <= more && q <= |ru|
    requires Reachunder(outs, cut, f, copy, x, ru, q)
    ensures Reachunder(outs, more, f, copy, x, ru, q)
  {
    hide ReachesTail;
    forall i, y: nat | 0 <= i < q && y in f.comp && Edges(outs, more, y, ru[i]) ensures copy[y] == x || copy[y] in ru {
      assert Edges(outs, cut, y, ru[i]);
    }
  }

  /** All back edges into x start in blocks whose representatives are on the list. */
  ghost predicate TailsListed(outs: Adj, comp: set<nat>, copy: seq<nat>, x: nat, ru: seq<nat>)
    requires forall b :: b in comp ==> b < |copy|
  {
    forall w :: w in comp && BackInto(outs, w, x) && w != x ==> copy[w] in ru
  }

  ghost function Union(bodies: map<nat, set<nat>>, ru: seq<nat>): set<nat> {
    set i, v | 0 <= i < |ru| && ru[i] in bodies && v in bodies[ru[i]] :: v
  }

  ghost function BodyFrom(bodies: map<nat, set<nat>>, ru: seq<nat>): set<nat> {
    Elements(ru) + Union(bodies, ru)
  }

  ghost function Collapse(copy: seq<nat>, ru: seq<nat>, x: nat): seq<nat> {
    seq(|copy|, v requires 0 <= v < |copy| => if v in ru then x else copy[v])
  }

  lemma WithinTransitive(f: Tables, x: nat, u: nat, v: nat)
    requires (forall b :: b in f.comp ==> b < |f.visit| && b < |f.index| && b < |f.num|) && Intervals(f)
    requires x in f.comp && u in f.comp && f.visit[u] > f.visit[x] && Within(f, x, u) && Within(f, u, v)
    ensures Within(f, x, v) && f.visit[v] > f.visit[x]
  {
  }

  lemma BodyStaysBelow(outs: Adj, cut: set<(nat, nat)>, f: Tables, bodies: map<nat, set<nat>>, x: nat, ru: seq<nat>,
                       v: nat)
    requires x in f.comp && (forall b :: b in f.comp ==> b < |f.visit| && b < |f.index| && b < |f.num|) &&
               Intervals(f)
    requires forall i :: 0 <= i < |ru| ==>
               ru[i] in f.comp && ru[i] != x && Within(f, x, ru[i]) && f.visit[ru[i]] > f.visit[x]
    requires forall i :: 0 <= i < |ru| ==> ru[i] in bodies && BodyOk(outs, cut, f, ru[i], bodies[ru[i]])
    requires v in BodyFrom(bodies, ru)
    ensures v in f.comp && v != x && Within(f, x, v)
  {
    hide Intervals, Edges, BackInto, Within;
    if v in Elements(ru) {
      var i :| 0 <= i < |ru| && ru[i] == v;
    } else {
      var i :| 0 <= i < |ru| && ru[i] in bodies && v in bodies[ru[i]];
      assert BodyOk(outs, cut, f, ru[i], bodies[ru[i]]);
      WithinTransitive(f, x, ru[i], v);
    }
  }

  lemma BodyIsClosed(outs: Adj, cut: set<(nat, nat)>, f: Tables, copy: seq<nat>, bodies: map<nat, set<nat>>, x: nat,
                     ru: seq<nat>, y: nat, v: nat)
    requires x in f.comp && y in f.comp && (forall b :: b in f.comp ==> b < |f.visit| && b < |copy|)
    requires CopyOk(f, copy, f.visit[x]) && BodiesOk(outs, cut, f, copy, bodies, f.visit[x])
    requires Reachunder(outs, cut, f, copy, x, ru, |ru|)
    requires forall i :: 0 <= i < |ru| ==> ru[i] in bodies && BodyOk(outs, cut, f, ru[i], bodies[ru[i]])
    requires v in BodyFrom(bodies, ru) && Edges(outs, cut, y, v)
    ensures y == x || y in BodyFrom(bodies, ru)
  {
    hide BodiesOk, CopyOk, Within, ReachesTail;
    if v in Elements(ru) {
      var i :| 0 <= i < |ru| && ru[i] == v;
      InBodyByFind(outs, cut, f, copy, bodies, x, ru, y);
    } else {
      var i :| 0 <= i < |ru| && ru[i] in bodies && v in bodies[ru[i]];
      assert BodyOk(outs, cut, f, ru[i], bodies[ru[i]]);
      assert y == ru[i] || y in bodies[ru[i]];
    }
  }

  /** The list of a head without irreducible edges closes to a body of the head. */
  lemma ListClosesToBody(outs: Adj, cut: set<(nat, nat)>, f: Tables, copy: seq<nat>, bodies: map<nat, set<nat>>, x: nat,
                         ru: seq<nat>)
    requires x in f.comp && (forall b :: b in f.comp ==> b < |f.visit| && b < |copy| && b < |f.index| && b < |f.num|)
    requires Intervals(f)
    requires CopyOk(f, copy, f.visit[x]) && BodiesOk(outs, cut, f, copy, bodies, f.visit[x])
    requires Reachunder(outs, cut, f, copy, x, ru, |ru|) && TailsListed(outs, f.comp, copy, x, ru)
    requires forall i :: 0 <= i < |ru| ==> f.visit[ru[i]] > f.visit[x]
    ensures BodyOk(outs, cut, f, x, BodyFrom(bodies, ru))
  {
    forall i | 0 <= i < |ru| ensures ru[i] in bodies && BodyOk(outs, cut, f, ru[i], bodies[ru[i]]) {}
    hide BodiesOk, CopyOk, Within, ReachesTail, Intervals, BodyFrom;
    var body := BodyFrom(bodies, ru);
    forall v | v in body ensures v in f.comp && v != x && Within(f, x, v) {
      BodyStaysBelow(outs, cut, f, bodies, x, ru, v);
    }
    forall y, v | y in f.comp && v in body && Edges(outs, cut, y, v) ensures y == x || y in body {
      BodyIsClosed(outs, cut, f, copy, bodies, x, ru, y, v);
    }
    forall w | w in f.comp && BackInto(outs, w, x) ensures w == x || w in body {
      if w != x { InBodyByFind(outs, cut, f, copy, bodies, x, ru, w); }
    }
  }

  lemma InBodyByFind(outs: Adj, cut: set<(nat, nat)>, f: Tables, copy: seq<nat>, bodies: map<nat, set<nat>>, x: nat,
                     ru: seq<nat>, y: nat)
    requires x in f.comp && y in f.comp && (forall b :: b in f.comp ==> b < |f.visit| && b < |copy|)
    requires CopyOk(f, copy, f.visit[x]) && BodiesOk(outs, cut, f, copy, bodies, f.visit[x])
    requires copy[y] == x || copy[y] in ru
    ensures y == x || y in BodyFrom(bodies, ru)
  {
    if copy[y] in ru {
      var i :| 0 <= i < |ru| && ru[i] == copy[y];
      if copy[y] != y { assert y in bodies[ru[i]]; }
    }
  }

  /** Collapsing the list of x to x keeps FIND right for the next head. */
  lemma CollapseKeepsCopy(f: Tables, copy: seq<nat>, x: nat, ru: seq<nat>)
    requires x in f.comp && (forall b :: b in f.comp ==> b < |f.visit|) && Numbers(f.pre, f.visit, f.comp)
    requires CopyOk(f, copy, f.visit[x]) && Within(f, x, x)
    requires forall i :: 0 <= i < |ru| ==> ru[i] in f.comp && ru[i] != x && Within(f, x, ru[i])
    ensures CopyOk(f, Collapse(copy, ru, x), f.visit[x] - 1)
  {
    var after := Collapse(copy, ru, x);
    forall v | v in f.comp
      ensures after[v] in f.comp && Within(f, after[v], v) && (after[v] != v ==> f.visit[after[v]] > f.visit[x] - 1)
    {
      assert after[v] == if v in ru then x else copy[v];
    }
  }

  /** The collapsed head and its body join the processed ones. */
  lemma CollapseKeepsBodies(outs: Adj, cut: set<(nat, nat)>, f: Tables, copy: seq<nat>, bodies: map<nat, set<nat>>,
                            x: nat, ru: seq<nat>)
    requires x in f.comp && (forall b :: b in f.comp ==> b < |f.visit| && b < |copy|) && Numbers(f.pre, f.visit, f.comp)
    requires CopyOk(f, copy, f.visit[x])
    requires BodiesOk(outs, cut, f, copy, bodies, f.visit[x])
    requires BodyOk(outs, cut, f, x, BodyFrom(bodies, ru))
    ensures BodiesOk(outs, cut, f, Collapse(copy, ru, x), bodies[x := BodyFrom(bodies, ru)], f.visit[x] - 1)
  {
    var after, more := Collapse(copy, ru, x), bodies[x := BodyFrom(bodies, ru)];
    hide BodyOk;
    forall h | h in f.comp && f.visit[h] > f.visit[x] - 1
      ensures h in more && BodyOk(outs, cut, f, h, more[h])
    {
      assert f.pre[f.visit[h]] == h && f.pre[f.visit[x]] == x;
    }
    forall v | v in f.comp && after[v] != v ensures after[v] in more && v in more[after[v]] {
      if v in ru {
        var i :| 0 <= i < |ru| && ru[i] == v;
      } else {
        assert after[v] == copy[v];
      }
    }
  }

  /** An edge into a block strictly below x that starts outside the subtree of x is a forward or cross edge. */
  lemma OutsideIsNotTree(outs: Adj, f: Tables, x: nat, t: nat, y: nat, k: nat)
    requires Spanned(outs, f) && x in f.comp && t in f.comp && y in f.comp
    requires t != x && Within(f, x, t) && !Within(f, x, y)
    requires k < |outs[y]| && outs[y][k].point == t
    ensures outs[y][k].flags == {ForwardEdge} || outs[y][k].flags == {CrossEdge}
  {
    hide Spanned;
    SpanEdge(outs, f, y, k);
    SpanPair(outs, f, x, t);
    SpanPair(outs, f, x, y);
    SpanPair(outs, f, t, x);
  }

  lemma CopyHolds(f: Tables, copy: seq<nat>, xi: int, y: nat)
    requires CopyOk(f, copy, xi) && y in f.comp
    ensures y < |copy| && copy[y] in f.comp && Within(f, copy[y], y)
  {
  }

  /** What the test on the representative of an in-edge's source decides. */
  lemma SourceDecides(outs: Adj, f: Tables, copy: seq<nat>, x: nat, t: nat, y: nat, k: nat)
    requires Spanned(outs, f) && x in f.comp && t in f.comp && y in f.comp
    requires CopyOk(f, copy, f.visit[x])
    requires t != x && Within(f, x, t) && ReachesTail(outs, x, t)
    requires k < |outs[y]| && outs[y][k].point == t
    ensures copy[y] in f.comp
    ensures !Within(f, x, copy[y]) ==>
              (outs[y][k].flags == {ForwardEdge} || outs[y][k].flags == {CrossEdge}) &&
                  EntersBeside(outs, f, (y, k))
    ensures Within(f, x, copy[y]) && copy[y] != x ==> ReachesTail(outs, x, copy[y])
  {
    hide Spanned, CopyOk, ReachesTail;
    SpanSizes(outs, f);
    FindStaysInside(outs, f, copy, x, y);
    assert Edges(outs, {}, y, t);
    if !Within(f, x, copy[y]) {
      OutsideIsNotTree(outs, f, x, t, y, k);
    } else if copy[y] != x {
      SpanPair(outs, f, x, copy[y]);
      CopyHolds(f, copy, f.visit[x], y);
      TailExtend(outs, f, x, t, y, copy[y]);
    }
  }

  /** The source of a back edge into x is represented by a block strictly below x that leads to it. */
  lemma TailIsBelow(outs: Adj, f: Tables, copy: seq<nat>, x: nat, y: nat, k: nat)
    requires Spanned(outs, f) && x in f.comp && y in f.comp && y != x
    requires CopyOk(f, copy, f.visit[x])
    requires k < |outs[y]| && outs[y][k].point == x && outs[y][k].flags == BACK
    ensures copy[y] in f.comp && copy[y] != x && Within(f, x, copy[y]) && ReachesTail(outs, x, copy[y])
  {
    hide Spanned, CopyOk, ReachesTail;
    SpanEdge(outs, f, y, k);
    FindStaysInside(outs, f, copy, x, y);
    SpanPair(outs, f, x, copy[y]);
    CopyHolds(f, copy, f.visit[x], y);
    assert BackInto(outs, y, x);
    TailStart(outs, f, x, y, copy[y]);
  }
}
