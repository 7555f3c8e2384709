/** Dominance over all entry paths of a flow graph, and what a partially computed dominator tree
    must satisfy while the Cooper-Harvey-Kennedy iteration runs. Blocks are named by their
    position in reverse post-order, so the entry is 0. */
module Dominance {

  import opened Wrappers

  /** preds[b] lists the sources of the in-edges of b, slot by slot. */
  type Preds = seq<seq<nat>>

  /** t[b] is the current immediate dominator of b; the entry 0 of the tree has no parent. */
  type Tree = seq<Option<nat>>

  // ---------- dominance over paths ----------

  ghost predicate IsPath(preds: Preds, p: seq<nat>, b: nat) {
    && |p| > 0 && p[0] == 0 && p[|p| - 1] == b
    && (forall k :: 0 <= k < |p| ==> p[k] < |preds|)
    && forall k :: 0 <= k < |p| - 1 ==> p[k] in preds[p[k + 1]]
  }

  ghost predicate Dominates(preds: Preds, a: nat, b: nat) {
    forall p :: IsPath(preds, p, b) ==> a in p
  }

  /** d strictly dominates b, and every other strict dominator of b dominates d. */
  ghost predicate ImmediateDominator(preds: Preds, d: nat, b: nat) {
    && d != b && Dominates(preds, d, b)
    && forall c: nat :: c != b && Dominates(preds, c, b) ==> Dominates(preds, c, d)
  }

  /** Reverse post-order numbering: every block but the entry is entered from a smaller index. */
  ghost predicate RpoIndexed(preds: Preds) {
    && |preds| > 0
    && (forall b: nat, j: nat :: b < |preds| && j < |preds[b]| ==> preds[b][j] < |preds|)
    && forall b: nat :: 0 < b < |preds| ==> EnteredBelow(preds, b)
  }

  ghost predicate EnteredBelow(preds: Preds, b: nat) {
    b < |preds| && exists j: nat :: j < |preds[b]| && preds[b][j] < b
  }

  lemma DominatorOfPred(preds: Preds, d: nat, b: nat, p: nat)
    requires b < |preds| && p in preds[b] && p < |preds|
    requires Dominates(preds, d, b) && d != b
    ensures Dominates(preds, d, p)
  {
    forall q | IsPath(preds, q, p) ensures d in q {
      assert IsPath(preds, q + [b], b);
    }
  }

  // ---------- the tree under construction ----------

  predicate Done(t: Tree, b: nat) {
    b == 0 || (b < |t| && t[b].Some?)
  }

  function Up(t: Tree, b: nat): nat
    requires b < |t| && t[b].Some?
  {
    t[b].value
  }

  /** Links lead to blocks of strictly smaller index that are already linked themselves. */
  ghost predicate Downward(t: Tree) {
    forall b: nat {:trigger Up(t, b)} :: 0 < b < |t| && t[b].Some? ==> Up(t, b) < b && Done(t, Up(t, b))
  }

  /** x is v or one of the blocks above v. */
  ghost predicate Above(t: Tree, v: nat, x: nat)
    requires Downward(t)
    decreases v
  {
    x == v || (0 < v < |t| && t[v].Some? && Above(t, Up(t, v), x))
  }

  lemma AboveSmaller(t: Tree, v: nat, x: nat)
    requires Downward(t) && Above(t, v, x)
    ensures x <= v && (Done(t, v) ==> Done(t, x))
    decreases v
  {
    if x != v { AboveSmaller(t, Up(t, v), x); }
  }

  lemma AboveTransitive(t: Tree, v: nat, x: nat, y: nat)
    requires Downward(t) && Above(t, v, x) && Above(t, x, y)
    ensures Above(t, v, y)
    decreases v
  {
    if x != v { AboveTransitive(t, Up(t, v), x, y); }
  }

  lemma EntryAbove(t: Tree, v: nat)
    requires Downward(t) && Done(t, v)
    ensures Above(t, v, 0)
    decreases v
  {
    if v != 0 { EntryAbove(t, Up(t, v)); }
  }

  /** m is the deepest block above both v and w. */
  ghost predicate Meet(t: Tree, v: nat, w: nat, m: nat)
    requires Downward(t)
  {
    && Above(t, v, m) && Above(t, w, m)
    && forall x: nat :: Above(t, v, x) && Above(t, w, x) ==> Above(t, m, x)
  }

  /** Climbing from the larger of two blocks does not change the blocks above both. */
  lemma ClimbKeepsMeet(t: Tree, v: nat, w: nat, m: nat)
    requires Downward(t) && w < v < |t| && t[v].Some?
    requires Meet(t, Up(t, v), w, m)
    ensures Meet(t, v, w, m)
  {
    forall x: nat | Above(t, v, x) && Above(t, w, x) ensures Above(t, m, x) {
      AboveSmaller(t, w, x);
    }
  }

  /** The meet, found by climbing from the larger block. */
  ghost function MeetOf(t: Tree, v: nat, w: nat): nat
    requires Downward(t) && v < |t| && w < |t| && Done(t, v) && Done(t, w)
    decreases v + w
  {
    if v == w then v
    else if w < v then MeetOf(t, Up(t, v), w)
    else MeetOf(t, v, Up(t, w))
  }

  lemma {:induction false} MeetOfIsMeet(t: Tree, v: nat, w: nat)
    requires Downward(t) && v < |t| && w < |t| && Done(t, v) && Done(t, w)
    ensures Meet(t, v, w, MeetOf(t, v, w))
    decreases v + w
  {
    if w < v {
      MeetOfIsMeet(t, Up(t, v), w);
      ClimbKeepsMeet(t, v, w, MeetOf(t, v, w));
    } else if v < w {
      MeetOfIsMeet(t, v, Up(t, w));
      ClimbKeepsMeet(t, w, v, MeetOf(t, v, w));
    }
  }

  // ---------- facts the iteration keeps ----------

  /** Every true strict dominator of a linked block dominates the block it is linked to. */
  ghost predicate KeepsDominators(preds: Preds, t: Tree) {
    forall b: nat, d: nat :: 0 < b < |t| && t[b].Some? && d != b && Dominates(preds, d, b) ==>
      Dominates(preds, d, Up(t, b))
  }

  /** x is above all the linked predecessors of b among the first n. */
  ghost predicate Common(preds: Preds, t: Tree, b: nat, n: nat, x: nat)
    requires Downward(t) && b < |preds| && n <= |preds[b]|
  {
    forall j: nat :: j < n && Done(t, preds[b][j]) ==> Above(t, preds[b][j], x)
  }

  /** A block above all linked predecessors of a linked block is above its link. */
  ghost predicate LinksBelowCommon(preds: Preds, t: Tree)
    requires Downward(t)
  {
    forall b: nat, x: nat :: 0 < b < |t| && b < |preds| && t[b].Some? && Common(preds, t, b, |preds[b]|, x) ==>
      Above(t, Up(t, b), x)
  }

  /** Links computed up to index i of a pass are above every smaller predecessor; later links
      still are when they lead to a block that this pass has not reached. */
  ghost predicate LinksAboveSmaller(preds: Preds, t: Tree, i: nat)
    requires Downward(t)
  {
    forall b: nat, j: nat :: 0 < b < |t| && b < |preds| && t[b].Some? && j < |preds[b]| && preds[b][j] < b ==>
      Up(t, b) <= preds[b][j] && (b < i || Up(t, b) >= i ==> Above(t, preds[b][j], Up(t, b)))
  }

  ghost predicate Inv(preds: Preds, t: Tree, i: nat) {
    && RpoIndexed(preds) && |t| == |preds| && 0 < i <= |t|
    && Downward(t)
    && (forall b: nat :: b < i ==> Done(t, b))
    && KeepsDominators(preds, t)
    && LinksBelowCommon(preds, t)
    && LinksAboveSmaller(preds, t, i)
  }

  /** Dominators of v that are above a block m above v also dominate m. */
  lemma DominatorsAlongChain(preds: Preds, t: Tree, v: nat, m: nat, d: nat)
    requires Downward(t) && KeepsDominators(preds, t) && Done(t, v)
    requires Above(t, v, m) && Above(t, m, d) && Dominates(preds, d, v)
    ensures Dominates(preds, d, m)
    decreases v
  {
    if m != v {
      AboveSmaller(t, Up(t, v), m);
      AboveSmaller(t, m, d);
      DominatorsAlongChain(preds, t, Up(t, v), m, d);
    }
  }

  /** True dominators are always above. */
  lemma DominatorsAbove(preds: Preds, t: Tree, v: nat, d: nat)
    requires Downward(t) && KeepsDominators(preds, t) && Done(t, v) && v < |preds|
    requires Dominates(preds, d, v)
    ensures Above(t, v, d)
    decreases v
  {
    if d == v {
    } else if v == 0 {
      assert IsPath(preds, [0], 0);
    } else {
      DominatorsAbove(preds, t, Up(t, v), d);
    }
  }

  // ---------- one update ----------

  /** m is what the intersection of the linked predecessors of b yields. */
  ghost predicate MeetOfPreds(preds: Preds, t: Tree, b: nat, n: nat, m: nat)
    requires Downward(t) && b < |preds| && n <= |preds[b]|
  {
    && Done(t, m)
    && (forall j: nat :: j < n && Done(t, preds[b][j]) ==> Above(t, preds[b][j], m))
    && forall x: nat :: Common(preds, t, b, n, x) ==> Above(t, m, x)
  }

  /** Linking c to m changes no chain that starts below c. */
  lemma AboveUnchanged(t: Tree, c: nat, m: nat, v: nat, x: nat)
    requires Downward(t) && 0 < c < |t| && Downward(t[c := Some(m)]) && v < c
    ensures Above(t[c := Some(m)], v, x) <==> Above(t, v, x)
    decreases v
  {
    if x != v && 0 < v && t[v].Some? { AboveUnchanged(t, c, m, Up(t, v), x); }
  }

  /** Linking c to m: a chain through c keeps its part down to c and then follows the chain of m. */
  lemma AboveAfterUpdate(t: Tree, c: nat, m: nat, v: nat, x: nat)
    requires Downward(t) && 0 < c < |t| && m < c && Downward(t[c := Some(m)])
    requires Done(t, v) || v == c
    ensures Above(t[c := Some(m)], v, x) <==>
              if Above(t, v, c) then (Above(t, v, x) && x >= c) || Above(t, m, x) else Above(t, v, x)
    decreases v
  {
    var u := t[c := Some(m)];
    if v < c {
      AboveUnchanged(t, c, m, v, x);
      if Above(t, v, c) { AboveSmaller(t, v, c); }
    } else if v == c {
      AboveUnchanged(t, c, m, m, x);
      if Above(t, c, x) { AboveSmaller(t, c, x); }
    } else {
      AboveAfterUpdate(t, c, m, Up(t, v), x);
    }
  }

  ghost predicate Improves(preds: Preds, t: Tree, c: nat, m: nat)
    requires Downward(t) && |t| == |preds| && 0 < c < |t|
  {
    && m < c && MeetOfPreds(preds, t, c, |preds[c]|, m)
    && (t[c].Some? ==> Above(t, Up(t, c), m) && m != Up(t, c))
  }

  /** The intersection result is above the old link, so its index is lower. */
  lemma MeetIsLower(preds: Preds, t: Tree, c: nat, m: nat)
    requires Inv(preds, t, c) && c < |t| && MeetOfPreds(preds, t, c, |preds[c]|, m)
    ensures m < c
    ensures t[c].Some? ==> Above(t, Up(t, c), m) && m <= Up(t, c)
  {
    assert EnteredBelow(preds, c);
    var j: nat :| j < |preds[c]| && preds[c][j] < c;
    AboveSmaller(t, preds[c][j], m);
    if t[c].Some? {
      assert Common(preds, t, c, |preds[c]|, m);
      AboveSmaller(t, Up(t, c), m);
    }
  }

  lemma UpdateDownward(preds: Preds, t: Tree, c: nat, m: nat)
    requires Inv(preds, t, c) && c < |t| && Improves(preds, t, c, m)
    ensures Downward(t[c := Some(m)])
    ensures forall v: nat, x: nat :: Done(t, v) && Above(t[c := Some(m)], v, x) ==> Above(t, v, x)
  {
    var u := t[c := Some(m)];
    forall b: nat | 0 < b < |u| && u[b].Some? ensures Up(u, b) < b && Done(u, Up(u, b)) {
      if b != c { assert Up(u, b) == Up(t, b); }
    }
    forall v: nat, x: nat | Done(t, v) && Above(u, v, x) ensures Above(t, v, x) {
      AboveAfterUpdate(t, c, m, v, x);
      if Above(t, v, c) && Above(t, m, x) {
        AboveSmaller(t, v, c);
        AboveTransitive(t, Up(t, c), m, x);
        AboveTransitive(t, v, c, x);
      }
    }
  }

  lemma UpdateKeepsDominators(preds: Preds, t: Tree, c: nat, m: nat)
    requires Inv(preds, t, c) && c < |t| && Improves(preds, t, c, m)
    ensures KeepsDominators(preds, t[c := Some(m)])
  {
    forall d: nat | d != c && Dominates(preds, d, c) ensures Dominates(preds, d, m) {
      assert EnteredBelow(preds, c);
      var j: nat :| j < |preds[c]| && preds[c][j] < c;
      var p := preds[c][j];
      forall i: nat | i < |preds[c]| && Done(t, preds[c][i]) ensures Above(t, preds[c][i], d) {
        DominatorOfPred(preds, d, c, preds[c][i]);
        DominatorsAbove(preds, t, preds[c][i], d);
      }
      assert Common(preds, t, c, |preds[c]|, d);
      DominatorOfPred(preds, d, c, p);
      DominatorsAlongChain(preds, t, p, m, d);
    }
    var u := t[c := Some(m)];
    forall b: nat, d: nat | 0 < b < |u| && u[b].Some? && d != b && Dominates(preds, d, b)
      ensures Dominates(preds, d, Up(u, b))
    {
      if b != c { assert Up(u, b) == Up(t, b); }
    }
  }

  lemma UpdateLinksBelowCommon(preds: Preds, t: Tree, c: nat, m: nat)
    requires Inv(preds, t, c) && c < |t| && Improves(preds, t, c, m)
    requires Downward(t[c := Some(m)])
    ensures LinksBelowCommon(preds, t[c := Some(m)])
  {
    var u := t[c := Some(m)];
    UpdateDownward(preds, t, c, m);
    forall b: nat, x: nat | 0 < b < |u| && u[b].Some? && Common(preds, u, b, |preds[b]|, x)
      ensures Above(u, Up(u, b), x)
    {
      forall j: nat | j < |preds[b]| && Done(t, preds[b][j]) ensures Above(t, preds[b][j], x) {
        assert Done(u, preds[b][j]);
      }
      assert Common(preds, t, b, |preds[b]|, x);
      if b == c {
        AboveUnchanged(t, c, m, m, x);
      } else {
        var w := Up(t, b);
        AboveAfterUpdate(t, c, m, w, x);
        if Above(t, w, c) && x < c {
          AboveSmaller(t, w, c);
          assert EnteredBelow(preds, b);
          var j: nat :| j < |preds[b]| && preds[b][j] < b;
          var p := preds[b][j];
          assert Above(t, p, w);
          AboveTransitive(t, p, w, c);
          DoneBelow(t, p, w);
          assert Done(u, p) && Above(u, p, x);
          AboveAfterUpdate(t, c, m, p, x);
        }
      }
    }
  }

  lemma DoneBelow(t: Tree, p: nat, w: nat)
    requires Downward(t) && Above(t, p, w) && Done(t, w)
    ensures Done(t, p)
  {
  }

  lemma UpdateLinksAboveSmaller(preds: Preds, t: Tree, c: nat, m: nat)
    requires Inv(preds, t, c) && c < |t| && Improves(preds, t, c, m)
    requires Downward(t[c := Some(m)])
    ensures LinksAboveSmaller(preds, t[c := Some(m)], c + 1)
  {
    var u := t[c := Some(m)];
    forall b: nat, j: nat | 0 < b < |t| && u[b].Some? && j < |preds[b]| && preds[b][j] < b
      ensures Up(u, b) <= preds[b][j] && (b < c + 1 || Up(u, b) >= c + 1 ==> Above(u, preds[b][j], Up(u, b)))
    {
      var p := preds[b][j];
      if b == c {
        assert Done(t, p) && Above(t, p, m);
        AboveSmaller(t, p, m);
        AboveUnchanged(t, c, m, p, m);
      } else if b < c {
        AboveUnchanged(t, c, m, p, Up(t, b));
      } else if Up(t, b) >= c + 1 {
        assert Above(t, p, Up(t, b));
        DoneBelow(t, p, Up(t, b));
        AboveAfterUpdate(t, c, m, p, Up(t, b));
      }
    }
  }

  lemma UpdateInv(preds: Preds, t: Tree, c: nat, m: nat)
    requires Inv(preds, t, c) && c < |t| && Improves(preds, t, c, m)
    ensures Inv(preds, t[c := Some(m)], c + 1)
  {
    UpdateDownward(preds, t, c, m);
    UpdateKeepsDominators(preds, t, c, m);
    UpdateLinksBelowCommon(preds, t, c, m);
    UpdateLinksAboveSmaller(preds, t, c, m);
    var u := t[c := Some(m)];
    forall b: nat | b < c + 1 ensures Done(u, b) {
      assert b < c ==> Done(t, b);
    }
  }

  // ---------- the fixpoint ----------

  /** Every link is above every predecessor: a whole pass changed nothing. */
  ghost predicate Stable(preds: Preds, t: Tree, i: nat)
    requires Downward(t)
  {
    forall b: nat, j: nat ::
      0 < b < i && b < |t| && b < |preds| && t[b].Some? && j < |preds[b]| && Done(t, preds[b][j]) ==>
        Above(t, preds[b][j], Up(t, b))
  }

  lemma NoUpdateInv(preds: Preds, t: Tree, c: nat)
    requires Inv(preds, t, c) && c < |t| && t[c].Some? && MeetOfPreds(preds, t, c, |preds[c]|, Up(t, c))
    ensures Inv(preds, t, c + 1)
    ensures Stable(preds, t, c) ==> Stable(preds, t, c + 1)
  {
    assert Up(t, c) == t[c].value;
    forall j: nat | j < |preds[c]| && preds[c][j] < c ensures Above(t, preds[c][j], Up(t, c)) {
      assert Done(t, preds[c][j]);
    }
  }

  /** At a fixpoint everything above b lies on every path to b. */
  lemma {:induction false} AboveDominates(preds: Preds, t: Tree, p: seq<nat>, b: nat, a: nat)
    requires Inv(preds, t, |t|) && Stable(preds, t, |t|)
    requires IsPath(preds, p, b) && Above(t, b, a)
    ensures a in p
    decreases |p|
  {
    if a != b {
      var q := p[..|p| - 1];
      assert p[|p| - 2] in preds[b];
      var j: nat :| j < |preds[b]| && preds[b][j] == p[|p| - 2];
      AboveTransitive(t, preds[b][j], Up(t, b), a);
      AboveDominates(preds, t, q, p[|p| - 2], a);
    }
  }

  /** The links at a fixpoint are the immediate dominators over all entry paths. */
  lemma FixpointIsImmediate(preds: Preds, t: Tree, b: nat)
    requires Inv(preds, t, |t|) && Stable(preds, t, |t|) && 0 < b < |t|
    ensures t[b].Some? && ImmediateDominator(preds, Up(t, b), b)
  {
    assert Done(t, b);
    var d := Up(t, b);
    assert Above(t, d, d) && Above(t, b, d);
    forall p | IsPath(preds, p, b) ensures d in p {
      AboveDominates(preds, t, p, b, d);
    }
  }

  // ---------- termination ----------

  /** Unlinked blocks count as having a link beyond the last index. */
  function LinkSum(t: Tree, n: nat): nat
    requires n <= |t|
  {
    if n == 0 then 0
    else LinkSum(t, n - 1) + if t[n - 1].Some? then Up(t, n - 1) else |t|
  }

  lemma LinkSumUpdate(t: Tree, c: nat, m: nat, n: nat)
    requires n <= |t| && c < |t| && (if t[c].Some? then m < Up(t, c) else m < |t|)
    ensures if c < n then LinkSum(t[c := Some(m)], n) < LinkSum(t, n) else LinkSum(t[c := Some(m)], n) == LinkSum(t, n)
  {
    if n > 0 { LinkSumUpdate(t, c, m, n - 1); }
  }
}
