/** Dominance in a graph with several entry points, and what it becomes when the first of them stands in for a root
    above all of them. Blocks are named by their position in reverse post-order; tops holds the entry points. */
module EntryPoints {

  import opened Wrappers
  import opened Dominance

  // ---------- dominance over the paths from all entry points ----------

  ghost predicate IsRootPath(preds: Preds, tops: set<nat>, p: seq<nat>, b: nat) {
    && |p| > 0 && p[0] in tops && p[|p| - 1] == b
    && (forall k :: 0 <= k < |p| ==> p[k] < |preds|)
    && forall k :: 0 <= k < |p| - 1 ==> p[k] in preds[p[k + 1]]
  }

  ghost predicate DominatesFrom(preds: Preds, tops: set<nat>, a: nat, b: nat) {
    forall p :: IsRootPath(preds, tops, p, b) ==> a in p
  }

  /** d strictly dominates b, and every other strict dominator of b dominates d. */
  ghost predicate ImmediateFrom(preds: Preds, tops: set<nat>, d: nat, b: nat) {
    && d != b && DominatesFrom(preds, tops, d, b)
    && forall c: nat :: c != b && DominatesFrom(preds, tops, c, b) ==> DominatesFrom(preds, tops, c, d)
  }

  // ---------- the first block in the place of a common root ----------

  /** The graph in which the first block leads to every other entry point. */
  ghost function WithEntries(preds: Preds, tops: set<nat>): (w: Preds)
    ensures |w| == |preds|
  {
    seq(|preds|, b requires 0 <= b < |preds| => if b > 0 && b in tops then preds[b] + [0] else preds[b])
  }

  lemma OneEntryPoint(preds: Preds)
    ensures WithEntries(preds, {0}) == preds
  {
  }

  /** A path from an entry point is one from the first block, after an added edge if need be. */
  lemma FromFirst(preds: Preds, tops: set<nat>, p: seq<nat>, b: nat)
    requires IsRootPath(preds, tops, p, b)
    ensures IsPath(WithEntries(preds, tops), if p[0] == 0 then p else [0] + p, b)
  {
    var w, q := WithEntries(preds, tops), if p[0] == 0 then p else [0] + p;
    forall k | 0 <= k < |p| - 1 ensures p[k] in w[p[k + 1]] {
      assert p[k] in preds[p[k + 1]];
    }
    if p[0] != 0 {
      assert w[p[0]][|preds[p[0]]|] == 0;
      forall k | 0 <= k < |q| - 1 ensures q[k] in w[q[k + 1]] {
        if k > 0 { assert q[k] == p[k - 1] && q[k + 1] == p[k]; }
      }
    }
  }

  /** What follows the last added edge of a path is a path from an entry point. */
  lemma {:induction false} AfterLastAdded(preds: Preds, tops: set<nat>, p: seq<nat>, b: nat) returns (q: seq<nat>)
    requires IsPath(WithEntries(preds, tops), p, b) && 0 in tops
    ensures IsRootPath(preds, tops, q, b) && forall x :: x in q ==> x in p
    decreases |p|
  {
    if |p| == 1 {
      q := p;
    } else {
      var c, r := p[|p| - 2], p[..|p| - 1];
      assert c in WithEntries(preds, tops)[p[|p| - 1]];
      if c in preds[b] {
        q := AfterLastAdded(preds, tops, r, c);
        forall x | x in q + [b] ensures x in p {
          if x in q {
            var i :| 0 <= i < |r| && r[i] == x;
            assert p[i] == x;
          }
        }
        q := q + [b];
      } else {
        q := [b];
      }
    }
  }

  /** For all blocks but the first, dominance is the same. */
  lemma DominanceKept(preds: Preds, tops: set<nat>, a: nat, b: nat)
    requires 0 in tops
    ensures DominatesFrom(preds, tops, a, b) ==> Dominates(WithEntries(preds, tops), a, b)
    ensures a != 0 && Dominates(WithEntries(preds, tops), a, b) ==> DominatesFrom(preds, tops, a, b)
  {
    if DominatesFrom(preds, tops, a, b) {
      forall p | IsPath(WithEntries(preds, tops), p, b) ensures a in p {
        var q := AfterLastAdded(preds, tops, p, b);
      }
    }
    if a != 0 && Dominates(WithEntries(preds, tops), a, b) {
      forall p | IsRootPath(preds, tops, p, b) ensures a in p {
        FromFirst(preds, tops, p, b);
      }
    }
  }

  /** The part of a path from position k on, and a path continued by another. */
  lemma PathEnd(preds: Preds, tops: set<nat>, p: seq<nat>, b: nat, k: nat)
    requires IsRootPath(preds, tops, p, b) && k < |p| && p[k] in tops
    ensures IsRootPath(preds, tops, p[k..], b)
  {
  }

  lemma PathsJoin(preds: Preds, tops: set<nat>, p: seq<nat>, d: nat, q: seq<nat>, b: nat, k: nat)
    requires IsRootPath(preds, tops, p, d) && IsRootPath(preds, tops, q, b) && k < |q| && q[k] == d
    ensures IsRootPath(preds, tops, p + q[k + 1..], b)
  {
    var r := p + q[k + 1..];
    forall i | 0 <= i < |r| - 1 ensures r[i] in preds[r[i + 1]] {
      if i >= |p| - 1 { assert r[i] == q[k + 1 + i - |p|] && r[i + 1] == q[k + 2 + i - |p|]; }
    }
  }

  lemma {:induction false} LastOccurrence(p: seq<nat>, d: nat) returns (k: nat)
    requires d in p
    ensures k < |p| && p[k] == d && d !in p[k + 1..]
  {
    if p[|p| - 1] == d {
      k := |p| - 1;
    } else {
      var q := p[..|p| - 1];
      assert d in q;
      k := LastOccurrence(q, d);
      assert p[k + 1..] == q[k + 1..] + [p[|p| - 1]];
    }
  }

  lemma AfterFirst(preds: Preds, tops: set<nat>, d: nat, b: nat, q: seq<nat>, k: nat)
    requires 0 in tops && DominatesFrom(preds, tops, d, b) && IsRootPath(preds, tops, q, b)
    requires k <= |q| && 0 in q[k..]
    ensures d in q[k..]
  {
    var j :| 0 <= j < |q[k..]| && q[k..][j] == 0;
    PathEnd(preds, tops, q, b, k + j);
    assert q[k..][j..] == q[k + j..];
    var i :| 0 <= i < |q[k + j..]| && q[k + j..][i] == d;
    assert q[k..][j + i] == d;
  }

  /** If the first block dominates b, it dominates every dominator of b. */
  lemma FirstDominatesBoth(preds: Preds, tops: set<nat>, d: nat, b: nat, q: seq<nat>)
    requires 0 in tops && DominatesFrom(preds, tops, 0, b) && DominatesFrom(preds, tops, d, b)
    requires IsRootPath(preds, tops, q, b)
    ensures DominatesFrom(preds, tops, 0, d)
  {
    var k := LastOccurrence(q, d);
    if 0 in q[k + 1..] { AfterFirst(preds, tops, d, b, q, k + 1); }
    forall p | IsRootPath(preds, tops, p, d) ensures 0 in p {
      PathsJoin(preds, tops, p, d, q, b, k);
    }
  }

  /** In reverse post-order every block has an entry path through smaller blocks only. */
  lemma {:induction false} DescendingPath(preds: Preds, b: nat) returns (p: seq<nat>)
    requires RpoIndexed(preds) && b < |preds|
    ensures IsPath(preds, p, b) && forall k :: 0 <= k < |p| - 1 ==> p[k] < b
  {
    if b == 0 {
      p := [0];
    } else {
      assert EnteredBelow(preds, b);
      var j: nat :| j < |preds[b]| && preds[b][j] < b;
      p := DescendingPath(preds, preds[b][j]);
      p := p + [b];
    }
  }

  /** With the first block in the place of a common root, a block's immediate dominator is right if and only if some
      other block lies on all paths from the entry points to it. If none does, the first block is taken. */
  lemma StandInIsRight(preds: Preds, tops: set<nat>, d: nat, b: nat)
    requires 0 in tops && RpoIndexed(WithEntries(preds, tops)) && b < |preds|
    requires ImmediateDominator(WithEntries(preds, tops), d, b)
    ensures ImmediateFrom(preds, tops, d, b) <==> exists x: nat :: x != b && DominatesFrom(preds, tops, x, b)
    ensures (forall x: nat :: x != b ==> !DominatesFrom(preds, tops, x, b)) ==> d == 0
  {
    var w := WithEntries(preds, tops);
    DominanceKept(preds, tops, d, b);
    if x: nat :| x != b && DominatesFrom(preds, tops, x, b) {
      DominanceKept(preds, tops, x, b);
      if d == 0 { OnlyFirstAbove(w, x); }
      assert DominatesFrom(preds, tops, d, b);
      var p := DescendingPath(w, b);
      var q := AfterLastAdded(preds, tops, p, b);
      forall c: nat | c != b && DominatesFrom(preds, tops, c, b) ensures DominatesFrom(preds, tops, c, d) {
        DominanceKept(preds, tops, c, b);
        DominanceKept(preds, tops, c, d);
        if c == 0 { FirstDominatesBoth(preds, tops, d, b, q); }
      }
    }
  }

  lemma OnlyFirstAbove(preds: Preds, x: nat)
    requires |preds| > 0 && Dominates(preds, x, 0)
    ensures x == 0
  {
    assert IsPath(preds, [0], 0);
  }

  /** Two entry points, 0 and 1, that both lead to 2: the first is taken for the immediate dominator of 2, but the path
      that starts at 1 avoids it. */
  lemma TwoEntryPoints()
    ensures var preds, tops := [[], [], [0, 1]], {0, 1};
      && RpoIndexed(WithEntries(preds, tops)) && ImmediateDominator(WithEntries(preds, tops), 0, 2)
      && !DominatesFrom(preds, tops, 0, 2)
  {
    var preds, tops: set<nat> := [[], [], [0, 1]], {0, 1};
    var w := WithEntries(preds, tops);
    assert w[0] == [] && w[1] == [] + [0] && w[2] == [0, 1];
    assert EnteredBelow(w, 1) by { assert w[1][0] < 1; }
    assert EnteredBelow(w, 2) by { assert w[2][0] < 2; }
    assert IsRootPath(preds, tops, [1, 2], 2);
    assert IsPath(w, [0, 2], 2) && IsPath(w, [0, 1, 2], 2);
    assert IsPath(w, [0], 0);
  }
}
