/** BlockGraph::calcForwardDominator: the iteration on the block tables, below a virtual root where one is needed. */
module Dominators {

  import opened Wrappers
  import opened Flow
  import opened Dominance
  import opened EntryPoints

  /** The component list is numbered by index, and every edge into a listed block comes from one. */
  ghost predicate Numbered(ins: Adj, list: seq<nat>, index: seq<int>) {
    && |index| == |ins|
    && (forall i :: 0 <= i < |list| ==> list[i] < |ins| && index[list[i]] == i)
    && forall i, j :: 0 <= i < |list| && 0 <= j < |ins[list[i]]| ==> Listed(list, index, ins[list[i]][j].point)
  }

  ghost predicate Listed(list: seq<nat>, index: seq<int>, b: nat) {
    b < |index| && 0 <= index[b] < |list| && list[index[b]] == b
  }

  /** The in-edges of every listed block, with blocks replaced by their index. */
  ghost function PredsOf(ins: Adj, list: seq<nat>, index: seq<int>): Preds
    requires Numbered(ins, list, index)
  {
    seq(|list|, i requires 0 <= i < |list| =>
      seq(|ins[list[i]]|, j requires 0 <= j < |ins[list[i]]| =>
        assert Listed(list, index, ins[list[i]][j].point); index[ins[list[i]][j].point] as nat))
  }

  /** A listed block, or the virtual root, which has the index of the first block. */
  ghost predicate Target(list: seq<nat>, index: seq<int>, b: nat) {
    Listed(list, index, b) || (b < |index| && index[b] == 0)
  }

  /** The immed_dom links of the listed blocks, with blocks replaced by their index. */
  ghost predicate Links(list: seq<nat>, index: seq<int>, immedDom: seq<Option<nat>>, t: Tree) {
    && |t| == |list|
    && (forall i :: 0 <= i < |list| ==> list[i] < |immedDom|)
    && forall i :: 0 < i < |list| ==>
         if immedDom[list[i]].None? then t[i].None?
         else Target(list, index, immedDom[list[i]].value) && t[i] == Some(index[immedDom[list[i]].value] as nat)
  }

  lemma MeetWithNext(preds: Preds, t: Tree, b: nat, n: nat, m: nat, r: nat)
    requires Downward(t) && b < |preds| && n < |preds[b]|
    requires MeetOfPreds(preds, t, b, n, m) && Done(t, preds[b][n])
    requires Meet(t, preds[b][n], m, r)
    ensures MeetOfPreds(preds, t, b, n + 1, r)
  {
    AboveSmaller(t, m, r);
    forall j: nat | j < n + 1 && Done(t, preds[b][j]) ensures Above(t, preds[b][j], r) {
      if j < n { AboveTransitive(t, preds[b][j], m, r); }
    }
    forall x: nat | Common(preds, t, b, n + 1, x) ensures Above(t, r, x) {
      assert Common(preds, t, b, n, x);
    }
  }

  /** One climbing step of a finger, from the position it stands on. */
  lemma ClimbStep(list: seq<nat>, index: seq<int>, immedDom: seq<Option<nat>>, t: Tree, v: nat)
    requires Links(list, index, immedDom, t) && Downward(t) && 0 < v < |list| && v < |t| && t[v].Some?
    ensures list[v] < |immedDom| && immedDom[list[v]].Some? && immedDom[list[v]].value < |index|
    ensures index[immedDom[list[v]].value] == Up(t, v) && Up(t, v) < v && Done(t, Up(t, v))
  {
  }

  lemma LinksSize(list: seq<nat>, index: seq<int>, immedDom: seq<Option<nat>>, t: Tree)
    requires Links(list, index, immedDom, t)
    ensures |t| == |list|
  {
  }

  /** The intersection routine: both fingers climb, always the one further from the root. */
  method Intersect(list: seq<nat>, index: seq<int>, immedDom: seq<Option<nat>>, postorder: seq<nat>, numnodes: nat,
                   rho: nat, idom: nat, ghost t: Tree)
    returns (r: nat)
    requires |list| == numnodes + 1 <= |postorder| && Links(list, index, immedDom, t) && Downward(t)
    requires forall k :: 0 <= k <= numnodes ==> postorder[k] == list[numnodes - k]
    requires forall i :: 0 <= i < |list| ==> list[i] < |index| && index[list[i]] == i
    requires Listed(list, index, rho) && Listed(list, index, idom)
    requires Done(t, index[rho]) && Done(t, index[idom])
    ensures Listed(list, index, r)
    ensures Meet(t, index[rho], index[idom], index[r])
  {
    hide Links, Downward, Meet;
    LinksSize(list, index, immedDom, t);
    var finger1 := numnodes - index[rho];
    var finger2 := numnodes - index[idom];
    ghost var m := MeetOf(t, index[rho], index[idom]);
    MeetOfIsMeet(t, index[rho], index[idom]);
    while finger1 != finger2
      invariant 0 <= finger1 <= numnodes && 0 <= finger2 <= numnodes
      invariant Done(t, numnodes - finger1) && Done(t, numnodes - finger2)
      invariant MeetOf(t, numnodes - finger1, numnodes - finger2) == m
      decreases 2 * numnodes - finger1 - finger2
    {
      ghost var start := finger1 + finger2;
      while finger1 < finger2
        invariant 0 <= finger1 <= numnodes && Done(t, numnodes - finger1)
        invariant MeetOf(t, numnodes - finger1, numnodes - finger2) == m
        invariant finger1 + finger2 > start || (finger1 + finger2 == start && finger1 != finger2)
        decreases numnodes - finger1
      {
        ClimbStep(list, index, immedDom, t, numnodes - finger1);
        finger1 := numnodes - index[immedDom[postorder[finger1]].value];
      }
      while finger2 < finger1
        invariant 0 <= finger2 <= numnodes && Done(t, numnodes - finger2)
        invariant MeetOf(t, numnodes - finger1, numnodes - finger2) == m
        invariant finger1 + finger2 > start || (finger1 + finger2 == start && finger2 < finger1)
        decreases numnodes - finger2
      {
        ClimbStep(list, index, immedDom, t, numnodes - finger2);
        finger2 := numnodes - index[immedDom[postorder[finger2]].value];
      }
    }
    r := postorder[finger1];
  }

  /** row holds the in-edges of the block at position pos. */
  ghost predicate RowOf(row: seq<Edge>, list: seq<nat>, index: seq<int>, preds: Preds, pos: nat) {
    && pos < |preds| && |row| == |preds[pos]|
    && forall j :: 0 <= j < |row| ==> Listed(list, index, row[j].point) && index[row[j].point] == preds[pos][j]
  }

  lemma DoneIsLinked(list: seq<nat>, index: seq<int>, immedDom: seq<Option<nat>>, t: Tree, b: nat)
    requires Links(list, index, immedDom, t) && |list| > 0 && immedDom[list[0]].Some?
    requires Listed(list, index, b)
    ensures b < |immedDom| && (immedDom[b].Some? <==> Done(t, index[b]))
  {
  }

  lemma FirstLinked(preds: Preds, t: Tree, b: nat, n: nat)
    requires Downward(t) && b < |preds| && n < |preds[b]| && Done(t, preds[b][n])
    requires forall k :: 0 <= k < n ==> !Done(t, preds[b][k])
    ensures MeetOfPreds(preds, t, b, n + 1, preds[b][n])
  {
    forall x: nat | Common(preds, t, b, n + 1, x) ensures Above(t, preds[b][n], x) {
      assert Done(t, preds[b][n]);
    }
  }

  /** The intersection of all predecessors of a block that are linked so far. */
  method NewIdom(row: seq<Edge>, list: seq<nat>, index: seq<int>, immedDom: seq<Option<nat>>, postorder: seq<nat>,
                 numnodes: nat, ghost preds: Preds, ghost t: Tree, ghost pos: nat)
    returns (newIdom: nat)
    requires |list| == numnodes + 1 <= |postorder| && Links(list, index, immedDom, t)
    requires forall k :: 0 <= k <= numnodes ==> postorder[k] == list[numnodes - k]
    requires forall i :: 0 <= i < |list| ==> list[i] < |index| && index[list[i]] == i
    requires immedDom[list[0]].Some?
    requires Inv(preds, t, pos) && pos < |list| && RowOf(row, list, index, preds, pos)
    ensures Listed(list, index, newIdom)
    ensures MeetOfPreds(preds, t, pos, |preds[pos]|, index[newIdom])
  {
    assert EnteredBelow(preds, pos);
    ghost var smaller: nat :| smaller < |preds[pos]| && preds[pos][smaller] < pos;
    assert Done(t, preds[pos][smaller]);
    newIdom := row[0].point;
    var j := 0;
    while j < |row|
      invariant 0 <= j <= |row|
      invariant forall k :: 0 <= k < j ==> !Done(t, preds[pos][k])
    {
      newIdom := row[j].point;
      DoneIsLinked(list, index, immedDom, t, newIdom);
      if immedDom[newIdom].Some? { break; }
      j := j + 1;
    }
    assert j < |row|;
    FirstLinked(preds, t, pos, j);
    j := j + 1;
    while j < |row|
      invariant 0 < j <= |row| && Listed(list, index, newIdom)
      invariant MeetOfPreds(preds, t, pos, j, index[newIdom])
    {
      var rho := row[j].point;
      DoneIsLinked(list, index, immedDom, t, rho);
      if immedDom[rho].Some? {
        ghost var m: nat := index[newIdom];
        var r := Intersect(list, index, immedDom, postorder, numnodes, rho, newIdom, t);
        MeetWithNext(preds, t, pos, j, m, index[r]);
        newIdom := r;
      } else {
        SkipUnlinked(preds, t, pos, j, index[newIdom]);
      }
      j := j + 1;
    }
  }

  lemma SkipUnlinked(preds: Preds, t: Tree, b: nat, n: nat, m: nat)
    requires Downward(t) && b < |preds| && n < |preds[b]|
    requires MeetOfPreds(preds, t, b, n, m) && !Done(t, preds[b][n])
    ensures MeetOfPreds(preds, t, b, n + 1, m)
  {
    forall x: nat | Common(preds, t, b, n + 1, x) ensures Above(t, m, x) {
      assert Common(preds, t, b, n, x);
    }
  }

  /** A block linked to the entry keeps every fact of the pass without being visited. */
  lemma SkipEntryChild(preds: Preds, t: Tree, c: nat)
    requires Inv(preds, t, c) && 0 < c < |t| && t[c] == Some(0)
    ensures Inv(preds, t, c + 1)
    ensures Stable(preds, t, c) ==> Stable(preds, t, c + 1)
  {
    forall p: nat | Done(t, p) ensures Above(t, p, 0) { EntryAbove(t, p); }
    assert Up(t, c) == 0;
  }

  lemma LinksUpdate(list: seq<nat>, index: seq<int>, immedDom: seq<Option<nat>>, t: Tree, pos: nat, d: nat)
    requires Links(list, index, immedDom, t) && 0 < pos < |list| && Listed(list, index, d)
    requires forall i :: 0 <= i < |list| ==> list[i] < |index| && index[list[i]] == i
    ensures var after := immedDom[list[pos] := Some(d)];
      && Links(list, index, after, t[pos := Some(index[d] as nat)])
      && after[list[0]] == immedDom[list[0]]
      && forall x :: 0 <= x < |after| && x !in list ==> after[x] == immedDom[x]
  {
    assert index[list[0]] != index[list[pos]];
  }

  lemma RelinkStep(preds: Preds, t: Tree, pos: nat, m: nat)
    requires Inv(preds, t, pos) && pos < |t| && MeetOfPreds(preds, t, pos, |preds[pos]|, m) && t[pos] != Some(m)
    ensures Inv(preds, t[pos := Some(m)], pos + 1) && LinkSum(t[pos := Some(m)], |t|) < LinkSum(t, |t|)
  {
    MeetIsLower(preds, t, pos, m);
    UpdateInv(preds, t, pos, m);
    LinkSumUpdate(t, pos, m, |t|);
  }

  /** What the sweeps read and never change: the post-order list, the root and the in-edges. */
  ghost predicate Prepared(ins: Adj, list: seq<nat>, index: seq<int>, postorder: seq<nat>, numnodes: nat, root: nat,
                           preds: Preds, tops: set<nat>) {
    && |list| == numnodes + 1 == |preds| && numnodes + 1 <= |postorder| <= numnodes + 2
    && (forall k :: 0 <= k <= numnodes ==> postorder[k] == list[numnodes - k])
    && postorder[|postorder| - 1] == root
    && (Listed(list, index, root) <==> root == list[0]) && (root == list[0] <==> |postorder| == numnodes + 1)
    && (forall i :: 0 <= i < |list| ==> list[i] < |index| && list[i] < |ins| && index[list[i]] == i)
    && forall i :: 0 < i < |list| && i !in tops ==> RowOf(ins[list[i]], list, index, preds, i)
  }

  /** The entry points are linked to the root, and no other block is linked to an unlisted one. */
  ghost predicate Linked(list: seq<nat>, index: seq<int>, immedDom: seq<Option<nat>>, root: nat, tops: set<nat>,
                         t: Tree) {
    && |list| > 0 && Links(list, index, immedDom, t) && 0 in tops
    && forall i :: 0 <= i < |list| ==>
         if i in tops then immedDom[list[i]] == Some(root)
         else immedDom[list[i]].Some? ==> Listed(list, index, immedDom[list[i]].value)
  }

  ghost predicate OthersKept(list: seq<nat>, before: seq<Option<nat>>, after: seq<Option<nat>>) {
    |after| == |before| && forall x :: 0 <= x < |after| && x !in list ==> after[x] == before[x]
  }

  /** One block of a sweep: its link is recomputed unless it already leads to the root. */
  method Visit(ins: Adj, list: seq<nat>, index: seq<int>, immedDom: seq<Option<nat>>, postorder: seq<nat>,
               numnodes: nat,
               root: nat, i: nat, ghost preds: Preds, ghost tops: set<nat>, ghost t: Tree)
    returns (changed: bool, after: seq<Option<nat>>, ghost u: Tree)
    requires Prepared(ins, list, index, postorder, numnodes, root, preds, tops) && i < numnodes
    requires Linked(list, index, immedDom, root, tops, t) && Inv(preds, t, numnodes - i)
    ensures OthersKept(list, immedDom, after)
    ensures Linked(list, index, after, root, tops, u) && Inv(preds, u, numnodes - i + 1)
    ensures if changed then LinkSum(u, |u|) < LinkSum(t, |t|)
            else u == t && (Stable(preds, t, numnodes - i) ==> Stable(preds, t, numnodes - i + 1))
  {
    changed, after, u := false, immedDom, t;
    var b := postorder[i];
    ghost var pos := numnodes - i;
    if immedDom[b] != Some(root) {
      var newIdom := NewIdom(ins[b], list, index, immedDom, postorder, numnodes, preds, t, pos);
      ghost var m: nat := index[newIdom];
      if immedDom[b] != Some(newIdom) {
        assert t[pos] != Some(m);
        RelinkStep(preds, t, pos, m);
        LinksUpdate(list, index, immedDom, t, pos, newIdom);
        changed, after, u := true, immedDom[b := Some(newIdom)], t[pos := Some(m)];
      } else {
        assert t[pos] == Some(m);
        NoUpdateInv(preds, t, pos);
      }
    } else {
      assert t[pos] == Some(0);
      SkipEntryChild(preds, t, pos);
    }
  }

  /** One sweep over all blocks but the root, in reverse post-order. */
  method Sweep(ins: Adj, list: seq<nat>, index: seq<int>, immedDom: seq<Option<nat>>, postorder: seq<nat>,
               numnodes: nat,
               root: nat, ghost preds: Preds, ghost tops: set<nat>, ghost t: Tree)
    returns (changed: bool, after: seq<Option<nat>>, ghost u: Tree)
    requires Prepared(ins, list, index, postorder, numnodes, root, preds, tops)
    requires Linked(list, index, immedDom, root, tops, t) && Inv(preds, t, 1)
    ensures OthersKept(list, immedDom, after)
    ensures Linked(list, index, after, root, tops, u) && Inv(preds, u, |u|)
    ensures if changed then LinkSum(u, |u|) < LinkSum(t, |t|) else u == t && Stable(preds, u, |u|)
  {
    changed, after, u := false, immedDom, t;
    var i := numnodes;
    if |postorder| == numnodes + 2 {      // the first block is visited as well, and is linked to the virtual root
      assert immedDom[postorder[i]] == Some(root);
    }
    assert Stable(preds, u, 1);
    while i > 0
      invariant 0 <= i <= numnodes
      invariant OthersKept(list, immedDom, after)
      invariant Linked(list, index, after, root, tops, u) && Inv(preds, u, numnodes - i + 1)
      invariant if changed then LinkSum(u, |u|) < LinkSum(t, |t|) else u == t && Stable(preds, u, numnodes - i + 1)
    {
      i := i - 1;
      var step;
      step, after, u := Visit(ins, list, index, after, postorder, numnodes, root, i, preds, tops, u);
      changed := changed || step;
    }
  }

  /** Sweeps until one of them changes nothing. */
  method Iterate(ins: Adj, list: seq<nat>, index: seq<int>, immedDom: seq<Option<nat>>, postorder: seq<nat>,
                 numnodes: nat,
                 root: nat, ghost preds: Preds, ghost tops: set<nat>, ghost t: Tree)
    returns (after: seq<Option<nat>>, ghost u: Tree)
    requires Prepared(ins, list, index, postorder, numnodes, root, preds, tops)
    requires Linked(list, index, immedDom, root, tops, t) && Inv(preds, t, 1)
    ensures OthersKept(list, immedDom, after)
    ensures Linked(list, index, after, root, tops, u) && Inv(preds, u, |u|) && Stable(preds, u, |u|)
  {
    after, u := immedDom, t;
    var changed := true;
    while changed
      invariant OthersKept(list, immedDom, after)
      invariant Linked(list, index, after, root, tops, u) && Inv(preds, u, 1)
      invariant !changed ==> Inv(preds, u, |u|) && Stable(preds, u, |u|)
      decreases LinkSum(u, |u|), changed
    {
      changed, after, u := Sweep(ins, list, index, after, postorder, numnodes, root, preds, tops, u);
      NextSweep(preds, u);
    }
  }

  /** What holds after a sweep holds before the next one. */
  lemma NextSweep(preds: Preds, t: Tree)
    requires Inv(preds, t, |t|)
    ensures Inv(preds, t, 1)
  {
  }

  /** A graph with one entry: the listed blocks are numbered in reverse post-order from list[0]. */
  ghost predicate SingleEntry(ins: Adj, list: seq<nat>, index: seq<int>) {
    Numbered(ins, list, index) && list != [] && RpoIndexed(PredsOf(ins, list, index))
  }

  /** Every entry of immed_dom is the immediate dominator over all paths from the entry block. */
  ghost predicate DominatorTree(ins: Adj, list: seq<nat>, index: seq<int>, immedDom: seq<Option<nat>>)
    requires Numbered(ins, list, index)
  {
    && (forall i :: 0 <= i < |list| ==> list[i] < |immedDom|)
    && (list != [] ==> immedDom[list[0]].None?)
    && forall i :: 0 < i < |list| ==>
         && immedDom[list[i]].Some? && Listed(list, index, immedDom[list[i]].value)
         && ImmediateDominator(PredsOf(ins, list, index), index[immedDom[list[i]].value], i)
  }

  // ---------- several entry points ----------

  /** The positions of the entry points in the list. */
  ghost function TopsOf(list: seq<nat>, rootlist: seq<nat>): set<nat> {
    set i: nat | i < |list| && list[i] in rootlist
  }

  /** The in-edges by position, the first block standing for a root above all entry points. */
  ghost function EntryPreds(ins: Adj, list: seq<nat>, index: seq<int>, rootlist: seq<nat>): (w: Preds)
    requires Numbered(ins, list, index)
    ensures |w| == |list|
  {
    WithEntries(PredsOf(ins, list, index), TopsOf(list, rootlist))
  }

  /** The list is in reverse post-order from the entry points, of which its first block is one. */
  ghost predicate Entered(ins: Adj, list: seq<nat>, index: seq<int>, rootlist: seq<nat>) {
    && Numbered(ins, list, index) && list != [] && list[0] in rootlist
    && (forall k :: 0 <= k < |rootlist| ==> Listed(list, index, rootlist[k]))
    && RpoIndexed(EntryPreds(ins, list, index, rootlist))
  }

  /** An entry point has no immediate dominator. The one of any other block is right in the graph whose first block
      stands for a root above all entry points. */
  ghost predicate DominatorForest(ins: Adj, list: seq<nat>, index: seq<int>, rootlist: seq<nat>,
                                  immedDom: seq<Option<nat>>)
    requires Numbered(ins, list, index)
  {
    && (forall i :: 0 <= i < |list| ==> list[i] < |immedDom|)
    && forall i :: 0 <= i < |list| ==>
         if list[i] in rootlist then immedDom[list[i]].None?
         else
           && immedDom[list[i]].Some? && Listed(list, index, immedDom[list[i]].value)
           && ImmediateDominator(EntryPreds(ins, list, index, rootlist), index[immedDom[list[i]].value], i)
  }

  lemma OneRootPreds(ins: Adj, list: seq<nat>, index: seq<int>)
    requires Numbered(ins, list, index) && list != []
    ensures TopsOf(list, [list[0]]) == {0} && EntryPreds(ins, list, index, [list[0]]) == PredsOf(ins, list, index)
  {
    forall i: nat | i < |list| && list[i] in [list[0]] ensures i == 0 {
      assert index[list[i]] == i && index[list[0]] == 0;
    }
    OneEntryPoint(PredsOf(ins, list, index));
  }

  /** With one entry point the forest is the dominator tree. */
  lemma OneEntryForest(ins: Adj, list: seq<nat>, index: seq<int>, immedDom: seq<Option<nat>>)
    requires list != [] && Entered(ins, list, index, [list[0]]) &&
               DominatorForest(ins, list, index, [list[0]], immedDom)
    ensures SingleEntry(ins, list, index) && DominatorTree(ins, list, index, immedDom)
  {
    OneRootPreds(ins, list, index);
    assert forall i :: 0 < i < |list| ==> i !in TopsOf(list, [list[0]]);
  }

  /** Which links are right over all paths from all entry points: those of blocks that some other block dominates.
      A block that none does is linked to the first block. */
  lemma LinkIsRight(ins: Adj, list: seq<nat>, index: seq<int>, rootlist: seq<nat>, immedDom: seq<Option<nat>>, i: nat)
    requires Entered(ins, list, index, rootlist) && DominatorForest(ins, list, index, rootlist, immedDom)
    requires i < |list| && list[i] !in rootlist
    ensures immedDom[list[i]].Some? && Listed(list, index, immedDom[list[i]].value)
    ensures var preds, tops, d := PredsOf(ins, list, index), TopsOf(list, rootlist), immedDom[list[i]].value;
      && (ImmediateFrom(preds, tops, index[d], i) <==> exists x: nat :: x != i && DominatesFrom(preds, tops, x, i))
      && ((forall x: nat :: x != i ==> !DominatesFrom(preds, tops, x, i)) ==> d == list[0])
  {
    StandInIsRight(PredsOf(ins, list, index), TopsOf(list, rootlist), index[immedDom[list[i]].value], i);
  }

  /** The in-edges of three blocks, of which 0 and 1 are roots that both lead to 2. */
  const TWO_ROOTS: Adj := [[], [], [Edge(0, {}, 0), Edge(1, {}, 0)]]

  lemma TwoRootPreds()
    ensures Numbered(TWO_ROOTS, [0, 1, 2], [0, 1, 2])
    ensures PredsOf(TWO_ROOTS, [0, 1, 2], [0, 1, 2]) == [[], [], [0, 1]] && TopsOf([0, 1, 2], [0, 1]) == {0, 1}
  {
    hide RpoIndexed;
    assert forall b: nat :: b < 3 ==> Listed([0, 1, 2], [0, 1, 2], b);
    var preds := PredsOf(TWO_ROOTS, [0, 1, 2], [0, 1, 2]);
    assert preds[0] == [] && preds[1] == [] && preds[2] == [0, 1];
  }

  /** Whatever the links are, 2 is linked to 0, although the path from 1 to 2 avoids it. */
  lemma TwoRoots(immedDom: seq<Option<nat>>)
    requires |immedDom| == 3
    ensures Entered(TWO_ROOTS, [0, 1, 2], [0, 1, 2], [0, 1])
    ensures DominatorForest(TWO_ROOTS, [0, 1, 2], [0, 1, 2], [0, 1], immedDom) ==> immedDom[2] == Some(0)
    ensures !DominatesFrom(PredsOf(TWO_ROOTS, [0, 1, 2], [0, 1, 2]), TopsOf([0, 1, 2], [0, 1]), 0, 2)
  {
    TwoRootPreds();
    TwoEntryPoints();
    hide RpoIndexed, Numbered, PredsOf, TopsOf, DominatesFrom;
    assert forall b: nat :: b < 2 ==> Listed([0, 1, 2], [0, 1, 2], [0, 1][b]);
    if DominatorForest(TWO_ROOTS, [0, 1, 2], [0, 1, 2], [0, 1], immedDom) {
      var w := EntryPreds(TWO_ROOTS, [0, 1, 2], [0, 1, 2], [0, 1]);
      assert w[2] == [0, 1] && IsPath(w, [0, 2], 2);
      assert [0, 1, 2][2] == 2 && Listed([0, 1, 2], [0, 1, 2], immedDom[2].value);
      assert ImmediateDominator(w, immedDom[2].value, 2);
    }
  }

  // ---------- from the first links to the last ----------

  /** Only entry points and successors of the root are linked, and all to the root. */
  ghost predicate Started(preds: Preds, list: seq<nat>, index: seq<int>, immedDom: seq<Option<nat>>, root: nat,
                          tops: set<nat>) {
    && |preds| == |list| > 0 && root < |index| && index[root] == 0 && 0 in tops
    && forall i :: 0 <= i < |list| ==>
         && list[i] < |immedDom| && list[i] < |index| && index[list[i]] == i
         && if immedDom[list[i]].None? then i !in tops
            else immedDom[list[i]] == Some(root) && (i == 0 || 0 in preds[i]) && (i in tops || root == list[0])
  }

  /** The links when the iteration starts: none, or those of the successors of the entry. */
  lemma StartInv(preds: Preds, t: Tree)
    requires RpoIndexed(preds) && |t| == |preds|
    requires forall b: nat :: 0 < b < |t| && t[b].Some? ==> t[b] == Some(0) && 0 in preds[b]
    ensures Inv(preds, t, 1)
  {
    forall b: nat | 0 < b < |t| && t[b].Some? ensures Up(t, b) == 0 {}
    forall b: nat, d: nat | 0 < b < |t| && t[b].Some? && d != b && Dominates(preds, d, b)
      ensures Dominates(preds, d, Up(t, b))
    {
      DominatorOfPred(preds, d, b, 0);
    }
    forall b: nat, x: nat | 0 < b < |t| && t[b].Some? && Common(preds, t, b, |preds[b]|, x)
      ensures Above(t, Up(t, b), x)
    {
      var j: nat :| j < |preds[b]| && preds[b][j] == 0;
    }
  }

  lemma StartedLinks(preds: Preds, list: seq<nat>, index: seq<int>, immedDom: seq<Option<nat>>, root: nat,
                     tops: set<nat>) returns (t: Tree)
    requires RpoIndexed(preds) && Started(preds, list, index, immedDom, root, tops)
    ensures Linked(list, index, immedDom, root, tops, t) && Inv(preds, t, 1)
  {
    t := seq(|list|, i requires 0 <= i < |list| => if i > 0 && immedDom[list[i]].Some? then Some(0) else None);
    StartInv(preds, t);
  }

  /** The rows of the blocks that are not entry points are those of the graph before the virtual root was added. */
  lemma RowsOfListed(ins: Adj, more: Adj, list: seq<nat>, index: seq<int>, moreIndex: seq<int>, rootlist: seq<nat>)
    requires Numbered(ins, list, index) && |more| >= |ins| && |moreIndex| >= |index|
    requires forall b :: 0 <= b < |ins| && b !in rootlist ==> more[b] == ins[b]
    requires forall b :: 0 <= b < |index| ==> moreIndex[b] == index[b]
    ensures forall i :: 0 < i < |list| && i !in TopsOf(list, rootlist) ==>
              RowOf(more[list[i]], list, moreIndex, EntryPreds(ins, list, index, rootlist), i)
  {
    var w := EntryPreds(ins, list, index, rootlist);
    forall i | 0 < i < |list| && i !in TopsOf(list, rootlist) ensures RowOf(more[list[i]], list, moreIndex, w, i) {
      forall j | 0 <= j < |ins[list[i]]|
        ensures Listed(list, moreIndex, more[list[i]][j].point) && moreIndex[more[list[i]][j].point] == w[i][j]
      {
        assert Listed(list, index, ins[list[i]][j].point);
      }
    }
  }

  /** The links at the end of the iteration, without those of the entry points. */
  lemma FixpointIsForest(ins: Adj, list: seq<nat>, index: seq<int>, moreIndex: seq<int>, rootlist: seq<nat>,
                         immedDom: seq<Option<nat>>, after: seq<Option<nat>>, root: nat, t: Tree)
    requires Entered(ins, list, index, rootlist) && index <= moreIndex
    requires Linked(list, moreIndex, immedDom, root, TopsOf(list, rootlist), t)
    requires var w := EntryPreds(ins, list, index, rootlist); Inv(w, t, |t|) && Stable(w, t, |t|)
    requires forall i :: 0 <= i < |list| ==>
               list[i] < |after| && after[list[i]] == if list[i] in rootlist then None else immedDom[list[i]]
    ensures DominatorForest(ins, list, index, rootlist, after)
  {
    var w := EntryPreds(ins, list, index, rootlist);
    forall i | 0 <= i < |list| && list[i] !in rootlist
      ensures after[list[i]].Some? && Listed(list, index, after[list[i]].value)
      ensures ImmediateDominator(w, index[after[list[i]].value], i)
    {
      FixpointIsImmediate(w, t, i);
      assert i !in TopsOf(list, rootlist) && t[i] == Some(Up(t, i));
      assert Listed(list, moreIndex, immedDom[list[i]].value);
    }
  }

  /** Every edge that leaves a listed block enters a listed block. */
  ghost predicate TargetsListed(outs: Adj, list: seq<nat>, index: seq<int>) {
    forall i, k :: 0 <= i < |list| && list[i] < |outs| && 0 <= k < |outs[list[i]]| ==>
        Listed(list, index, outs[list[i]][k].point)
  }

  /** b and the first n targets of its out-edges are linked to b, and nothing else changed. */
  ghost predicate SuccessorsLinked(row: seq<Edge>, b: nat, n: nat, before: seq<Option<nat>>, after: seq<Option<nat>>)
    requires n <= |row|
  {
    && |after| == |before|
    && forall x: nat :: x < |after| ==>
         (after[x] == if x == b || exists k :: 0 <= k < n && row[k].point == x then Some(b) else before[x])
  }

  /** Links every successor of the start node b to it. */
  method LinkSuccessors(g: BlockGraph, b: nat)
    requires b < |g.outs| && b < |g.immedDom|
    requires forall k :: 0 <= k < |g.outs[b]| ==> g.outs[b][k].point < |g.immedDom|
    modifies g`immedDom
    ensures SuccessorsLinked(g.outs[b], b, |g.outs[b]|, old(g.immedDom), g.immedDom)
  {
    g.immedDom := g.immedDom[b := Some(b)];
    var i := 0;
    while i < |g.outs[b]|
      invariant 0 <= i <= |g.outs[b]|
      invariant SuccessorsLinked(g.outs[b], b, i, old(g.immedDom), g.immedDom)
    {
      g.immedDom := g.immedDom[g.outs[b][i].point := Some(b)];
      i := i + 1;
    }
  }

  /** Clears the dominator fields and lists the blocks in forward post-order. */
  method ClearLinks(g: BlockGraph) returns (postorder: seq<nat>)
    requires forall i :: 0 <= i < |g.list| ==> g.list[i] < |g.immedDom|
    modifies g`immedDom
    ensures OthersKept(g.list, old(g.immedDom), g.immedDom)
    ensures forall i :: 0 <= i < |g.list| ==> g.immedDom[g.list[i]].None?
    ensures |postorder| == |g.list| && forall k :: 0 <= k < |g.list| ==> postorder[k] == g.list[|g.list| - 1 - k]
  {
    var numnodes := |g.list| - 1;
    postorder := seq(|g.list|, _ => 0);
    var i := 0;
    while i < |g.list|
      invariant 0 <= i <= |g.list| && |postorder| == |g.list|
      invariant OthersKept(g.list, old(g.immedDom), g.immedDom)
      invariant forall k :: 0 <= k < i ==> g.immedDom[g.list[k]].None?
      invariant forall k :: numnodes - i < k < |g.list| ==> postorder[k] == g.list[numnodes - k]
    {
      g.immedDom := g.immedDom[g.list[i] := None];
      postorder := postorder[numnodes - i := g.list[i]];
      i := i + 1;
    }
  }

  function Grow(g: Graph): Graph {
    Graph(g.ins + [[]], g.outs + [[]])
  }

  lemma PairedGrow(g: Graph)
    requires Paired(g)
    ensures Paired(Grow(g))
  {
    var h := Grow(g);
    forall y: nat, i: nat | InSlot(h, y, i) ensures InPaired(h, y, i) {
      assert InPaired(g, y, i);
    }
    forall y: nat, i: nat | OutSlot(h, y, i) ensures OutPaired(h, y, i) {
      assert OutPaired(g, y, i);
    }
  }

  /** An edge from root to every block of the list. */
  ghost function AddAll(g: Graph, root: nat, rootlist: seq<nat>): (h: Graph)
    requires |g.ins| == |g.outs| && root < |g.outs| && forall k :: 0 <= k < |rootlist| ==> rootlist[k] < |g.ins|
    ensures |h.ins| == |h.outs| == |g.ins|
  {
    if rootlist == [] then g
    else AddEdge(AddAll(g, root, rootlist[..|rootlist| - 1]), root, rootlist[|rootlist| - 1], {})
  }

  lemma {:induction false} AddAllRows(g: Graph, root: nat, rootlist: seq<nat>)
    requires Paired(g) && root < |g.outs| && g.outs[root] == [] && forall k :: 0 <= k < |rootlist| ==>
               rootlist[k] < |g.ins|
    ensures var h := AddAll(g, root, rootlist);
      && Paired(h) && |h.outs[root]| == |rootlist|
      && (forall k :: 0 <= k < |rootlist| ==> h.outs[root][k].point == rootlist[k])
      && forall b: nat :: b < |g.ins| && b !in rootlist ==> h.ins[b] == g.ins[b]
  {
    if rootlist != [] {
      var rest, last := rootlist[..|rootlist| - 1], rootlist[|rootlist| - 1];
      AddAllRows(g, root, rest);
      PairedAdd(AddAll(g, root, rest), root, last, {});
      assert rootlist == rest + [last];
    }
  }

  /** A new block without in-edges and with an out-edge to every entry point. */
  method CreateVirtualRoot(g: BlockGraph, rootlist: seq<nat>) returns (root: nat)
    requires Paired(g.G()) && forall k :: 0 <= k < |rootlist| ==> rootlist[k] < |g.ins|
    modifies g`ins, g`outs, g`index, g`immedDom
    ensures root == |old(g.ins)| == |old(g.outs)|
    ensures g.G() == AddAll(Grow(old(g.G())), root, rootlist)
    ensures g.index == old(g.index) + [0] && g.immedDom == old(g.immedDom) + [None]
  {
    PairedGrow(g.G());
    root := |g.ins|;
    g.ins, g.outs, g.index, g.immedDom := g.ins + [[]], g.outs + [[]], g.index + [0], g.immedDom + [None];
    ghost var g1 := g.G();
    hide Paired;
    var i := 0;
    while i < |rootlist|
      invariant 0 <= i <= |rootlist| && g.G() == AddAll(g1, root, rootlist[..i])
      invariant g.index == old(g.index) + [0] && g.immedDom == old(g.immedDom) + [None]
    {
      AddAllRows(g1, root, rootlist[..i]);
      assert rootlist[..i + 1][..i] == rootlist[..i];
      g.AddInEdge(rootlist[i], root, {});
      i := i + 1;
    }
    assert rootlist[..i] == rootlist;
  }

  /** The links to the virtual root are gone, and nothing else has changed. */
  ghost predicate Excised(before: seq<Option<nat>>, after: seq<Option<nat>>, some: seq<nat>, root: nat) {
    && |after| == |before|
    && forall x: nat :: x < |after| ==> after[x] == if x in some && before[x] == Some(root) then None else before[x]
  }

  /** Removes the dominator links to the virtual root. */
  method Excise(g: BlockGraph, postorder: seq<nat>, root: nat)
    requires |g.list| <= |postorder| && forall k :: 0 <= k < |g.list| ==> postorder[k] < |g.immedDom|
    modifies g`immedDom
    ensures Excised(old(g.immedDom), g.immedDom, postorder[..|g.list|], root)
  {
    var i := 0;
    while i < |g.list|
      invariant 0 <= i <= |g.list| && Excised(old(g.immedDom), g.immedDom, postorder[..i], root)
    {
      if g.immedDom[postorder[i]] == Some(root) {
        g.immedDom := g.immedDom[postorder[i] := None];
      }
      i := i + 1;
    }
  }

  lemma UndoLast(g: Graph, root: nat, rootlist: seq<nat>)
    requires Paired(g) && root < |g.outs| && g.outs[root] == [] && rootlist != []
    requires forall k :: 0 <= k < |rootlist| ==> rootlist[k] < |g.ins|
    ensures var h, less := AddAll(g, root, rootlist), AddAll(g, root, rootlist[..|rootlist| - 1]);
      && Paired(h) && OutSlot(h, root, |rootlist| - 1) && OutPaired(h, root, |rootlist| - 1)
      && RemoveOut(h, root, |rootlist| - 1) == less && |less.outs[root]| == |rootlist| - 1
  {
    AddAllRows(g, root, rootlist);
    AddAllRows(g, root, rootlist[..|rootlist| - 1]);
    RemoveUndoesAdd(AddAll(g, root, rootlist[..|rootlist| - 1]), root, rootlist[|rootlist| - 1], {});
  }

  /** Removes the last edge of the virtual root. */
  method DropLast(g: BlockGraph, root: nat, ghost rootlist: seq<nat>, ghost g1: Graph)
    requires Paired(g1) && root < |g1.outs| && g1.outs[root] == [] && rootlist != []
    requires forall k :: 0 <= k < |rootlist| ==> rootlist[k] < |g1.ins|
    requires g.G() == AddAll(g1, root, rootlist)
    modifies g`ins, g`outs
    ensures root < |g.outs| && |g.outs[root]| == |rootlist| - 1
    ensures g.G() == AddAll(g1, root, rootlist[..|rootlist| - 1])
  {
    AddAllRows(g1, root, rootlist);
    UndoLast(g1, root, rootlist);
    hide Paired, AddAll, RemoveOut;
    g.RemoveOutEdge(root, |g.outs[root]| - 1);
  }

  /** Removes the edges of the virtual root, the last one first, and then the root itself. */
  method DropVirtualRoot(g: BlockGraph, root: nat, ghost rootlist: seq<nat>, ghost g0: Graph)
    requires Paired(g0) && root == |g0.ins| && |g.index| == |g.immedDom| == root + 1
    requires forall k :: 0 <= k < |rootlist| ==> rootlist[k] < |g0.ins|
    requires g.G() == AddAll(Grow(g0), root, rootlist)
    modifies g`ins, g`outs, g`index, g`immedDom
    ensures g.G() == g0 && g.index == old(g.index)[..root] && g.immedDom == old(g.immedDom)[..root]
  {
    ghost var g1 := Grow(g0);
    PairedGrow(g0);
    AddAllRows(g1, root, rootlist);
    ghost var n: nat := |rootlist|;
    assert rootlist[..n] == rootlist && AddAll(g1, root, []) == g1;
    hide Paired, AddAll;
    while |g.outs[root]| > 0
      invariant n <= |rootlist| && g.G() == AddAll(g1, root, rootlist[..n])
      invariant root < |g.outs| && |g.outs[root]| == n
      invariant g.index == old(g.index) && g.immedDom == old(g.immedDom)
    {
      assert rootlist[..n][..n - 1] == rootlist[..n - 1];
      DropLast(g, root, rootlist[..n], g1);
      n := n - 1;
    }
    g.ins, g.outs, g.index, g.immedDom := g.ins[..root], g.outs[..root], g.index[..root], g.immedDom[..root];
  }

  /** The links after the successors of a first block without in-edges are filled in. */
  lemma EntryLinks(g: Graph, list: seq<nat>, index: seq<int>, before: seq<Option<nat>>, after: seq<Option<nat>>)
    requires Paired(g) && Numbered(g.ins, list, index) && TargetsListed(g.outs, list, index) && list != []
    requires g.ins[list[0]] == [] && |before| == |g.ins|
    requires forall i :: 0 <= i < |list| ==> before[list[i]].None?
    requires SuccessorsLinked(g.outs[list[0]], list[0], |g.outs[list[0]]|, before, after)
    ensures Started(PredsOf(g.ins, list, index), list, index, after, list[0], {0}) && OthersKept(list, before, after)
  {
    var first, preds := list[0], PredsOf(g.ins, list, index);
    forall i | 0 < i < |list| && after[list[i]].Some? ensures after[list[i]] == Some(first) && 0 in preds[i] {
      assert index[first] != index[list[i]];
      var k :| 0 <= k < |g.outs[first]| && g.outs[first][k].point == list[i];
      assert OutPaired(g, first, k);
      assert preds[i][g.outs[first][k].rev] == 0;
    }
    forall x | 0 <= x < |after| && x !in list ensures after[x] == before[x] {
      assert forall k :: 0 <= k < |g.outs[first]| ==> Listed(list, index, g.outs[first][k].point);
    }
  }

  /** The links after the entry points are linked to the virtual root. */
  lemma VirtualLinks(ins: Adj, list: seq<nat>, index: seq<int>, rootlist: seq<nat>, before: seq<Option<nat>>,
                     after: seq<Option<nat>>, row: seq<Edge>)
    requires Entered(ins, list, index, rootlist) && |before| == |ins| + 1
    requires |row| == |rootlist| && forall k :: 0 <= k < |row| ==> row[k].point == rootlist[k]
    requires forall i :: 0 <= i < |list| ==> before[list[i]].None?
    requires SuccessorsLinked(row, |ins|, |row|, before, after)
    ensures Started(EntryPreds(ins, list, index, rootlist), list, index + [0], after, |ins|, TopsOf(list, rootlist))
    ensures forall x :: 0 <= x < |ins| && x !in list ==> after[x] == before[x]
  {
    var w, tops := EntryPreds(ins, list, index, rootlist), TopsOf(list, rootlist);
    forall i | 0 <= i < |list| ensures after[list[i]] == if i in tops then Some(|ins|) else None {
      if list[i] in rootlist {
        var k :| 0 <= k < |rootlist| && rootlist[k] == list[i];
        assert row[k].point == list[i];
      }
    }
    forall i | 0 < i < |list| && i in tops ensures 0 in w[i] { assert w[i][|PredsOf(ins, list, index)[i]|] == 0; }
    forall x | 0 <= x < |ins| && x !in list ensures after[x] == before[x] {
      forall k | 0 <= k < |row| ensures row[k].point != x { assert Listed(list, index, rootlist[k]); }
    }
  }

  /** The iteration below a virtual root starts with the entry points linked to it. */
  lemma VirtualStart(g: Graph, h: Graph, list: seq<nat>, index: seq<int>, rootlist: seq<nat>,
                     before: seq<Option<nat>>, after: seq<Option<nat>>, postorder: seq<nat>) returns (t: Tree)
    requires Paired(g) && Entered(g.ins, list, index, rootlist)
    requires (forall k :: 0 <= k < |rootlist| ==> rootlist[k] < |g.ins|) && h == AddAll(Grow(g), |g.ins|, rootlist)
    requires |before| == |g.ins| && forall i :: 0 <= i < |list| ==> before[list[i]].None?
    requires |h.outs[|g.ins|]| == |rootlist| &&
               SuccessorsLinked(h.outs[|g.ins|], |g.ins|, |rootlist|, before + [None], after)
    requires |postorder| == |list| && forall k :: 0 <= k < |list| ==> postorder[k] == list[|list| - 1 - k]
    ensures var w, tops := EntryPreds(g.ins, list, index, rootlist), TopsOf(list, rootlist);
      && Linked(list, index + [0], after, |g.ins|, tops, t) && Inv(w, t, 1)
      && Prepared(h.ins, list, index + [0], postorder + [|g.ins|], |list| - 1, |g.ins|, w, tops)
    ensures forall x :: 0 <= x < |g.ins| && x !in list ==> after[x] == before[x]
  {
    PairedGrow(g);
    AddAllRows(Grow(g), |g.ins|, rootlist);
    hide Paired, AddAll;
    VirtualLinks(g.ins, list, index, rootlist, before + [None], after, h.outs[|g.ins|]);
    t := StartedLinks(EntryPreds(g.ins, list, index, rootlist), list, index + [0], after, |g.ins|,
                      TopsOf(list, rootlist));
    RowsOfListed(g.ins, h.ins, list, index, index + [0], rootlist);
  }

  lemma PostOrderLists(list: seq<nat>, postorder: seq<nat>)
    requires |postorder| == |list| && forall k :: 0 <= k < |list| ==> postorder[k] == list[|list| - 1 - k]
    ensures forall x: nat :: x in postorder <==> x in list
  {
    forall x: nat | x in list ensures x in postorder {
      var i :| 0 <= i < |list| && list[i] == x;
      assert postorder[|list| - 1 - i] == x;
    }
  }

  lemma SameSize(before: seq<Option<nat>>, after: seq<Option<nat>>, some: seq<nat>, root: nat)
    requires Excised(before, after, some, root)
    ensures |after| == |before|
  {
  }

  /** Taking out the links to the virtual root takes out those of the entry points. */
  lemma VirtualEnd(ins: Adj, list: seq<nat>, index: seq<int>, rootlist: seq<nat>, dom0: seq<Option<nat>>,
                   before: seq<Option<nat>>, after: seq<Option<nat>>, postorder: seq<nat>, t: Tree)
    requires Entered(ins, list, index, rootlist) && |before| == |ins| + 1 == |dom0| + 1
    requires Linked(list, index + [0], before, |ins|, TopsOf(list, rootlist), t)
    requires var w := EntryPreds(ins, list, index, rootlist); Inv(w, t, |t|) && Stable(w, t, |t|)
    requires |postorder| == |list| && forall k :: 0 <= k < |list| ==> postorder[k] == list[|list| - 1 - k]
    requires Excised(before, after, postorder[..|list|], |ins|)
    requires forall x :: 0 <= x < |ins| && x !in list ==> before[x] == dom0[x]
    ensures DominatorForest(ins, list, index, rootlist, after[..|ins|]) && OthersKept(list, dom0, after[..|ins|])
  {
    PostOrderLists(list, postorder);
    assert postorder[..|list|] == postorder;
    var final := after[..|ins|];
    forall i | 0 <= i < |list| ensures final[list[i]] == if list[i] in rootlist then None else before[list[i]] {
      assert list[i] in postorder && (list[i] in rootlist <==> i in TopsOf(list, rootlist));
      assert !Listed(list, index + [0], |ins|);
    }
    FixpointIsForest(ins, list, index, index + [0], rootlist, before, final, |ins|, t);
  }

  /** The case of one entry point without in-edges, which is its own root during the call. */
  method FromFirstBlock(g: BlockGraph, postorder: seq<nat>)
    requires Paired(g.G()) && g.list != [] && Entered(g.ins, g.list, g.index, [g.list[0]])
    requires TargetsListed(g.outs, g.list, g.index) && |g.immedDom| == |g.ins| && g.ins[g.list[0]] == []
    requires |postorder| == |g.list| && forall k :: 0 <= k < |g.list| ==> postorder[k] == g.list[|g.list| - 1 - k]
    requires forall i :: 0 <= i < |g.list| ==> g.immedDom[g.list[i]].None?
    modifies g`immedDom
    ensures OthersKept(g.list, old(g.immedDom), g.immedDom)
    ensures DominatorForest(g.ins, g.list, g.index, [g.list[0]], g.immedDom)
  {
    ghost var preds := PredsOf(g.ins, g.list, g.index);
    OneRootPreds(g.ins, g.list, g.index);
    var b := postorder[|postorder| - 1];
    LinkSuccessors(g, b);
    EntryLinks(g.G(), g.list, g.index, old(g.immedDom), g.immedDom);
    ghost var t := StartedLinks(preds, g.list, g.index, g.immedDom, b, {0});
    RowsOfListed(g.ins, g.ins, g.list, g.index, g.index, [b]);
    g.immedDom, t := Iterate(g.ins, g.list, g.index, g.immedDom, postorder, |g.list| - 1, b, preds, {0}, t);
    ghost var dom1 := g.immedDom;
    g.immedDom := g.immedDom[b := None];
    FixpointIsForest(g.ins, g.list, g.index, g.index, [b], dom1, g.immedDom, b, t);
  }

  /** The iteration below a virtual root. */
  method RunBelow(g: BlockGraph, postorder: seq<nat>, root: nat, ghost rootlist: seq<nat>, ghost g0: Graph,
                  ghost index0: seq<int>, ghost dom0: seq<Option<nat>>)
    returns (ghost t: Tree)
    requires Paired(g0) && Entered(g0.ins, g.list, index0, rootlist) && root == |g0.ins| == |dom0|
    requires (forall k :: 0 <= k < |rootlist| ==> rootlist[k] < root) && g.G() == AddAll(Grow(g0), root, rootlist)
    requires g.index == index0 + [0] && g.immedDom == dom0 + [None]
    requires |postorder| == |g.list| && forall k :: 0 <= k < |g.list| ==> postorder[k] == g.list[|g.list| - 1 - k]
    requires forall i :: 0 <= i < |g.list| ==> dom0[g.list[i]].None?
    modifies g`immedDom
    ensures |g.immedDom| == root + 1 && Linked(g.list, g.index, g.immedDom, root, TopsOf(g.list, rootlist), t)
    ensures var w := EntryPreds(g0.ins, g.list, index0, rootlist); Inv(w, t, |t|) && Stable(w, t, |t|)
    ensures forall x :: 0 <= x < root && x !in g.list ==> g.immedDom[x] == dom0[x]
  {
    ghost var preds, tops := EntryPreds(g0.ins, g.list, index0, rootlist), TopsOf(g.list, rootlist);
    PairedGrow(g0);
    AddAllRows(Grow(g0), root, rootlist);
    hide AddAll, EntryPreds, Entered, Linked, Inv, Stable, Prepared, Paired, SuccessorsLinked, TopsOf;
    LinkSuccessors(g, root);
    t := VirtualStart(g0, g.G(), g.list, index0, rootlist, dom0, g.immedDom, postorder);
    g.immedDom, t := Iterate(g.ins, g.list, g.index, g.immedDom, postorder + [root], |g.list| - 1, root, preds, tops,
        t);
  }

  /** Otherwise a virtual root is put above the entry points for the duration of the call. */
  method FromVirtualRoot(g: BlockGraph, postorder: seq<nat>, rootlist: seq<nat>)
    requires Paired(g.G()) && Entered(g.ins, g.list, g.index, rootlist) && |g.immedDom| == |g.ins|
    requires |postorder| == |g.list| && forall k :: 0 <= k < |g.list| ==> postorder[k] == g.list[|g.list| - 1 - k]
    requires forall i :: 0 <= i < |g.list| ==> g.immedDom[g.list[i]].None?
    modifies g`ins, g`outs, g`index, g`immedDom
    ensures g.ins == old(g.ins) && g.outs == old(g.outs) && g.index == old(g.index)
    ensures OthersKept(g.list, old(g.immedDom), g.immedDom)
    ensures DominatorForest(g.ins, g.list, g.index, rootlist, g.immedDom)
  {
    ghost var g0, index0, dom0 := g.G(), g.index, g.immedDom;
    assert forall k :: 0 <= k < |rootlist| ==> Listed(g.list, g.index, rootlist[k]);
    hide Paired, AddAll, EntryPreds, Entered, Linked, Inv, Stable, DominatorForest, TopsOf, Grow, Excised, OthersKept;
    var root := CreateVirtualRoot(g, rootlist);
    ghost var t := RunBelow(g, postorder, root, rootlist, g0, index0, dom0);
    ghost var dom1 := g.immedDom;
    Excise(g, postorder, root);
    ghost var dom2 := g.immedDom;
    SameSize(dom1, dom2, postorder[..|g.list|], root);
    DropVirtualRoot(g, root, rootlist, g0);
    VirtualEnd(g0.ins, g.list, index0, rootlist, dom0, dom1, dom2, postorder, t);
  }

  /** The immediate dominators. A virtual root is put above several entry points, or in front of a first block that has
      in-edges, for the duration of the call. Its index is 0 like that of the first block. */
  method CalcForwardDominator(g: BlockGraph, rootlist: seq<nat>)
    requires Paired(g.G()) && Numbered(g.ins, g.list, g.index) && TargetsListed(g.outs, g.list, g.index)
    requires |g.immedDom| == |g.ins| && (g.list != [] ==> Entered(g.ins, g.list, g.index, rootlist))
    modifies g`ins, g`outs, g`index, g`immedDom
    ensures g.ins == old(g.ins) && g.outs == old(g.outs) && g.index == old(g.index)
    ensures OthersKept(g.list, old(g.immedDom), g.immedDom)
    ensures DominatorForest(g.ins, g.list, g.index, rootlist, g.immedDom)
  {
    if |g.list| == 0 { return; }
    var postorder := ClearLinks(g);
    if |rootlist| > 1 || |g.ins[postorder[|postorder| - 1]]| != 0 {
      FromVirtualRoot(g, postorder, rootlist);
    } else {
      assert rootlist == [g.list[0]];
      FromFirstBlock(g, postorder);
    }
  }
}
