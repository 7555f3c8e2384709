/** BlockGraph::findSpanningTree: the depth-first search from the entry blocks. */
module SpanningTree {

  import opened Wrappers
  import opened Flow
  import opened Forest
  import opened RootOrder
  import opened EntryLists

  /** The search state d is what the fields of g and the local lists hold. */
  ghost predicate Holds(g: BlockGraph, d: Dfs, preorder: seq<nat>, state: seq<nat>, istate: seq<nat>,
                        rpostorder: seq<nat>, rpostcount: int)
    reads g
  {
    && d.outs == g.outs && d.visit == g.visitCount && d.index == g.index && d.num == g.numDesc
    && d.pre == preorder && d.st == state && d.rpost == rpostorder && d.low == rpostcount
    && |istate| == |state| && forall j :: 0 <= j < |state| ==> state[j] < |d.next| && istate[j] == d.next[state[j]]
  }

  /** The edges are those of g0 up to their flags, and both halves of each have the same flags. */
  ghost predicate EdgesKept(g0: Graph, h: Graph, comp: set<nat>) {
    Paired(h) && FlagsMatch(h, comp) && SameEnds(g0.ins, h.ins) && SameEnds(g0.outs, h.outs)
  }

  lemma LabelKeepsEdges(g0: Graph, h: Graph, comp: set<nat>, b: nat, k: nat, add: set<EdgeFlag>)
    requires EdgesKept(g0, h, comp) && OutSlot(h, b, k)
    ensures EdgesKept(g0, Relabel(h, b, k, add, {}), comp)
  {
    RelabelKeeps(h, b, k, add, {}, comp);
    PairedRelabel(h, b, k, add, {});
    SameEndsTransitive(g0.ins, h.ins, Relabel(h, b, k, add, {}).ins);
    SameEndsTransitive(g0.outs, h.outs, Relabel(h, b, k, add, {}).outs);
  }

  /** Labels an edge that has no flags yet. */
  method LabelEdge(g: BlockGraph, flags: set<EdgeFlag>, ghost d: Dfs, ghost g0: Graph, ghost comp: set<nat>, b: nat,
                   k: nat)
    requires EdgesKept(g0, g.G(), comp) && MoreEdges(d) && d.outs == g.outs && b == Top(d) && k == d.next[b]
    requires d.outs[b][k].flags == {}
    modifies g`ins, g`outs
    ensures EdgesKept(g0, g.G(), comp) && g.outs == LabelTop(d, flags).outs
  {
    assert {} + flags - {} == flags;
    LabelKeepsEdges(g0, g.G(), comp, b, k, flags);
    g.SetOutEdgeFlag(b, k, flags);
  }

  /** The top block has no more out-edges: it gets its post-order index and adds its descendants to its parent. */
  method FinishTop(g: BlockGraph, state0: seq<nat>, istate0: seq<nat>, rpostorder0: seq<nat>, rpostcount0: int,
                   preorder: seq<nat>, ghost d: Dfs)
    returns (state: seq<nat>, istate: seq<nat>, rpostorder: seq<nat>, rpostcount: int)
    requires Holds(g, d, preorder, state0, istate0, rpostorder0, rpostcount0)
    requires |state0| > 0 && Top(d) < |d.index| && Top(d) < |d.num| && 0 < d.low <= |d.rpost|
    requires |d.st| > 1 ==> d.st[|d.st| - 2] < |d.num|
    modifies g`index, g`numDesc
    ensures Holds(g, Leave(d), preorder, state, istate, rpostorder, rpostcount)
  {
    var curbl := state0[|state0| - 1];
    state, istate := state0[..|state0| - 1], istate0[..|istate0| - 1];
    rpostcount := rpostcount0 - 1;
    g.index := g.index[curbl := rpostcount];
    rpostorder := rpostorder0[rpostcount := curbl];
    if |state| > 0 {
      g.numDesc := g.numDesc[state[|state| - 1] := g.numDesc[state[|state| - 1]] + g.numDesc[curbl]];
    }
  }

  /** A block is entered: it is numbered in pre-order and put on the stack. */
  method EnterBlock(g: BlockGraph, b: nat, preorder0: seq<nat>, state0: seq<nat>, istate0: seq<nat>,
                    rpostorder: seq<nat>, rpostcount: int, ghost d: Dfs, ghost par: Option<(nat, nat)>)
    returns (preorder: seq<nat>, state: seq<nat>, istate: seq<nat>)
    requires Holds(g, d, preorder0, state0, istate0, rpostorder, rpostcount)
    requires b < |d.visit| && b < |d.num| && b < |d.par| && b < |d.next| && d.next[b] == 0
    modifies g`visitCount, g`numDesc
    ensures Holds(g, Enter(d, b, par), preorder, state, istate, rpostorder, rpostcount)
  {
    state, istate := state0 + [b], istate0 + [0];
    g.visitCount := g.visitCount[b := |preorder0|];
    preorder := preorder0 + [b];
    g.numDesc := g.numDesc[b := 1];
  }

  /** The next out-edge of the top block is labelled, and its target entered if it has not been seen.
      The search starts by clearing all edge flags, so no edge is skipped as irreducible. */
  method FollowEdge(g: BlockGraph, preorder0: seq<nat>, state0: seq<nat>, istate0: seq<nat>, rpostorder: seq<nat>,
                    rpostcount: int,
                    ghost d: Dfs, ghost g0: Graph, ghost comp: set<nat>)
    returns (preorder: seq<nat>, state: seq<nat>, istate: seq<nat>)
    requires Holds(g, d, preorder0, state0, istate0, rpostorder, rpostcount) && EdgesKept(g0, g.G(), comp)
    requires MoreEdges(d) && |d.visit| == |d.index| == |d.num| == |d.par| == |d.next| && Top(d) < |d.visit| &&
               Child(d) < |d.visit|
    requires d.outs[Top(d)][d.next[Top(d)]].flags == {}
    requires forall j :: 0 <= j < |d.st| - 1 ==> d.st[j] != Top(d)
    requires d.visit[Child(d)] == -1 ==> Child(d) != Top(d) && d.next[Child(d)] == 0
    modifies g`ins, g`outs, g`visitCount, g`numDesc
    ensures Holds(g, Follow(d), preorder, state, istate, rpostorder, rpostcount) && EdgesKept(g0, g.G(), comp)
  {
    preorder, state := preorder0, state0;
    var curbl := state[|state| - 1];
    var edgenum := istate0[|istate0| - 1];
    istate := istate0[|istate0| - 1 := edgenum + 1];
    var childbl := g.outs[curbl][edgenum].point;
    if g.visitCount[childbl] == -1 {
      LabelEdge(g, {TreeEdge}, d, g0, comp, curbl, edgenum);
      preorder, state, istate := EnterBlock(g, childbl, preorder, state, istate, rpostorder, rpostcount,
                                            LabelTop(d, {TreeEdge}), Some((curbl, edgenum)));
    } else if g.index[childbl] == -1 {
      LabelEdge(g, BACK, d, g0, comp, curbl, edgenum);
    } else if g.visitCount[curbl] < g.visitCount[childbl] {
      LabelEdge(g, {ForwardEdge}, d, g0, comp, curbl, edgenum);
    } else {
      LabelEdge(g, {CrossEdge}, d, g0, comp, curbl, edgenum);
    }
  }

  /** Searches everything below one start block. */
  method Walk(g: BlockGraph, startbl: nat, preorder0: seq<nat>, rpostorder0: seq<nat>, rpostcount0: int,
              ghost d0: Dfs, ghost comp: set<nat>, ghost roots: set<nat>, ghost g0: Graph)
    returns (preorder: seq<nat>, rpostorder: seq<nat>, rpostcount: int, ghost d: Dfs)
    requires Holds(g, d0, preorder0, [], [], rpostorder0, rpostcount0) && EdgesKept(g0, g.G(), comp)
    requires Inv(d0, comp, roots) && startbl in comp && startbl in roots && !Seen(d0.visit, startbl)
    modifies g`ins, g`outs, g`visitCount, g`index, g`numDesc
    ensures Holds(g, d, preorder, [], [], rpostorder, rpostcount) && EdgesKept(g0, g.G(), comp)
    ensures Inv(d, comp, roots) && d0.pre + [startbl] <= d.pre
  {
    hide Inv;
    preorder, rpostorder, rpostcount, d := preorder0, rpostorder0, rpostcount0, d0;
    var state, istate := [], [];
    EnterRoot(d0, comp, roots, startbl);
    UnseenUntouched(d0, comp, roots, startbl);
    preorder, state, istate := EnterBlock(g, startbl, preorder, state, istate, rpostorder, rpostcount, d, None);
    d := Enter(d, startbl, None);
    while |state| > 0
      invariant Holds(g, d, preorder, state, istate, rpostorder, rpostcount) && EdgesKept(g0, g.G(), comp)
      invariant Inv(d, comp, roots) && d0.pre + [startbl] <= d.pre
      decreases |comp| - |d.pre|, |d.st|, Unfollowed(d)
    {
      StepKeeps(d, comp, roots);
      TopFacts(d, comp, roots);
      if |g.outs[state[|state| - 1]]| <= istate[|istate| - 1] {
        state, istate, rpostorder, rpostcount := FinishTop(g, state, istate, rpostorder, rpostcount, preorder, d);
        d := Leave(d);
      } else {
        preorder, state, istate := FollowEdge(g, preorder, state, istate, rpostorder, rpostcount, d, g0, comp);
        d := Follow(d);
      }
    }
  }

  lemma UnseenUntouched(d: Dfs, comp: set<nat>, roots: set<nat>, b: nat)
    requires Inv(d, comp, roots) && b in comp && !Seen(d.visit, b)
    ensures b < |d.visit| && b < |d.num| && b < |d.par| && b < |d.next| && d.next[b] == 0
  {
  }

  // ---------- preparing a search ----------

  function ClearedRow(row: seq<Edge>, mask: set<EdgeFlag>): seq<Edge> {
    seq(|row|, i requires 0 <= i < |row| => row[i].(flags := row[i].flags - mask))
  }

  method ClearRow(row: seq<Edge>, mask: set<EdgeFlag>) returns (after: seq<Edge>)
    ensures after == ClearedRow(row, mask)
  {
    after := row;
    var i := 0;
    while i < |after|
      invariant 0 <= i <= |after| == |row|
      invariant forall k :: 0 <= k < i ==> after[k] == row[k].(flags := row[k].flags - mask)
      invariant forall k :: i <= k < |row| ==> after[k] == row[k]
    {
      after := after[i := after[i].(flags := after[i].flags - mask)];
      i := i + 1;
    }
  }

  /** The flags of mask are cleared on every edge half of the component blocks. */
  method ClearEdgeFlags(g: BlockGraph, mask: set<EdgeFlag>)
    requires forall i :: 0 <= i < |g.list| ==> g.list[i] < |g.ins| == |g.outs|
    requires forall i, j :: 0 <= i < j < |g.list| ==> g.list[i] != g.list[j]
    modifies g`ins, g`outs
    ensures |g.ins| == |old(g.ins)| && |g.outs| == |old(g.outs)|
    ensures forall b: nat :: b < |g.ins| ==> g.ins[b] == if b in g.list then ClearedRow(old(g.ins[b]), mask)
              else old(g.ins[b])
    ensures forall b: nat :: b < |g.outs| ==> g.outs[b] == if b in g.list then ClearedRow(old(g.outs[b]), mask)
              else old(g.outs[b])
  {
    var j := 0;
    while j < |g.list|
      invariant 0 <= j <= |g.list| && |g.ins| == |old(g.ins)| && |g.outs| == |old(g.outs)|
      invariant forall b: nat :: b < |g.ins| ==> g.ins[b] == if b in g.list[..j] then ClearedRow(old(g.ins[b]), mask)
                  else old(g.ins[b])
      invariant forall b: nat :: b < |g.outs| ==> g.outs[b] == if b in g.list[..j] then ClearedRow(old(g.outs[b]), mask)
                  else old(g.outs[b])
    {
      var bl := g.list[j];
      assert bl !in g.list[..j] && g.list[..j + 1] == g.list[..j] + [bl];
      var row := ClearRow(g.ins[bl], mask);
      g.ins := g.ins[bl := row];
      row := ClearRow(g.outs[bl], mask);
      g.outs := g.outs[bl := row];
      j := j + 1;
    }
    assert g.list[..j] == g.list;
  }

  const ALL_FLAGS: set<EdgeFlag> := {GotoEdge, LoopEdge, DefaultSwitch, IrreducibleEdge, TreeEdge, ForwardEdge,
      CrossEdge, BackEdge, LoopExit}

  /** With all flags cleared the edges are the same and no component edge has a flag. */
  lemma ClearedAll(g: Graph, h: Graph, list: seq<nat>, comp: set<nat>)
    requires Paired(g) && |h.ins| == |g.ins| && |h.outs| == |g.outs|
    requires comp == (set i | 0 <= i < |list| :: list[i]) && Closed(g.outs, comp) && Closed(g.ins, comp)
    requires forall b: nat :: b < |g.ins| ==> h.ins[b] == if b in list then ClearedRow(g.ins[b], ALL_FLAGS)
               else g.ins[b]
    requires forall b: nat :: b < |g.outs| ==> h.outs[b] == if b in list then ClearedRow(g.outs[b], ALL_FLAGS)
               else g.outs[b]
    ensures EdgesKept(g, h, comp)
    ensures forall b: nat, k: nat :: b in comp && k < |h.outs[b]| ==> h.outs[b][k].flags == {}
  {
    forall f: EdgeFlag ensures f in ALL_FLAGS {
      assert f.GotoEdge? || f.LoopEdge? || f.DefaultSwitch? || f.IrreducibleEdge? || f.TreeEdge? || f.ForwardEdge? ||
             f.CrossEdge? || f.BackEdge? || f.LoopExit?;
    }
    assert forall s: set<EdgeFlag> :: s - ALL_FLAGS == {};
    SameEndsPaired(g, h);
    forall b: nat, i: nat | b in comp && InSlot(h, b, i) && OutSlot(h, h.ins[b][i].point, h.ins[b][i].rev)
      ensures h.ins[b][i].flags == h.outs[h.ins[b][i].point][h.ins[b][i].rev].flags
    {
      assert g.ins[b][i].point in comp;
      assert InPaired(g, b, i);
    }
  }

  // ---------- one attempt over all roots ----------

  ghost function SeenBlocks(visit: seq<int>, comp: set<nat>): set<nat> {
    set b | b in comp && Seen(visit, b)
  }

  /** Between two roots everything reachable from a seen block has been seen. */
  lemma SeenIsClosed(d: Dfs, comp: set<nat>, roots: set<nat>)
    requires Inv(d, comp, roots) && d.st == []
    ensures ClosedSet(d.outs, SeenBlocks(d.visit, comp))
  {
    hide RootsApart, Widths, PreOrder, PostOrder;
    forall b: nat, k: nat | b in comp && Seen(d.visit, b) && k < |d.outs[b]|
      ensures d.outs[b][k].point in comp && Seen(d.visit, d.outs[b][k].point)
    {
      assert Finished(d.index, b);
      assert EdgeOk(d.visit, d.index, d.num, d.par, comp, b, k, d.outs[b][k].point, d.outs[b][k].flags);
    }
  }

  lemma SameEndsClosed(a: Adj, b: Adj, some: set<nat>)
    requires SameEnds(a, b) && ClosedSet(b, some)
    ensures ClosedSet(a, some)
  {
  }

  /** When the given roots cover everything and are all seen, the search is complete. */
  lemma CoveredMeansDone(d: Dfs, comp: set<nat>, roots: set<nat>, outs0: Adj, covering: set<nat>)
    requires Inv(d, comp, roots) && d.st == [] && SameEnds(outs0, d.outs)
    requires Covers(outs0, comp, covering) && covering <= SeenBlocks(d.visit, comp)
    ensures |d.pre| == |comp|
  {
    SeenIsClosed(d, comp, roots);
    SameEndsClosed(outs0, d.outs, SeenBlocks(d.visit, comp));
    assert comp <= SeenBlocks(d.visit, comp);
    AllSeenCount(d.visit, d.pre, comp);
  }

  lemma AllSeenCount(visit: seq<int>, pre: seq<nat>, comp: set<nat>)
    requires (forall b :: b in comp ==> b < |visit|) && PreOrder(visit, pre, comp) && comp <= SeenBlocks(visit, comp)
    ensures |pre| == |comp|
  {
    SetOfDistinct(pre);
    assert Elements(pre) == comp by {
      forall b | b in comp ensures b in Elements(pre) {
        assert Seen(visit, b) && pre[visit[b]] == b;
      }
    }
  }

  lemma {:induction false} SetOfDistinct(s: seq<nat>)
    requires forall i, j :: 0 <= i < j < |s| ==> s[i] != s[j]
    ensures |Elements(s)| == |s|
  {
    if |s| > 0 {
      var t := s[..|s| - 1];
      SetOfDistinct(t);
      assert Elements(s) == Elements(t) + {s[|s| - 1]};
    }
  }

  /** The roots of a complete search cover everything. */
  lemma RootsCover(d: Dfs, comp: set<nat>, roots: set<nat>, outs0: Adj)
    requires Inv(d, comp, roots) && d.st == [] && |d.pre| == |comp| && SameEnds(outs0, d.outs)
    ensures Covers(outs0, comp, roots)
  {
    SearchFinished(d, comp, roots);
    forall some: set<nat> | roots <= some && ClosedSet(outs0, some) ensures comp <= some {
      forall b | b in comp ensures b in some { ReachedFromRoot(d, comp, roots, outs0, some, b); }
    }
  }

  lemma {:induction false} ReachedFromRoot(d: Dfs, comp: set<nat>, roots: set<nat>, outs0: Adj, some: set<nat>, b: nat)
    requires SpanningForest(d.outs, d.rpost, TablesOf(d, comp), roots) &&
               SameEnds(outs0, d.outs)
    requires roots <= some && ClosedSet(outs0, some) && b in comp
    ensures b in some
    decreases d.visit[b]
  {
    if d.par[b].Some? {
      var (u, k) := d.par[b].value;
      assert Labelled(TablesOf(d, comp), u, k, d.outs[u][k].point, d.outs[u][k].flags);
      ReachedFromRoot(d, comp, roots, outs0, some, u);
    }
  }

  lemma MoreRoots(d: Dfs, comp: set<nat>, roots: set<nat>, more: set<nat>)
    requires Inv(d, comp, roots) && roots <= more
    ensures Inv(d, comp, more)
  {
    hide RootsApart, Nested, Widths, PreOrder, PostOrder, Labels, Stack;
  }

  /** The entry at position i is slid out of the list. */
  method SlideOut(rootlist0: seq<nat>, i: nat) returns (rootlist: seq<nat>)
    requires i < |rootlist0|
    ensures rootlist == RemoveAt(rootlist0, i)
  {
    rootlist := rootlist0;
    var j := i + 1;
    while j < |rootlist|
      invariant i < j <= |rootlist| == |rootlist0|
      invariant rootlist == rootlist0[..i] + rootlist0[i + 1..j] + rootlist0[j - 1..]
    {
      rootlist := rootlist[j - 1 := rootlist[j]];
      j := j + 1;
    }
    rootlist := rootlist[..|rootlist| - 1];
  }

  /** The next root that has not been seen; listed roots already seen are dropped from the list. */
  method NextRoot(visitCount: seq<int>, rootlist0: seq<nat>, rootindex0: nat)
    returns (rootlist: seq<nat>, rootindex: nat, startbl: Option<nat>, ghost dropped: nat)
    requires rootindex0 <= |rootlist0| && forall i :: 0 <= i < |rootlist0| ==> rootlist0[i] < |visitCount|
    ensures rootindex0 + dropped <= |rootlist0|
    ensures rootlist == rootlist0[..rootindex0] + rootlist0[rootindex0 + dropped..]
    ensures forall i :: rootindex0 <= i < rootindex0 + dropped ==> visitCount[rootlist0[i]] != -1
    ensures if startbl.None? then rootindex0 + dropped == |rootlist0| && rootindex == rootindex0
            else rootindex == rootindex0 + 1 <= |rootlist| && startbl.value == rootlist[rootindex0] &&
                 visitCount[startbl.value] == -1
  {
    rootlist, rootindex, startbl, dropped := rootlist0, rootindex0, None, 0;
    while rootindex < |rootlist|
      invariant rootindex == rootindex0 <= |rootlist| && startbl.None?
      invariant rootindex0 + dropped <= |rootlist0|
      invariant rootlist == rootlist0[..rootindex0] + rootlist0[rootindex0 + dropped..]
      invariant forall i :: rootindex0 <= i < rootindex0 + dropped ==> visitCount[rootlist0[i]] != -1
      decreases |rootlist|
    {
      var candidate := rootlist[rootindex];
      assert candidate == rootlist0[rootindex0 + dropped];
      if visitCount[candidate] == -1 {
        startbl := Some(candidate);
        rootindex := rootindex + 1;
        break;
      }
      rootlist := SlideOut(rootlist, rootindex);
      dropped := dropped + 1;
    }
  }

  /** b is the first block of the list that has not been seen. */
  ghost predicate FirstNotSeen(visit: seq<int>, list: seq<nat>, b: nat) {
    exists n :: 0 <= n < |list| && list[n] == b && forall m :: 0 <= m < n ==> Seen(visit, list[m])
  }

  method FirstUnseen(visitCount: seq<int>, list: seq<nat>, ghost pre: seq<nat>, ghost comp: set<nat>)
                     returns (startbl: nat)
    requires comp == Elements(list) && (forall b :: b in comp ==> b < |visitCount|)
    requires PreOrder(visitCount, pre, comp) && |pre| < |comp|
    ensures startbl in comp && !Seen(visitCount, startbl) && FirstNotSeen(visitCount, list, startbl)
  {
    assert !(comp <= SeenBlocks(visitCount, comp)) by {
      if comp <= SeenBlocks(visitCount, comp) { AllSeenCount(visitCount, pre, comp); }
    }
    assert forall i :: 0 <= i < |list| ==> list[i] in comp;
    ghost var missing :| missing in comp && !Seen(visitCount, missing);
    ghost var at :| 0 <= at < |list| && list[at] == missing;
    var i := 0;
    while visitCount[list[i]] != -1
      invariant 0 <= i <= at && forall m :: 0 <= m < i ==> Seen(visitCount, list[m])
      decreases |list| - i
    {
      assert list[i] in comp;
      i := i + 1;
    }
    startbl := list[i];
  }

  /** Entry blocks as the search is first given them: distinct blocks without in-edges, or one block. */
  ghost predicate FreshRoots(ins: Adj, rootlist: seq<nat>) {
    && (forall i, j :: 0 <= i < j < |rootlist| ==> rootlist[i] != rootlist[j])
    && (|rootlist| == 1 || forall i :: 0 <= i < |rootlist| && rootlist[i] < |ins| ==> ins[rootlist[i]] == [])
  }

  /** A seen block that is not a root has an in-edge. */
  lemma SeenBelowRoot(d: Dfs, comp: set<nat>, roots: set<nat>, g0: Graph, b: nat)
    requires Inv(d, comp, roots) && Paired(g0) && SameEnds(g0.outs, d.outs) && b in comp && Seen(d.visit, b) &&
               b !in roots
    ensures b < |g0.ins| && g0.ins[b] != []
  {
    hide RootsApart, Nested, Widths, PreOrder, PostOrder, Labels, Stack;
    var (u, k) := d.par[b].value;
    assert OutSlot(g0, u, k) && OutPaired(g0, u, k);
  }

  /** The next root of a list is the first one not seen. */
  ghost predicate SkipsTo(visit: seq<int>, rest: seq<nat>, startbl: nat, after: seq<nat>) {
    exists n :: 0 <= n < |rest| && rest[n] == startbl && after == rest[n + 1..] && forall i :: 0 <= i < n ==>
        Seen(visit, rest[i])
  }

  /** The root list of an attempt: the roots given, the list as it is, how many of it have been started, and whether
      one had to be added. */
  datatype RootList = RootList(given: seq<nat>, rootlist: seq<nat>, rootindex: nat, extraroots: bool)

  /** The list after startbl is picked: a listed root not yet seen, or an extra one. */
  ghost predicate Picked(visit: seq<int>, comp: set<nat>, was: RootList, now: RootList, startbl: nat, extra: bool) {
    && now.given == was.given && now.extraroots == (was.extraroots || extra)
    && startbl in comp && !Seen(visit, startbl) && was.rootindex < now.rootindex <= |now.rootlist|
    && was.rootindex <= |was.rootlist| && now.rootlist[..now.rootindex] == was.rootlist[..was.rootindex] + [startbl]
    && (if extra then
        Elements(now.rootlist) <= comp &&
        forall i :: was.rootindex <= i < |was.rootlist| ==> Seen(visit, was.rootlist[i])
      else
        && Elements(now.rootlist) <= Elements(was.rootlist) && |now.rootlist| <= |was.rootlist|
        && SkipsTo(visit, was.rootlist[was.rootindex..], startbl, now.rootlist[now.rootindex..])
        && forall i :: was.rootindex <= i < |was.rootlist| ==>
           Seen(visit, was.rootlist[i]) || was.rootlist[i] == startbl ||
           was.rootlist[i] in now.rootlist[now.rootindex..])
    && (was.rootindex == |was.rootlist| || !Seen(visit, was.rootlist[was.rootindex]) ==>
          was.rootlist <= now.rootlist &&
          |now.rootlist| == if now.rootindex > |was.rootlist| then now.rootindex else |was.rootlist|)
  }

  /** Picks the next start block: a listed root not yet seen, or else the first unseen block, which
      is then treated as another root. */
  method PickRoot(visitCount: seq<int>, list: seq<nat>, rootlist0: seq<nat>, rootindex0: nat, ghost pre: seq<nat>,
                  ghost comp: set<nat>)
    returns (rootlist: seq<nat>, rootindex: nat, startbl: nat, extra: bool)
    requires comp == Elements(list) && Elements(rootlist0) <= comp && (forall b :: b in comp ==> b < |visitCount|)
    requires PreOrder(visitCount, pre, comp) && |pre| < |comp| && rootindex0 <= |rootlist0|
    ensures startbl in comp && !Seen(visitCount, startbl)
    ensures rootindex0 < rootindex <= |rootlist| && rootlist[..rootindex] == rootlist0[..rootindex0] + [startbl]
    ensures Elements(rootlist) <= if extra then comp else Elements(rootlist0)
    ensures !extra ==> |rootlist| <= |rootlist0|
    ensures extra ==> forall i :: rootindex0 <= i < |rootlist0| ==> Seen(visitCount, rootlist0[i])
    ensures !extra ==> forall i :: rootindex0 <= i < |rootlist0| ==>
              Seen(visitCount, rootlist0[i]) || rootlist0[i] == startbl || rootlist0[i] in rootlist[rootindex..]
    ensures rootindex0 == |rootlist0| || !Seen(visitCount, rootlist0[rootindex0]) ==>
              rootlist0 <= rootlist && |rootlist| == if rootindex > |rootlist0| then rootindex else |rootlist0|
    ensures !extra ==> SkipsTo(visitCount, rootlist0[rootindex0..], startbl, rootlist[rootindex..])
    ensures extra ==> rootindex == |rootlist| && FirstNotSeen(visitCount, list, startbl)
  {
    forall i | 0 <= i < |rootlist0| ensures rootlist0[i] in comp { assert rootlist0[i] in Elements(rootlist0); }
    var next;
    ghost var dropped;
    rootlist, rootindex, next, dropped := NextRoot(visitCount, rootlist0, rootindex0);
    forall i | 0 <= i < |rootlist| ensures rootlist[i] in comp && rootlist[i] in rootlist0 {
      assert rootlist[i] == rootlist0[if i < rootindex0 then i else i + dropped];
    }
    extra := next.None?;
    if next.Some? {
      startbl := next.value;
      ghost var rest := rootlist0[rootindex0..];
      assert rest[dropped] == startbl && rootlist[rootindex..] == rest[dropped + 1..];
      forall i | rootindex0 <= i < |rootlist0|
        ensures Seen(visitCount, rootlist0[i]) || rootlist0[i] == startbl || rootlist0[i] in rootlist[rootindex..]
      {
        if i > rootindex0 + dropped {
          assert rootlist0[i] == rootlist[rootindex..][i - dropped - rootindex];
        }
      }
    } else {
      startbl := FirstUnseen(visitCount, list, pre, comp);
      rootlist := rootlist + [startbl];
      rootindex := rootindex + 1;
    }
  }

  /** The listed roots that were given and are not yet seen are still ahead. */
  ghost predicate StillAhead(visit: seq<int>, given: seq<nat>, rootlist: seq<nat>, rootindex: nat)
    requires rootindex <= |rootlist|
  {
    forall i :: 0 <= i < |given| ==> Seen(visit, given[i]) || given[i] in rootlist[rootindex..]
  }

  /** Given roots without in-edges stay where they are in the list. */
  ghost predicate InPlace(given: seq<nat>, rootlist: seq<nat>, rootindex: nat) {
    rootindex <= |rootlist| && given <= rootlist && |rootlist| == if rootindex > |given| then rootindex else |given|
  }

  lemma NextGivenUnseen(d: Dfs, comp: set<nat>, roots: set<nat>, g0: Graph, l: RootList)
    requires Inv(d, comp, roots) && Paired(g0) && SameEnds(g0.outs, d.outs) && Elements(l.rootlist) <= comp
    requires FreshRoots(g0.ins, l.given) && InPlace(l.given, l.rootlist, l.rootindex) &&
               roots == Elements(l.rootlist[..l.rootindex])
    requires l.rootindex == 0 ==> d.pre == []
    ensures l.rootindex == |l.rootlist| || !Seen(d.visit, l.rootlist[l.rootindex])
  {
    if l.rootindex < |l.rootlist| {
      var r := l.rootlist[l.rootindex];
      assert r in Elements(l.rootlist) && r == l.given[l.rootindex];
      assert r !in roots by {
        forall j | 0 <= j < l.rootindex ensures l.rootlist[..l.rootindex][j] != r { assert l.rootlist[j] == l.given[j];
            }
      }
      if |l.given| == 1 {
        assert d.visit[r] == -1;
      } else if Seen(d.visit, r) {
        SeenBelowRoot(d, comp, roots, g0, r);
      }
    }
  }

  lemma NoExtra(d: Dfs, comp: set<nat>, roots: set<nat>, outs0: Adj, l: RootList)
    requires Inv(d, comp, roots) && d.st == [] && SameEnds(outs0, d.outs) && |d.pre| < |comp|
    requires Elements(l.given) <= comp && l.rootindex <= |l.rootlist| &&
               StillAhead(d.visit, l.given, l.rootlist, l.rootindex)
    requires forall i :: l.rootindex <= i < |l.rootlist| ==> Seen(d.visit, l.rootlist[i])
    ensures !Covers(outs0, comp, Elements(l.given))
  {
    if Covers(outs0, comp, Elements(l.given)) {
      forall r | r in l.rootlist[l.rootindex..] ensures Seen(d.visit, r) {
        var j :| 0 <= j < |l.rootlist[l.rootindex..]| && l.rootlist[l.rootindex..][j] == r;
        assert l.rootlist[l.rootindex + j] == r;
      }
      forall i | 0 <= i < |l.given| ensures Seen(d.visit, l.given[i]) && l.given[i] in comp {
        assert l.given[i] in Elements(l.given);
      }
      CoveredMeansDone(d, comp, roots, outs0, Elements(l.given));
    }
  }

  lemma InvPreOrder(d: Dfs, comp: set<nat>, roots: set<nat>)
    requires Inv(d, comp, roots)
    ensures (forall b :: b in comp ==> b < |d.visit|) && PreOrder(d.visit, d.pre, comp) && |d.pre| <= |comp|
  {
    PreOrderFits(d, comp, roots);
  }

  /** Blocks seen before a walk keep their numbers, and its start block gets the next one. */
  lemma WalkSees(d: Dfs, e: Dfs, comp: set<nat>, b: nat)
    requires (forall c :: c in comp ==> c < |d.visit| && c < |e.visit|)
    requires PreOrder(d.visit, d.pre, comp) && PreOrder(e.visit, e.pre, comp) && d.pre + [b] <= e.pre
    ensures Seen(e.visit, b) && e.visit[b] == |d.pre|
    ensures forall c :: c in comp && Seen(d.visit, c) ==> Seen(e.visit, c) && e.visit[c] == d.visit[c] < |d.pre|
  {
    assert e.pre[|d.pre|] == b;
    forall c | c in comp && Seen(d.visit, c) ensures Seen(e.visit, c) && e.visit[c] == d.visit[c] < |d.pre| {
      assert e.pre[d.visit[c]] == c;
    }
  }

  /** The facts about the root list that the attempt keeps between two start blocks. */
  ghost predicate RootsKept(d: Dfs, comp: set<nat>, roots: set<nat>, g0: Graph, l: RootList) {
    && l.rootindex <= |l.rootlist| && Elements(l.rootlist) <= comp && roots == Elements(l.rootlist[..l.rootindex])
    && (l.rootindex == 0 ==> d.pre == [])
    && (Covers(g0.outs, comp, Elements(l.given)) ==> !l.extraroots)
    && (!l.extraroots ==> Elements(l.rootlist) <= Elements(l.given) && |l.rootlist| <= |l.given|)
    && (!l.extraroots ==> StillAhead(d.visit, l.given, l.rootlist, l.rootindex))
    && (FreshRoots(g0.ins, l.given) ==> InPlace(l.given, l.rootlist, l.rootindex))
  }

  lemma GivenStillAhead(visit: seq<int>, visit': seq<int>, comp: set<nat>, was: RootList, now: RootList, startbl: nat)
    requires Picked(visit, comp, was, now, startbl, false) && Elements(was.given) <= comp
    requires StillAhead(visit, was.given, was.rootlist, was.rootindex) && Seen(visit', startbl)
    requires forall b :: b in comp && Seen(visit, b) ==> Seen(visit', b)
    ensures StillAhead(visit', was.given, now.rootlist, now.rootindex)
  {
    hide SkipsTo;
    forall i | 0 <= i < |was.given| ensures Seen(visit', was.given[i]) ||
        was.given[i] in now.rootlist[now.rootindex..] {
      assert was.given[i] in Elements(was.given);
      if !Seen(visit, was.given[i]) {
        var j :| 0 <= j < |was.rootlist[was.rootindex..]| && was.rootlist[was.rootindex..][j] == was.given[i];
        assert was.rootlist[was.rootindex + j] == was.given[i];
      }
    }
  }

  /** What picking a start block and searching below it does to those facts. */
  lemma RootsStillKept(d: Dfs, e: Dfs, comp: set<nat>, roots: set<nat>, g0: Graph, was: RootList, now: RootList,
                       startbl: nat, extra: bool)
    requires Inv(d, comp, roots) && d.st == [] && Paired(g0) && SameEnds(g0.outs, d.outs) && |d.pre| < |comp|
    requires Inv(e, comp, roots + {startbl}) && d.pre + [startbl] <= e.pre
    requires RootsKept(d, comp, roots, g0, was) && Elements(was.given) <= comp
    requires Picked(d.visit, comp, was, now, startbl, extra)
    ensures RootsKept(e, comp, roots + {startbl}, g0, now)
  {
    hide Inv;
    InvPreOrder(d, comp, roots);
    InvPreOrder(e, comp, roots + {startbl});
    WalkSees(d, e, comp, startbl);
    hide PreOrder, SkipsTo, SameEnds;
    assert Elements(now.rootlist[..now.rootindex]) == roots + {startbl} by {
      assert now.rootlist[..now.rootindex] == was.rootlist[..was.rootindex] + [startbl];
      ElementsOfAppend(was.rootlist[..was.rootindex], startbl);
    }
    if extra && !was.extraroots {
      NoExtra(d, comp, roots, g0.outs, was);
    }
    if !now.extraroots { GivenStillAhead(d.visit, e.visit, comp, was, now, startbl); }
    if FreshRoots(g0.ins, was.given) {
      NextGivenUnseen(d, comp, roots, g0, was);
    }
  }

  // ---------- the order of the roots ----------

  /** No given root occurs again as the last one. */
  ghost predicate LastOnce(given: seq<nat>) {
    given != [] && Last(given) !in given[..|given| - 1]
  }

  /** The last given root is still to come, was reached from another one, or was the last to be started. */
  ghost predicate LastKept(visit: seq<int>, given: seq<nat>, rest: seq<nat>, roots: set<nat>)
    requires given != []
  {
    var e := Last(given);
    if e in roots then rest == [] && EndsWith(visit, given, roots)
    else Seen(visit, e) || (LastOnce(rest) && Last(rest) == e)
  }

  /** Roots added to the given ones are not reached from those. */
  ghost predicate AddedApart(outs: Adj, given: seq<nat>, rootlist: seq<nat>) {
    forall i, r :: |given| <= i < |rootlist| && r in given ==> !Leads(outs, r, rootlist[i])
  }

  ghost predicate OrderKept(d: Dfs, comp: set<nat>, roots: set<nat>, g0: Graph, l: RootList) {
    && l.rootindex <= |l.rootlist| && (forall r :: r in roots ==> r in comp && Seen(d.visit, r))
    && (LastOnce(l.given) && !l.extraroots ==> LastKept(d.visit, l.given, l.rootlist[l.rootindex..], roots))
    && (FreshRoots(g0.ins, l.given) ==> AddedApart(g0.outs, l.given, l.rootlist))
  }

  lemma OnlyAtEnd(rest: seq<nat>)
    requires LastOnce(rest)
    ensures forall n :: 0 <= n < |rest| - 1 ==> rest[n] != Last(rest)
  {
    assert forall n :: 0 <= n < |rest| - 1 ==> rest[n] == rest[..|rest| - 1][n];
  }

  /** The last given root is started now, or is still to come. */
  lemma LastStarts(d: Dfs, e: Dfs, comp: set<nat>, roots: set<nat>, given: seq<nat>, rest: seq<nat>, n: nat)
    requires (forall b :: b in comp ==> b < |d.visit| && b < |e.visit|) && n < |rest| && rest[n] in comp
    requires PreOrder(d.visit, d.pre, comp) && PreOrder(e.visit, e.pre, comp) && d.pre + [rest[n]] <= e.pre
    requires given != [] && rest[n] == Last(given) && (forall r :: r in roots ==> r in comp && Seen(d.visit, r))
    requires (forall r :: r in given && r != Last(given) ==> r in comp && (Seen(d.visit, r) || r in rest[n + 1..]))
    requires LastOnce(rest) && Last(rest) == Last(given)
    ensures LastKept(e.visit, given, rest[n + 1..], roots + {rest[n]})
  {
    OnlyAtEnd(rest);
    assert rest[n + 1..] == [];
    WalkSees(d, e, comp, rest[n]);
  }

  lemma LastAhead(rest: seq<nat>, n: nat)
    requires LastOnce(rest) && n < |rest| && rest[n] != Last(rest)
    ensures LastOnce(rest[n + 1..]) && Last(rest[n + 1..]) == Last(rest)
  {
    var after := rest[n + 1..];
    forall i | 0 <= i < |after| - 1 ensures after[i] != Last(rest) {
      assert after[i] == rest[..|rest| - 1][n + 1 + i];
    }
  }

  lemma AheadOrSeen(visit: seq<int>, given: seq<nat>, rest: seq<nat>, n: nat, r: nat)
    requires (forall i :: 0 <= i < |given| ==> Seen(visit, given[i]) || given[i] in rest) && r in given
    requires n < |rest| && rest[n] != r && forall i :: 0 <= i < n ==> Seen(visit, rest[i])
    ensures r in Elements(given) && (Seen(visit, r) || r in rest[n + 1..])
  {
    var i :| 0 <= i < |given| && given[i] == r;
    if !Seen(visit, r) {
      var j :| 0 <= j < |rest| && rest[j] == r;
      assert rest[n + 1..][j - n - 1] == r;
    }
  }

  lemma LastStillKept(d: Dfs, e: Dfs, comp: set<nat>, roots: set<nat>, was: RootList, startbl: nat, after: seq<nat>)
    requires (forall b :: b in comp ==> b < |d.visit| && b < |e.visit|) && d.pre + [startbl] <= e.pre && startbl in comp
    requires PreOrder(d.visit, d.pre, comp) && PreOrder(e.visit, e.pre, comp) && !Seen(d.visit, startbl)
    requires was.given != [] && Elements(was.given) <= comp &&
               (forall r :: r in roots ==> r in comp && Seen(d.visit, r))
    requires was.rootindex <= |was.rootlist| && StillAhead(d.visit, was.given, was.rootlist, was.rootindex)
    requires LastKept(d.visit, was.given, was.rootlist[was.rootindex..], roots)
    requires SkipsTo(d.visit, was.rootlist[was.rootindex..], startbl, after)
    ensures LastKept(e.visit, was.given, after, roots + {startbl})
  {
    var rest, last := was.rootlist[was.rootindex..], Last(was.given);
    assert last in Elements(was.given);
    var n :| 0 <= n < |rest| && rest[n] == startbl && after == rest[n + 1..] && forall i :: 0 <= i < n ==>
        Seen(d.visit, rest[i]);
    if startbl == last {
      forall r | r in was.given && r != last ensures r in comp && (Seen(d.visit, r) || r in after) {
        AheadOrSeen(d.visit, was.given, rest, n, r);
      }
      LastStarts(d, e, comp, roots, was.given, rest, n);
    } else {
      WalkSees(d, e, comp, startbl);
      if !Seen(e.visit, last) { LastAhead(rest, n); }
    }
  }

  lemma AddedStaysApart(d: Dfs, comp: set<nat>, roots: set<nat>, g0: Graph, was: RootList, now: RootList, startbl: nat,
                        extra: bool)
    requires Inv(d, comp, roots) && d.st == [] && Paired(g0) && SameEnds(g0.outs, d.outs) &&
               Elements(was.rootlist) <= comp
    requires FreshRoots(g0.ins, was.given) && InPlace(was.given, was.rootlist, was.rootindex) &&
               roots == Elements(was.rootlist[..was.rootindex])
    requires (was.rootindex == 0 ==> d.pre == []) && forall r :: r in roots ==> r in comp && Seen(d.visit, r)
    requires AddedApart(g0.outs, was.given, was.rootlist) && Picked(d.visit, comp, was, now, startbl, extra)
    ensures AddedApart(g0.outs, was.given, now.rootlist)
  {
    hide Inv;
    NextGivenUnseen(d, comp, roots, g0, was);
    if extra {
      var seen := SeenBlocks(d.visit, comp);
      SeenIsClosed(d, comp, roots);
      SameEndsClosed(g0.outs, d.outs, seen);
      forall r | r in was.given ensures !Leads(g0.outs, r, startbl) {
        var i :| 0 <= i < |was.given| && was.given[i] == r;
        assert was.rootlist[..was.rootindex][i] == r;
        assert r in seen && startbl !in seen;
      }
      forall i, r | |was.given| <= i < |now.rootlist| && r in was.given ensures !Leads(g0.outs, r, now.rootlist[i]) {
        assert now.rootlist[i] == if i < |was.rootlist| then was.rootlist[i] else startbl;
      }
    } else {
      assert now.rootlist == was.rootlist;
    }
  }

  lemma OrderStillKept(d: Dfs, e: Dfs, comp: set<nat>, roots: set<nat>, g0: Graph, was: RootList, now: RootList,
                       startbl: nat, extra: bool)
    requires Inv(d, comp, roots) && d.st == [] && Paired(g0) && SameEnds(g0.outs, d.outs)
    requires Inv(e, comp, roots + {startbl}) && d.pre + [startbl] <= e.pre
    requires RootsKept(d, comp, roots, g0, was) && Elements(was.given) <= comp
    requires OrderKept(d, comp, roots, g0, was) && Picked(d.visit, comp, was, now, startbl, extra)
    ensures OrderKept(e, comp, roots + {startbl}, g0, now)
  {
    hide Inv, LastKept, AddedApart, Covers, StillAhead, SkipsTo, FreshRoots, InPlace, LastOnce;
    InvPreOrder(d, comp, roots);
    InvPreOrder(e, comp, roots + {startbl});
    WalkSees(d, e, comp, startbl);
    if LastOnce(was.given) && !was.extraroots && !extra {
      NotEmpty(was.given);
      LastStillKept(d, e, comp, roots, was, startbl, now.rootlist[now.rootindex..]);
    }
    if FreshRoots(g0.ins, was.given) {
      AddedStaysApart(d, comp, roots, g0, was, now, startbl, extra);
    }
  }

  lemma NotEmpty(given: seq<nat>)
    requires LastOnce(given)
    ensures given != []
  {
  }

  lemma OrderStarts(d: Dfs, comp: set<nat>, g0: Graph, given: seq<nat>)
    ensures OrderKept(d, comp, {}, g0, RootList(given, given, 0, false))
  {
    assert given[0..] == given;
  }

  lemma RootsSeen(d: Dfs, comp: set<nat>, roots: set<nat>, g0: Graph, l: RootList)
    requires OrderKept(d, comp, roots, g0, l)
    ensures forall r :: r in roots ==> r in comp && Seen(d.visit, r)
  {
  }

  lemma OrderEnds(d: Dfs, comp: set<nat>, roots: set<nat>, g0: Graph, l: RootList)
    requires OrderKept(d, comp, roots, g0, l)
    ensures LastOnce(l.given) && !l.extraroots ==> EndsWith(d.visit, l.given, roots)
    ensures FreshRoots(g0.ins, l.given) ==> AddedApart(g0.outs, l.given, l.rootlist)
  {
  }

  // ---------- the list the roots are in ----------

  /** Every seen block is led to by a root. */
  lemma {:induction false} SeenIsLed(d: Dfs, comp: set<nat>, roots: set<nat>, outs0: Adj, b: nat) returns (r: nat)
    requires Inv(d, comp, roots) && SameEnds(outs0, d.outs) && b in comp && Seen(d.visit, b)
    ensures r in roots && Leads(outs0, r, b)
    decreases d.visit[b]
  {
    hide RootsApart, Nested, Widths, PreOrder, PostOrder, Stack;
    r := b;
    if d.par[b].Some? {
      var (u, k) := d.par[b].value;
      assert EdgeOk(d.visit, d.index, d.num, d.par, comp, u, k, d.outs[u][k].point, d.outs[u][k].flags);
      r := SeenIsLed(d, comp, roots, outs0, u);
      StepLeads(outs0, u, k);
      LeadsOn(outs0, r, u, b);
    }
  }

  lemma StepLeads(outs: Adj, u: nat, k: nat)
    requires u < |outs| && k < |outs[u]|
    ensures Leads(outs, u, outs[u][k].point)
  {
  }

  /** Between two start blocks, a block is seen just when a block started from leads to it. */
  lemma SeenIffLed(d: Dfs, comp: set<nat>, roots: set<nat>, outs0: Adj, started: seq<nat>)
    requires Inv(d, comp, roots) && d.st == [] && SameEnds(outs0, d.outs) && roots == Elements(started)
    requires forall r :: r in roots ==> r in comp && Seen(d.visit, r)
    ensures forall b :: b in comp ==> (Seen(d.visit, b) <==> LedTo(outs0, started, b))
  {
    hide Inv, Leads;
    var seen := SeenBlocks(d.visit, comp);
    SeenIsClosed(d, comp, roots);
    SameEndsClosed(outs0, d.outs, seen);
    forall b | b in comp ensures Seen(d.visit, b) <==> LedTo(outs0, started, b) {
      if Seen(d.visit, b) {
        var r := SeenIsLed(d, comp, roots, outs0, b);
        assert r in started;
      }
      if LedTo(outs0, started, b) {
        var r :| r in started && Leads(outs0, r, b);
        InElements(started, r);
        LeadsInto(outs0, r, b, seen);
      }
    }
  }

  lemma LeadsInto(outs: Adj, r: nat, b: nat, some: set<nat>)
    requires Leads(outs, r, b) && r in some && ClosedSet(outs, some)
    ensures b in some
  {
  }

  /** What is left to do to the list makes of it what pruning makes of the given roots; once a root was added, the list
      only continues that. */
  ghost predicate EntriesKept(outs: Adj, list: seq<nat>, l: RootList) {
    && l.rootindex <= |l.rootlist|
    && var all := Pruned(outs, list, [], l.given);
       if l.extraroots then l.rootindex == |l.rootlist| && Continued(outs, list, all, l.rootlist)
       else all == Pruned(outs, list, l.rootlist[..l.rootindex], l.rootlist[l.rootindex..])
  }

  lemma EntriesStart(outs: Adj, list: seq<nat>, given: seq<nat>)
    ensures EntriesKept(outs, list, RootList(given, given, 0, false))
  {
    assert given[..0] == [] && given[0..] == given;
  }

  /** The next start block is a listed one: those before it, led to by blocks started from, are left out. */
  lemma ListedStarts(visit: seq<int>, outs: Adj, list: seq<nat>, kept: seq<nat>, rest: seq<nat>, startbl: nat,
                     after: seq<nat>)
    requires SkipsTo(visit, rest, startbl, after) && startbl in list && !LedTo(outs, kept, startbl)
    requires forall b :: b in rest && Seen(visit, b) ==> LedTo(outs, kept, b)
    ensures Pruned(outs, list, kept, rest) == Pruned(outs, list, kept + [startbl], after)
  {
    var n :| 0 <= n < |rest| && rest[n] == startbl && after == rest[n + 1..] && forall i :: 0 <= i < n ==>
        Seen(visit, rest[i]);
    hide LedTo;
    PrunedSkips(outs, list, kept, rest, n);
    assert rest[n..][0] == startbl && rest[n..][1..] == after;
  }

  lemma AllSkipped(visit: seq<int>, outs: Adj, list: seq<nat>, kept: seq<nat>, rest: seq<nat>, b: nat)
    requires b in list && !LedTo(outs, kept, b) && forall i :: 0 <= i < |rest| ==> LedTo(outs, kept, rest[i])
    ensures Pruned(outs, list, kept, rest) == kept
  {
    hide LedTo;
    PrunedSkips(outs, list, kept, rest, |rest|);
    assert rest[|rest|..] == [] && kept + [] == kept;
  }

  lemma ContinuedOn(outs: Adj, list: seq<nat>, given: seq<nat>, found: seq<nat>, b: nat)
    requires Continued(outs, list, given, found) && FirstMissed(outs, list, found, b)
    ensures Continued(outs, list, given, found + [b])
  {
    var more := found + [b];
    forall i | |given| <= i < |more| ensures FirstMissed(outs, list, more[..i], more[i]) {
      assert more[..i] == found[..i];
      if i == |found| { assert found[..i] == found; }
    }
  }

  lemma MissedFirst(visit: seq<int>, outs: Adj, list: seq<nat>, kept: seq<nat>, b: nat)
    requires FirstNotSeen(visit, list, b) && !LedTo(outs, kept, b)
    requires forall c :: c in list && Seen(visit, c) ==> LedTo(outs, kept, c)
    ensures FirstMissed(outs, list, kept, b)
  {
    hide LedTo;
    var n :| 0 <= n < |list| && list[n] == b && forall m :: 0 <= m < n ==> Seen(visit, list[m]);
  }

  lemma EntriesStillKept(d: Dfs, comp: set<nat>, roots: set<nat>, outs0: Adj, list: seq<nat>, was: RootList,
                         now: RootList, startbl: nat, extra: bool)
    requires Inv(d, comp, roots) && d.st == [] && SameEnds(outs0, d.outs) && comp == Elements(list)
    requires was.rootindex <= |was.rootlist| && roots == Elements(was.rootlist[..was.rootindex])
    requires (forall r :: r in roots ==> r in comp && Seen(d.visit, r)) && Elements(was.rootlist) <= comp
    requires EntriesKept(outs0, list, was) && Picked(d.visit, comp, was, now, startbl, extra)
    requires extra ==> now.rootindex == |now.rootlist| && FirstNotSeen(d.visit, list, startbl)
    ensures EntriesKept(outs0, list, now)
  {
    var kept, rest := was.rootlist[..was.rootindex], was.rootlist[was.rootindex..];
    SeenIffLed(d, comp, roots, outs0, kept);
    hide Inv, SameEnds, LedTo, Pruned, Continued, FirstNotSeen, SkipsTo, FirstMissed;
    forall b | b in rest && Seen(d.visit, b) ensures LedTo(outs0, kept, b) {
      var i :| 0 <= i < |rest| && rest[i] == b;
      assert was.rootlist[was.rootindex + i] in Elements(was.rootlist);
    }
    forall c | c in list ensures c in comp { InElements(list, c); }
    if extra {
      MissedFirst(d.visit, outs0, list, kept, startbl);
      assert now.rootlist == kept + [startbl];
      if was.extraroots {
        assert kept == was.rootlist;
      } else {
        forall i | 0 <= i < |rest| ensures LedTo(outs0, kept, rest[i]) {
          assert rest[i] == was.rootlist[was.rootindex + i] && rest[i] in rest;
        }
        AllSkipped(d.visit, outs0, list, kept, rest, startbl);
        ContinuedNone(outs0, list, kept);
      }
      ContinuedOn(outs0, list, Pruned(outs0, list, [], was.given), kept, startbl);
    } else {
      SkipsNotEmpty(d.visit, rest, startbl, now.rootlist[now.rootindex..]);
      ListedStarts(d.visit, outs0, list, kept, rest, startbl, now.rootlist[now.rootindex..]);
    }
  }

  lemma ContinuedNone(outs: Adj, list: seq<nat>, given: seq<nat>)
    ensures Continued(outs, list, given, given)
  {
  }

  lemma SkipsNotEmpty(visit: seq<int>, rest: seq<nat>, startbl: nat, after: seq<nat>)
    requires SkipsTo(visit, rest, startbl, after)
    ensures rest != []
  {
  }

  /** The list that an attempt leaves. */
  ghost predicate AttemptList(outs: Adj, list: seq<nat>, given: seq<nat>, rootlist: seq<nat>, extraroots: bool) {
    && LedToAll(outs, rootlist, list)
    && var all := Pruned(outs, list, [], given);
       if extraroots then Continued(outs, list, all, rootlist) else rootlist == all
  }

  lemma EntriesEnd(d: Dfs, comp: set<nat>, roots: set<nat>, outs0: Adj, list: seq<nat>, l: RootList)
    requires Inv(d, comp, roots) && d.st == [] && |d.pre| == |comp| && SameEnds(outs0, d.outs) && comp == Elements(list)
    requires l.rootindex <= |l.rootlist| && roots == Elements(l.rootlist[..l.rootindex])
    requires (forall r :: r in roots ==> r in comp && Seen(d.visit, r)) && EntriesKept(outs0, list, l)
    ensures AttemptList(outs0, list, l.given, l.rootlist, l.extraroots)
  {
    var kept, rest := l.rootlist[..l.rootindex], l.rootlist[l.rootindex..];
    SeenIffLed(d, comp, roots, outs0, kept);
    forall b | b in list ensures LedTo(outs0, kept, b) {
      InElements(list, b);
      AllFinished(d, comp, roots, b);
    }
    hide Inv, LedTo, SameEnds, Continued;
    assert l.rootlist == kept + rest;
    LedToAllSame(outs0, kept, l.rootlist, list);
  }

  lemma ElementsOfAppend(s: seq<nat>, x: nat)
    ensures Elements(s + [x]) == Elements(s) + {x}
  {
    forall y | y in Elements(s) + {x} ensures y in Elements(s + [x]) {
      if y in Elements(s) {
        var i :| 0 <= i < |s| && s[i] == y;
        assert (s + [x])[i] == y;
      } else {
        assert (s + [x])[|s|] == x;
      }
    }
  }

  /** One attempt: searches from every listed root, and from further blocks if those do not reach all. */
  method Attempt(g: BlockGraph, given: seq<nat>, rpostorder0: seq<nat>, ghost d0: Dfs, ghost comp: set<nat>,
                 ghost g0: Graph)
    returns (rootlist: seq<nat>, preorder: seq<nat>, rpostorder: seq<nat>, extraroots: bool, ghost d: Dfs,
        ghost roots: set<nat>)
    requires Holds(g, d0, [], [], [], rpostorder0, |g.list|) && Inv(d0, comp, {})
    requires EdgesKept(g0, g.G(), comp) && Paired(g0)
    requires comp == Elements(g.list) && |comp| == |g.list| && Elements(given) <= comp
    modifies g`ins, g`outs, g`visitCount, g`index, g`numDesc
    ensures Inv(d, comp, roots) && d.st == [] && |d.pre| == |comp| && EdgesKept(g0, g.G(), comp)
    ensures d.outs == g.outs && d.visit == g.visitCount && d.index == g.index && d.num == g.numDesc
    ensures d.pre == preorder && d.rpost == rpostorder
    ensures roots <= Elements(rootlist) <= comp
    ensures Covers(g0.outs, comp, Elements(given)) ==> !extraroots
    ensures !extraroots ==> Elements(rootlist) <= Elements(given)
    ensures FreshRoots(g0.ins, given) ==> given <= rootlist && (!extraroots ==> rootlist == given)
    ensures LastOnce(given) && !extraroots ==> EndsWith(d.visit, given, roots)
    ensures FreshRoots(g0.ins, given) ==> AddedApart(g0.outs, given, rootlist)
    ensures AttemptList(g0.outs, g.list, given, rootlist, extraroots)
  {
    hide Inv, Covers, FreshRoots, StillAhead, InPlace, SkipsTo, OrderKept, AddedApart, EndsWith, LastOnce, EntriesKept,
      AttemptList, FirstNotSeen;
    rootlist, preorder, rpostorder, extraroots, d, roots := given, [], rpostorder0, false, d0, {};
    var rpostcount: int := |g.list|;
    var rootindex: nat := 0;
    StartKept(d, comp, g0, given);
    OrderStarts(d, comp, g0, given);
    EntriesStart(g0.outs, g.list, given);
    while |preorder| < |g.list|
      invariant Holds(g, d, preorder, [], [], rpostorder, rpostcount) && EdgesKept(g0, g.G(), comp)
      invariant Inv(d, comp, roots) && RootsKept(d, comp, roots, g0, RootList(given, rootlist, rootindex, extraroots))
      invariant OrderKept(d, comp, roots, g0, RootList(given, rootlist, rootindex, extraroots))
      invariant EntriesKept(g0.outs, g.list, RootList(given, rootlist, rootindex, extraroots))
      decreases |g.list| - |preorder|
    {
      InvPreOrder(d, comp, roots);
      ghost var was, d1, roots1 := RootList(given, rootlist, rootindex, extraroots), d, roots;
      var startbl, extra;
      rootlist, rootindex, startbl, extra := PickRoot(g.visitCount, g.list, rootlist, rootindex, preorder, comp);
      extraroots := extraroots || extra;
      ghost var now := RootList(given, rootlist, rootindex, extraroots);
      assert Picked(d1.visit, comp, was, now, startbl, extra);
      RootsSeen(d, comp, roots, g0, was);
      EntriesStillKept(d, comp, roots, g0.outs, g.list, was, now, startbl, extra);
      MoreRoots(d, comp, roots, roots + {startbl});
      roots := roots + {startbl};
      preorder, rpostorder, rpostcount, d := Walk(g, startbl, preorder, rpostorder, rpostcount, d, comp, roots, g0);
      RootsStillKept(d1, d, comp, roots1, g0, was, now, startbl, extra);
      OrderStillKept(d1, d, comp, roots1, g0, was, now, startbl, extra);
    }
    OrderEnds(d, comp, roots, g0, RootList(given, rootlist, rootindex, extraroots));
    AttemptDone(d, comp, roots, g0, RootList(given, rootlist, rootindex, extraroots));
    RootsSeen(d, comp, roots, g0, RootList(given, rootlist, rootindex, extraroots));
    EntriesEnd(d, comp, roots, g0.outs, g.list, RootList(given, rootlist, rootindex, extraroots));
  }

  lemma StartKept(d: Dfs, comp: set<nat>, g0: Graph, given: seq<nat>)
    requires d.pre == [] && Elements(given) <= comp
    ensures RootsKept(d, comp, {}, g0, RootList(given, given, 0, false))
  {
    assert Elements(given[..0]) == {};
    assert given[0..] == given;
  }

  lemma AttemptDone(d: Dfs, comp: set<nat>, roots: set<nat>, g0: Graph, l: RootList)
    requires RootsKept(d, comp, roots, g0, l)
    requires Inv(d, comp, roots) && |d.pre| >= |comp|
    ensures roots <= Elements(l.rootlist) && |d.pre| == |comp|
    ensures !l.extraroots ==> Elements(l.rootlist) <= Elements(l.given)
    ensures FreshRoots(g0.ins, l.given) ==> l.given <= l.rootlist && (!l.extraroots ==> l.rootlist == l.given)
  {
    InvPreOrder(d, comp, roots);
    forall b | b in Elements(l.rootlist[..l.rootindex]) ensures b in Elements(l.rootlist) {
      var i :| 0 <= i < l.rootindex && l.rootlist[..l.rootindex][i] == b;
      assert l.rootlist[i] == b;
    }
  }

  // ---------- the whole search ----------

  /** The component list names distinct blocks of the tables, and their edges stay among them. */
  ghost predicate Components(g: BlockGraph)
    reads g
  {
    g.Sized() && Paired(g.G()) && Closed(g.outs, Elements(g.list)) && Closed(g.ins, Elements(g.list))
  }

  /** The fields of the listed blocks as a search starts. */
  method ResetFields(g: BlockGraph)
    requires forall i :: 0 <= i < |g.list| ==>
               g.list[i] < |g.index| && g.list[i] < |g.visitCount| && g.list[i] < |g.copyMap|
    modifies g`index, g`visitCount, g`copyMap
    ensures |g.index| == |old(g.index)| && |g.visitCount| == |old(g.visitCount)| && |g.copyMap| == |old(g.copyMap)|
    ensures forall i :: 0 <= i < |g.list| ==>
              g.index[g.list[i]] == -1 && g.visitCount[g.list[i]] == -1 && g.copyMap[g.list[i]] == g.list[i]
  {
    var i := 0;
    while i < |g.list|
      invariant 0 <= i <= |g.list|
      invariant |g.index| == |old(g.index)| && |g.visitCount| == |old(g.visitCount)| && |g.copyMap| == |old(g.copyMap)|
      invariant forall j :: 0 <= j < i ==>
                  g.index[g.list[j]] == -1 && g.visitCount[g.list[j]] == -1 && g.copyMap[g.list[j]] == g.list[j]
    {
      var tmpbl := g.list[i];
      g.index := g.index[tmpbl := -1];
      g.visitCount := g.visitCount[tmpbl := -1];
      g.copyMap := g.copyMap[tmpbl := tmpbl];
      i := i + 1;
    }
  }

  /** The last entry block is the first of the list if that has no in-edges, otherwise another block without
      in-edges if there is one, and the first of the list alone if all blocks have some. */
  ghost predicate EntryLast(ins: Adj, list: seq<nat>, given: seq<nat>)
    requires list != [] && forall i :: 0 <= i < |list| ==> list[i] < |ins|
  {
    && given != [] && Last(given) in list
    && if ins[list[0]] == [] then Last(given) == list[0]
       else if exists i :: 0 <= i < |list| && ins[list[i]] == [] then ins[Last(given)] == []
       else given == [list[0]]
  }

  /** The last of the entries to start with. */
  lemma HeadsLast(ins: Adj, list: seq<nat>)
    requires list != [] && forall i :: 0 <= i < |list| ==> list[i] < |ins|
    ensures EntryLast(ins, list, Heads(ins, list))
  {
    HeadsAre(ins, list);
    HeadsEnd(ins, list);
    NoInsMembers(ins, list);
    HeadsFrom(ins, list);
    hide Heads, NoIns, EndsSwapped;
    assert Last(Heads(ins, list)) in Heads(ins, list);
    if NoIns(ins, list) != [] {
      var n := NoInsFirst(ins, list);
      assert NoIns(ins, list)[0] in NoIns(ins, list);
      if ins[list[0]] == [] { assert n == 0; }
    }
  }

  /** They are different blocks of the list, without in-edges if there are several. */
  lemma HeadsFresh(ins: Adj, list: seq<nat>)
    requires list != [] && (forall i :: 0 <= i < |list| ==> list[i] < |ins|) && Distinct(list)
    ensures FreshRoots(ins, Heads(ins, list)) && Elements(Heads(ins, list)) <= Elements(list)
  {
    HeadsAre(ins, list);
    hide Heads;
    var given := Heads(ins, list);
    forall i | 0 <= i < |given| ensures given[i] in given && given[i] in list {}
  }

  lemma OneHead(ins: Adj, list: seq<nat>)
    requires list != [] && (forall i :: 0 <= i < |list| ==> list[i] < |ins|) && Distinct(list)
    requires forall i :: 0 < i < |list| ==> ins[list[i]] != []
    ensures Heads(ins, list) == [list[0]]
  {
    hide Heads, NoIns;
    NoInsMembers(ins, list);
    NoInsDistinct(ins, list);
    HeadsFrom(ins, list);
    AllOne(NoIns(ins, list), list[0]);
  }

  lemma AllOne(s: seq<nat>, x: nat)
    requires Distinct(s) && forall b :: b in s ==> b == x
    ensures s == [] || s == [x]
  {
    if |s| == 1 {
      assert s[0] in s;
    } else if |s| > 1 {
      AnotherOne(s, x);
    }
  }

  lemma AnotherOne(s: seq<nat>, x: nat)
    requires Distinct(s) && |s| > 1
    ensures exists b :: b in s && b != x
  {
    assert s[0] in s && s[1] in s && s[0] != s[1];
  }

  /** The blocks without in-edges, the first of them last, or the first block if there are none. */
  method EntryBlocks(ins: Adj, list: seq<nat>) returns (rootlist: seq<nat>)
    requires list != [] && (forall i :: 0 <= i < |list| ==> list[i] < |ins|)
    requires forall i, j :: 0 <= i < j < |list| ==> list[i] != list[j]
    ensures FreshRoots(ins, rootlist) && rootlist != [] && Elements(rootlist) <= Elements(list)
    ensures (forall i :: 0 < i < |list| ==> ins[list[i]] != []) ==> rootlist == [list[0]]
    ensures EntryLast(ins, list, rootlist) && rootlist == Heads(ins, list)
  {
    hide NoIns, Heads, EndsSwapped, FreshRoots, EntryLast, Elements;
    rootlist := [];
    NoInsNone(ins);
    var i := 0;
    while i < |list|
      invariant 0 <= i <= |list| && rootlist == NoIns(ins, list[..i])
    {
      assert list[..i + 1] == list[..i] + [list[i]];
      NoInsNext(ins, list[..i], list[i]);
      if |ins[list[i]]| == 0 {
        rootlist := rootlist + [list[i]];
      }
      i := i + 1;
    }
    assert list[..i] == list;
    HeadsFrom(ins, list);
    HeadsFresh(ins, list);
    HeadsLast(ins, list);
    if forall j :: 0 < j < |list| ==> ins[list[j]] != [] { OneHead(ins, list); }
    if |rootlist| > 1 {
      var tmpbl := rootlist[|rootlist| - 1];
      rootlist := rootlist[|rootlist| - 1 := rootlist[0]];
      rootlist := rootlist[0 := tmpbl];
    } else if |rootlist| == 0 {
      rootlist := rootlist + [list[0]];
    }
    assert rootlist == Heads(ins, list);
  }

  lemma StartInv(d: Dfs, comp: set<nat>)
    requires Shaped(d, comp) && d.pre == [] && d.st == [] && d.low == |comp|
    requires forall b :: b in comp ==> d.visit[b] == -1 && d.index[b] == -1 && d.next[b] == 0
    requires forall b: nat, k: nat :: b in comp && k < |d.outs[b]| ==> d.outs[b][k].flags == {}
    ensures Inv(d, comp, {})
  {
  }

  /** Clears labels and runs one attempt on the reset fields. */
  method Repeat(g: BlockGraph, given: seq<nat>, rpostorder0: seq<nat>, ghost comp: set<nat>, ghost g0: Graph)
    returns (rootlist: seq<nat>, preorder: seq<nat>, rpostorder: seq<nat>, extraroots: bool, ghost d: Dfs,
        ghost roots: set<nat>)
    requires Components(g) && comp == Elements(g.list) && Elements(given) <= comp && |rpostorder0| == |g.list|
    requires Paired(g0) && SameEnds(g0.ins, g.ins) && SameEnds(g0.outs, g.outs) && Closed(g0.ins, comp)
    requires forall b :: b in comp ==> g.visitCount[b] == -1 && g.index[b] == -1
    modifies g`ins, g`outs, g`visitCount, g`index, g`numDesc
    ensures Inv(d, comp, roots) && d.st == [] && |d.pre| == |comp| && EdgesKept(g0, g.G(), comp)
    ensures d.outs == g.outs && d.visit == g.visitCount && d.index == g.index && d.num == g.numDesc
    ensures d.pre == preorder && d.rpost == rpostorder && Components(g)
    ensures roots <= Elements(rootlist) <= comp
    ensures Covers(g0.outs, comp, Elements(given)) ==> !extraroots
    ensures !extraroots ==> Elements(rootlist) <= Elements(given)
    ensures FreshRoots(g0.ins, given) ==> given <= rootlist && (!extraroots ==> rootlist == given)
    ensures LastOnce(given) && !extraroots ==> EndsWith(d.visit, given, roots)
    ensures FreshRoots(g0.ins, given) ==> AddedApart(g0.outs, given, rootlist)
    ensures AttemptList(g0.outs, g.list, given, rootlist, extraroots)
  {
    hide Inv, Covers, FreshRoots, AddedApart, EndsWith, LastOnce, AttemptList;
    ghost var g1 := g.G();
    ClearEdgeFlags(g, ALL_FLAGS);
    ClearedAll(g1, g.G(), g.list, comp);
    SameEndsTransitive(g0.ins, g1.ins, g.ins);
    SameEndsTransitive(g0.outs, g1.outs, g.outs);
    SetOfDistinct(g.list);
    ghost var d0 := Dfs(g.outs, g.visitCount, g.index, g.numDesc, [], [], seq(|g.outs|, _ => 0), rpostorder0, |g.list|,
        seq(|g.outs|, _ => None));
    assert Shaped(d0, comp) by { SameEndsClosedComp(g1.outs, g.outs, comp); }
    StartInv(d0, comp);
    rootlist, preorder, rpostorder, extraroots, d, roots := Attempt(g, given, rpostorder0, d0, comp, g0);
    SearchShaped(d, comp, roots);
    SameEndsClosedComp(g0.ins, g.ins, comp);
  }

  lemma SearchShaped(d: Dfs, comp: set<nat>, roots: set<nat>)
    requires Inv(d, comp, roots)
    ensures Shaped(d, comp)
  {
  }

  lemma SameEndsClosedComp(a: Adj, b: Adj, comp: set<nat>)
    requires SameEnds(a, b) && Closed(a, comp)
    ensures Closed(b, comp)
  {
  }

  lemma SwapKeepsElements(s: seq<nat>, i: nat, j: nat)
    requires i < |s| && j < |s|
    ensures Elements(s[i := s[j]][j := s[i]]) == Elements(s)
  {
    var t := s[i := s[j]][j := s[i]];
    forall x | x in Elements(s) ensures x in Elements(t) {
      var k :| 0 <= k < |s| && s[k] == x;
      assert t[if k == i then j else if k == j then i else k] == x;
    }
    forall x | x in Elements(t) ensures x in Elements(s) {
      var k :| 0 <= k < |t| && t[k] == x;
      assert s[if k == i then j else if k == j then i else k] == x;
    }
  }

  lemma CoversMore(outs: Adj, comp: set<nat>, roots: set<nat>, more: set<nat>)
    requires Covers(outs, comp, roots) && roots <= more
    ensures Covers(outs, comp, more)
  {
  }

  /** The first block alone has no in-edges or all have some, and everything can be reached from it. */
  ghost predicate OneEntry(g: Graph, list: seq<nat>) {
    && list != [] && Covers(g.outs, Elements(list), {list[0]})
    && forall i :: 0 < i < |list| && list[i] < |g.ins| ==> g.ins[list[i]] != []
  }

  /** When the first block of the list stays the first one: it has no in-edges, or all blocks have some and
      those that lead to it can be reached from it. */
  ghost predicate StaysFirst(g: Graph, list: seq<nat>)
    requires list != [] && forall i :: 0 <= i < |list| ==> list[i] < |g.ins|
  {
    || g.ins[list[0]] == []
    || ((forall i :: 0 <= i < |list| ==> g.ins[list[i]] != []) &&
        forall b :: b in list && Leads(g.outs, b, list[0]) ==> Leads(g.outs, list[0], b))
  }

  /** Two graphs whose first block, 0, loses its place: 1 -> 0, and 1 -> 0 with 1 in a cycle with 2. */
  lemma FirstBlockMoves()
    ensures var g := Graph([[Edge(1, {}, 0)], []], [[], [Edge(0, {}, 0)]]);
      Paired(g) && !StaysFirst(g, [0, 1])
    ensures var g := Graph([[Edge(1, {}, 0)], [Edge(2, {}, 0)], [Edge(1, {}, 1)]],
                           [[], [Edge(0, {}, 0), Edge(2, {}, 0)], [Edge(1, {}, 0)]]);
      Paired(g) && !StaysFirst(g, [0, 1, 2])
  {
    var g := Graph([[Edge(1, {}, 0)], []], [[], [Edge(0, {}, 0)]]);
    var list := [0, 1];
    assert list[1] == 1 && g.ins[list[1]] == [] && g.ins[list[0]] != [];
    assert !StaysFirst(g, list);
    var h := Graph([[Edge(1, {}, 0)], [Edge(2, {}, 0)], [Edge(1, {}, 1)]],
                   [[], [Edge(0, {}, 0), Edge(2, {}, 0)], [Edge(1, {}, 0)]]);
    var three := [0, 1, 2];
    assert h.outs[1][0].point == 0 && three[0] == 0 && three[1] == 1 && h.ins[three[0]] != [];
    assert Leads(h.outs, 1, 0);
    assert ClosedSet(h.outs, {0}) && !Leads(h.outs, 0, 1);
    assert 1 in three && !StaysFirst(h, three);
  }

  /** After the attempt that reached everything from its given roots. */
  lemma FirstBlock(d: Dfs, comp: set<nat>, roots: set<nat>, g: Graph, list: seq<nat>, given: seq<nat>, last: seq<nat>)
    requires Inv(d, comp, roots) && d.st == [] && |d.pre| == |comp| && SameEnds(g.outs, d.outs) && Paired(g)
    requires list != [] && comp == Elements(list) && (forall b :: b in comp ==> b < |g.ins|) && Closed(g.outs, comp)
    requires (forall i :: 0 <= i < |list| ==> list[i] < |g.ins|) && EntryLast(g.ins, list, given)
    requires last != [] && Last(last) == Last(given) && Elements(last) <= comp && roots <= Elements(last)
    requires EndsWith(d.visit, last, roots)
    requires forall r :: r in last ==> r in given || forall s :: s in given ==> !Leads(g.outs, s, r)
    ensures |d.rpost| > 0 && (d.rpost[0] == list[0] <==> StaysFirst(g, list))
  {
    hide Inv, SpanningForest, EndsWith, Closed, Paired;
    SearchFinished(d, comp, roots);
    LastComesFirst(d, comp, roots, g.outs, last);
    var e := Last(last);
    if g.ins[e] == [] {
      forall r | r in last && r != e ensures !Leads(g.outs, r, e) {
        assert r in Elements(last);
        assert e in Elements(last);
        NothingLeadsIn(g, comp, r, e);
      }
    } else {
      assert given == [list[0]] && e == list[0];
      ApartIsStaysFirst(d, comp, roots, g, list, last);
    }
  }

  lemma ApartIsStaysFirst(d: Dfs, comp: set<nat>, roots: set<nat>, g: Graph, list: seq<nat>, last: seq<nat>)
    requires SpanningForest(d.outs, d.rpost, TablesOf(d, comp), roots) &&
               SameEnds(g.outs, d.outs)
    requires list != [] && comp == Elements(list) &&
               (forall i :: 0 <= i < |list| ==> list[i] < |g.ins| && g.ins[list[i]] != [])
    requires last != [] && Last(last) == list[0] && Elements(last) <= comp && roots <= Elements(last)
    requires forall r :: r in last ==> r == list[0] || !Leads(g.outs, list[0], r)
    ensures LastIsApart(g.outs, last) <==> StaysFirst(g, list)
  {
    hide SpanningForest, Leads;
    if LastIsApart(g.outs, last) {
      forall b | b in list && Leads(g.outs, b, list[0]) ensures Leads(g.outs, list[0], b) {
        assert b in comp;
        var r := RootLeads(d, comp, roots, g.outs, b);
        assert r in last;
        LeadsOn(g.outs, r, b, list[0]);
      }
    }
    if StaysFirst(g, list) {
      forall r | r in last && r != list[0] ensures !Leads(g.outs, r, list[0]) {
        assert r in Elements(last);
      }
    }
  }

  /** The first attempt: resets the fields and searches from the entry blocks. */
  method FirstAttempt(g: BlockGraph)
    returns (given: seq<nat>, rootlist: seq<nat>, preorder: seq<nat>, rpostorder: seq<nat>, extraroots: bool,
             ghost d: Dfs, ghost roots: set<nat>)
    requires Components(g) && g.list != []
    modifies g`ins, g`outs, g`visitCount, g`index, g`numDesc, g`copyMap
    ensures Components(g) && EdgesKept(old(g.G()), g.G(), Elements(g.list))
    ensures Inv(d, Elements(g.list), roots) && d.st == [] && |d.pre| == |Elements(g.list)|
    ensures d.outs == g.outs && d.visit == g.visitCount && d.index == g.index && d.num == g.numDesc
    ensures d.pre == preorder && d.rpost == rpostorder
    ensures roots <= Elements(rootlist) <= Elements(g.list)
    ensures forall i :: 0 <= i < |g.list| ==> g.copyMap[g.list[i]] == g.list[i]
    ensures Elements(given) <= Elements(g.list) && EntryLast(old(g.ins), g.list, given) && FreshRoots(old(g.ins), given)
    ensures given <= rootlist && AddedApart(old(g.outs), given, rootlist)
    ensures !extraroots ==> rootlist == given && EndsWith(d.visit, given, roots)
    ensures OneEntry(old(g.G()), g.list) ==> !extraroots && rootlist == [g.list[0]]
    ensures given == Heads(old(g.ins), g.list) && Completed(old(g.outs), g.list, given, rootlist)
  {
    hide Inv, Covers, FreshRoots, Closed, EntryLast, EndsWith, AddedApart, LastOnce, AttemptList, Completed, Heads;
    HeadsStay(g.G(), g.list);
    ghost var g0, comp := g.G(), Elements(g.list);
    ResetFields(g);
    given := EntryBlocks(g.ins, g.list);
    GivenOnce(g0.ins, given);
    var rpostorder0 := seq(|g.list|, _ => 0);
    assert forall b :: b in comp ==> g.visitCount[b] == -1 && g.index[b] == -1;
    rootlist, preorder, rpostorder, extraroots, d, roots := Repeat(g, given, rpostorder0, comp, g0);
    FoundByFirst(g0.outs, g.list, given, rootlist, extraroots);
    assert OneEntry(g0, g.list) ==> !extraroots && rootlist == given by {
      if OneEntry(g0, g.list) { ElementsOfOne(g.list[0]); }
    }
  }

  lemma FoundByFirst(outs: Adj, list: seq<nat>, given: seq<nat>, rootlist: seq<nat>, extraroots: bool)
    requires AttemptList(outs, list, given, rootlist, extraroots) && Pruned(outs, list, [], given) == given
    ensures Completed(outs, list, given, rootlist)
  {
    if !extraroots { ContinuedNone(outs, list, given); }
  }

  lemma FoundBySecond(outs: Adj, list: seq<nat>, given: seq<nat>, rootlist: seq<nat>)
    requires AttemptList(outs, list, given, rootlist, false)
    ensures rootlist == Pruned(outs, list, [], given)
  {
  }

  /** The first attempt, and the second one if the first needed further roots. The roots of the first
      reach everything, so the exception for a second failure is never thrown. */
  method Attempts(g: BlockGraph)
    returns (rootlist: seq<nat>, preorder: seq<nat>, rpostorder: seq<nat>, ghost d: Dfs, ghost roots: set<nat>)
    requires Components(g) && g.list != []
    modifies g`ins, g`outs, g`visitCount, g`index, g`numDesc, g`copyMap
    ensures Components(g) && EdgesKept(old(g.G()), g.G(), Elements(g.list))
    ensures Inv(d, Elements(g.list), roots) && d.st == [] && |d.pre| == |Elements(g.list)|
    ensures d.outs == g.outs && d.visit == g.visitCount && d.index == g.index && d.num == g.numDesc
    ensures d.pre == preorder && d.rpost == rpostorder
    ensures roots <= Elements(rootlist) <= Elements(g.list)
    ensures forall i :: 0 <= i < |g.list| ==> g.copyMap[g.list[i]] == g.list[i]
    ensures OneEntry(old(g.G()), g.list) ==> rootlist == [g.list[0]]
    ensures |d.rpost| > 0 && (d.rpost[0] == g.list[0] <==> StaysFirst(old(g.G()), g.list))
    ensures EntryOrder(old(g.G()), g.list, rootlist)
  {
    hide Inv, Covers, FreshRoots, StaysFirst, EntryLast, EndsWith, AddedApart, LastOnce, Last, Leads, OneEntry, Swapped,
      Completed, Heads, Pruned, EntryOrder;
    ghost var g0, comp := g.G(), Elements(g.list);
    var given, extraroots;
    given, rootlist, preorder, rpostorder, extraroots, d, roots := FirstAttempt(g);
    ghost var last := given;
    GivenLast(g0.ins, g.list, given);
    ghost var found := rootlist;
    if extraroots {
      RpostSize(d, comp, roots);
      SetOfDistinct(g.list);
      RootsCover(d, comp, roots, g0.outs);
      CoversMore(g0.outs, comp, roots, Elements(rootlist));
      AddedAreOther(g0.outs, given, rootlist);
      rootlist, preorder, rpostorder, d, roots, last := SecondAttempt(g, rootlist, |given| - 1, rpostorder, comp, g0);
    }
    OrderOfEntries(g0, g.list, found, rootlist);
    FirstBlock(d, comp, roots, g0, g.list, given, last);
  }

  /** Either the given roots reached everything, or the second attempt took those found by the first. */
  lemma OrderOfEntries(g: Graph, list: seq<nat>, found: seq<nat>, rootlist: seq<nat>)
    requires list != [] && Distinct(list) && Paired(g) && Closed(g.outs, Elements(list))
    requires var given := Heads(g.ins, list);
      && Completed(g.outs, list, given, found) && given <= found
      && ((rootlist == found == given) ||
          rootlist == Pruned(g.outs, list, [], Swapped(found, |given| - 1, |found| - 1)))
    ensures EntryOrder(g, list, rootlist)
  {
    hide Heads, Pruned, Completed, Closed, Paired;
    var given := Heads(g.ins, list);
    if rootlist == found == given {
      HeadsStay(g, list);
      SwappedWithItself(given, |given| - 1);
    }
  }

  lemma GivenLast(ins: Adj, list: seq<nat>, given: seq<nat>)
    requires list != [] && (forall i :: 0 <= i < |list| ==> list[i] < |ins|)
    requires EntryLast(ins, list, given) && FreshRoots(ins, given)
    ensures given != [] && LastOnce(given)
  {
  }

  lemma GivenOnce(ins: Adj, given: seq<nat>)
    requires FreshRoots(ins, given) && given != []
    ensures LastOnce(given)
  {
  }

  /** With the last given root moved to the end, the found roots are the given and the added ones. */
  lemma AddedAreOther(outs: Adj, given: seq<nat>, found: seq<nat>)
    requires given != [] && given <= found && AddedApart(outs, given, found) && LastOnce(given)
    ensures var last := Swapped(found, |given| - 1, |found| - 1);
      && LastOnce(last) && Last(last) == Last(given)
      && forall r :: r in last ==> r in given || forall s :: s in given ==> !Leads(outs, s, r)
  {
    var last := Swapped(found, |given| - 1, |found| - 1);
    forall i | 0 <= i < |found| ensures found[i] in given || forall s :: s in given ==> !Leads(outs, s, found[i]) {
      if i < |given| { assert found[i] == given[i]; }
    }
    forall i | 0 <= i < |last| - 1 ensures last[i] != Last(given) {
      if i == |given| - 1 {
        assert last[i] == found[|found| - 1];
        assert |found| > |given| && Last(given) in given && Leads(outs, Last(given), Last(given));
      } else if i < |given| {
        assert last[i] == given[..|given| - 1][i];
      } else {
        assert Last(given) in given && Leads(outs, Last(given), Last(given));
      }
    }
  }

  /** The second attempt, with the entry block moved to the end of the root list. */
  method SecondAttempt(g: BlockGraph, found: seq<nat>, origrootpos: nat, rpostorder0: seq<nat>, ghost comp: set<nat>,
                       ghost g0: Graph)
    returns (rootlist: seq<nat>, preorder: seq<nat>, rpostorder: seq<nat>, ghost d: Dfs, ghost roots: set<nat>,
        ghost last: seq<nat>)
    requires Components(g) && comp == Elements(g.list) && EdgesKept(g0, g.G(), comp) && Paired(g0) &&
               Closed(g0.ins, comp)
    requires origrootpos < |found| && Elements(found) <= comp && Covers(g0.outs, comp, Elements(found))
    requires |rpostorder0| == |g.list|
    requires LastOnce(Swapped(found, origrootpos, |found| - 1))
    modifies g`ins, g`outs, g`visitCount, g`index, g`numDesc, g`copyMap
    ensures Components(g) && EdgesKept(g0, g.G(), comp)
    ensures Inv(d, comp, roots) && d.st == [] && |d.pre| == |comp|
    ensures d.outs == g.outs && d.visit == g.visitCount && d.index == g.index && d.num == g.numDesc
    ensures d.pre == preorder && d.rpost == rpostorder && roots <= Elements(rootlist) <= comp
    ensures last == Swapped(found, origrootpos, |found| - 1)
    ensures Elements(last) <= comp && roots <= Elements(last) && EndsWith(d.visit, last, roots)
    ensures forall i :: 0 <= i < |g.list| ==> g.copyMap[g.list[i]] == g.list[i]
    ensures rootlist == Pruned(g0.outs, g.list, [], last)
  {
    hide Inv, Covers, FreshRoots, Closed, EndsWith, AttemptList, Pruned;
    rootlist := found;
    SwapKeepsElements(rootlist, |rootlist| - 1, origrootpos);
    var tmpbl := rootlist[|rootlist| - 1];
    rootlist := rootlist[|rootlist| - 1 := rootlist[origrootpos]];
    rootlist := rootlist[origrootpos := tmpbl];
    ResetFields(g);
    forall b | b in comp ensures g.visitCount[b] == -1 && g.index[b] == -1 {
      var i :| 0 <= i < |g.list| && g.list[i] == b;
    }
    var extraroots;
    last := rootlist;
    rootlist, preorder, rpostorder, extraroots, d, roots := Repeat(g, rootlist, rpostorder0, comp, g0);
    assert !extraroots;      // otherwise: "Could not generate spanning tree"
    FoundBySecond(g0.outs, g.list, last, rootlist);
  }

  lemma ElementsOfOne(x: nat)
    ensures Elements([x]) == {x}
  {
    assert [x][0] == x;
  }

  lemma RpostSize(d: Dfs, comp: set<nat>, roots: set<nat>)
    requires Inv(d, comp, roots)
    ensures |d.rpost| == |comp|
  {
  }

  lemma RpostIsList(d: Dfs, comp: set<nat>, roots: set<nat>)
    requires SpanningForest(d.outs, d.rpost, TablesOf(d, comp), roots)
    ensures Elements(d.rpost) == comp
    ensures forall i, j :: 0 <= i < j < |d.rpost| ==> d.rpost[i] != d.rpost[j]
  {
    forall b | b in comp ensures b in Elements(d.rpost) {
      assert d.rpost[d.index[b]] == b;
    }
    forall i, j | 0 <= i < j < |d.rpost| ensures d.rpost[i] != d.rpost[j] {
      assert d.index[d.rpost[i]] == i && d.index[d.rpost[j]] == j;
    }
  }

  lemma EmptyForest(g: BlockGraph)
    requires Components(g) && g.list == []
    ensures EdgesKept(g.G(), g.G(), {}) && Elements(g.list) == {} && !OneEntry(g.G(), g.list)
    ensures SpanningForest(g.outs, [], Tables([], g.visitCount, g.index, g.numDesc, [], {}), {})
  {
  }

  /** Labels every edge of the component graph and puts the blocks in reverse post-order. */
  method FindSpanningTree(g: BlockGraph)
    returns (preorder: seq<nat>, rootlist: seq<nat>, ghost par: seq<Option<(nat, nat)>>, ghost roots: set<nat>)
    requires Components(g)
    modifies g`ins, g`outs, g`visitCount, g`index, g`numDesc, g`copyMap, g`list
    ensures Components(g) && Elements(g.list) == Elements(old(g.list)) && |g.list| == |old(g.list)|
    ensures EdgesKept(old(g.G()), g.G(), Elements(g.list))
    ensures SpanningForest(g.outs, g.list, Tables(preorder, g.visitCount, g.index, g.numDesc, par, Elements(g.list)),
              roots)
    ensures roots <= Elements(rootlist) <= Elements(g.list) && (g.list != [] ==> g.list[0] in rootlist)
    ensures forall i :: 0 <= i < |g.list| ==> g.copyMap[g.list[i]] == g.list[i]
    ensures OneEntry(old(g.G()), old(g.list)) ==> rootlist == [g.list[0]] && g.list[0] == old(g.list[0])
    ensures g.list != [] ==> (g.list[0] == old(g.list[0]) <==> StaysFirst(old(g.G()), old(g.list)))
    ensures EntryList(old(g.G()), old(g.list), rootlist)
  {
    hide Inv, Covers, Closed, SpanningForest, EdgesKept, OneEntry, StaysFirst, EntryOrder;
    if |g.list| == 0 {
      EmptyForest(g);
      return [], [], [], {};
    }
    ghost var comp := Elements(g.list);
    ghost var d;
    var rpostorder;
    rootlist, preorder, rpostorder, d, roots := Attempts(g);
    SearchFinished(d, comp, roots);
    RpostIsList(d, comp, roots);
    RpostSize(d, comp, roots);
    SetOfDistinct(g.list);
    FirstIsRoot(d, comp, roots);
    if |rootlist| > 1 {
      SwapKeepsElements(rootlist, |rootlist| - 1, 0);
      var tmpbl := rootlist[|rootlist| - 1];
      rootlist := rootlist[|rootlist| - 1 := rootlist[0]];
      rootlist := rootlist[0 := tmpbl];
    }
    ElementsOfOne(g.list[0]);
    forall i | 0 <= i < |rpostorder| ensures rpostorder[i] in comp { assert rpostorder[i] in Elements(rpostorder); }
    g.list := rpostorder;
    par := d.par;
  }
}
