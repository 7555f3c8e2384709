/** The depth-first search of findSpanningTree as a sequence of states: what each push, label and pop
    keeps, and what the finished search says about every edge. */
module Forest {

  import opened Wrappers
  import opened Flow

  /** visit, index and num are the fields of the blocks (-1: not set yet); pre is the pre-order list,
      st the stack; next[b] counts the out-edges of b already looked at; par is the tree edge a block
      was first entered by; low is the smallest post-order index given so far. */
  datatype Dfs = Dfs(outs: Adj, visit: seq<int>, index: seq<int>, num: seq<int>, pre: seq<nat>, st: seq<nat>,
                     next: seq<nat>, rpost: seq<nat>, low: int, par: seq<Option<(nat, nat)>>)

  ghost function Elements(s: seq<nat>): set<nat> {
    set i | 0 <= i < |s| :: s[i]
  }

  /** The edges of component blocks stay among the component blocks. */
  ghost predicate Closed(outs: Adj, comp: set<nat>) {
    && (forall b :: b in comp ==> b < |outs|)
    && forall b: nat, k: nat :: b in comp && k < |outs[b]| ==> outs[b][k].point in comp
  }

  /** Tables have one row per block. */
  ghost predicate Shaped(d: Dfs, comp: set<nat>) {
    && |d.visit| == |d.outs| && |d.index| == |d.outs| && |d.num| == |d.outs|
    && |d.next| == |d.outs| && |d.par| == |d.outs| && |d.rpost| == |comp| && Closed(d.outs, comp)
  }

  predicate Seen(visit: seq<int>, b: nat) {
    b < |visit| && visit[b] >= 0
  }

  /** All out-edges of b have been followed and b has its post-order index. */
  predicate Finished(index: seq<int>, b: nat) {
    b < |index| && index[b] >= 0
  }

  // ---------- what the search keeps ----------

  ghost predicate PreOrder(visit: seq<int>, pre: seq<nat>, comp: set<nat>)
    requires forall b :: b in comp ==> b < |visit|
  {
    && (forall k :: 0 <= k < |pre| ==> pre[k] in comp && visit[pre[k]] == k)
    && forall b :: b in comp ==> (visit[b] == -1 || (0 <= visit[b] < |pre| && pre[visit[b]] == b))
  }

  ghost predicate PostOrder(index: seq<int>, rpost: seq<nat>, low: int, comp: set<nat>)
    requires |rpost| == |comp| && forall b :: b in comp ==> b < |index|
  {
    && 0 <= low <= |rpost|
    && (forall k :: low <= k < |rpost| ==> rpost[k] in comp && index[rpost[k]] == k)
    && forall b :: b in comp ==> (index[b] == -1 || (low <= index[b] < |rpost| && rpost[index[b]] == b))
  }

  /** The stack holds exactly the blocks in progress, in the order of their visits. */
  ghost predicate Stack(visit: seq<int>, index: seq<int>, st: seq<nat>, comp: set<nat>)
    requires forall b :: b in comp ==> b < |visit| && b < |index|
  {
    && (forall j :: 0 <= j < |st| ==> st[j] in comp && Seen(visit, st[j]) && !Finished(index, st[j]))
    && (forall i, j :: 0 <= i < j < |st| ==> visit[st[i]] < visit[st[j]])
    && forall b :: b in comp && Seen(visit, b) && !Finished(index, b) ==> b in st
  }

  /** The part of the pre-order below a block in progress ends where the next one on the stack starts. */
  ghost predicate Widths(visit: seq<int>, num: seq<int>, st: seq<nat>, count: nat)
    requires forall j :: 0 <= j < |st| ==> st[j] < |visit| && st[j] < |num|
  {
    forall j {:trigger num[st[j]]} :: 0 <= j < |st| ==>
      num[st[j]] >= 1 && visit[st[j]] + num[st[j]] == if j + 1 < |st| then visit[st[j + 1]] else count
  }

  /** The subtree of a finished block is a closed interval of the pre-order. */
  ghost predicate Nested(visit: seq<int>, index: seq<int>, num: seq<int>, count: nat, comp: set<nat>)
    requires forall b :: b in comp ==> b < |visit| && b < |index| && b < |num|
  {
    && (forall b :: b in comp && Finished(index, b) ==> Seen(visit, b) && num[b] >= 1 && visit[b] + num[b] <= count)
    && (forall u, w :: u in comp && w in comp && Finished(index, u) && visit[u] < visit[w] < visit[u] + num[u] ==>
          Finished(index, w) && visit[w] + num[w] <= visit[u] + num[u] && index[u] < index[w])
    && forall u, w ::
         u in comp && w in comp && Finished(index, u) && Finished(index, w) && visit[w] + num[w] <= visit[u] ==>
           index[u] < index[w]
  }

  const BACK: set<EdgeFlag> := {BackEdge, LoopEdge}

  /** What the label of a followed edge u -> v says. */
  ghost predicate EdgeOk(visit: seq<int>, index: seq<int>, num: seq<int>, par: seq<Option<(nat, nat)>>, comp: set<nat>,
                         u: nat, k: nat, v: nat, flags: set<EdgeFlag>)
    requires forall b :: b in comp ==> b < |visit| && b < |index| && b < |num| && b < |par|
    requires u in comp && v in comp
  {
    if flags == {TreeEdge} then
      && Seen(visit, v) && visit[u] < visit[v] && par[v] == Some((u, k))
      && (forall w :: w in comp && visit[u] < visit[w] < visit[v] ==>
         Finished(index, w) && visit[w] + num[w] <= visit[v])
      && (Finished(index, u) ==> Finished(index, v) && visit[v] + num[v] <= visit[u] + num[u] && index[u] < index[v])
    else if flags == {ForwardEdge} then
      && Finished(index, v) && visit[u] < visit[v]
      && (Finished(index, u) ==> visit[v] + num[v] <= visit[u] + num[u] && index[u] < index[v])
    else if flags == {CrossEdge} then
      && Finished(index, v) && visit[v] + num[v] <= visit[u]
      && (Finished(index, u) ==> index[u] < index[v])
    else
      && flags == BACK && Seen(visit, v) && visit[v] <= visit[u]
      && (Finished(index, v) ==> Finished(index, u) && visit[u] < visit[v] + num[v] && index[v] <= index[u])
  }

  /** Out-edges not yet looked at have no label, and a finished block has none of those. */
  ghost predicate NextsFit(d: Dfs, comp: set<nat>)
    requires Shaped(d, comp)
  {
    && (forall u: nat, k: nat :: u in comp && k < |d.outs[u]| && k >= d.next[u] ==> d.outs[u][k].flags == {})
    && forall u :: u in comp ==>
         (!Seen(d.visit, u) ==> d.next[u] == 0) && d.next[u] <= |d.outs[u]| &&
             (Finished(d.index, u) ==> d.next[u] == |d.outs[u]|)
  }

  /** Followed edges have labels that say the truth, the others have none. */
  ghost predicate Labels(d: Dfs, comp: set<nat>)
    requires Shaped(d, comp)
  {
    && (forall u: nat, k: nat :: u in comp && k < |d.outs[u]| && k < d.next[u] ==>
          EdgeOk(d.visit, d.index, d.num, d.par, comp, u, k, d.outs[u][k].point, d.outs[u][k].flags))
    && NextsFit(d, comp)
  }

  /** Every seen block has been entered by its tree edge, or is one of the roots. */
  ghost predicate Parents(d: Dfs, comp: set<nat>, roots: set<nat>)
    requires Shaped(d, comp)
  {
    forall v :: v in comp && Seen(d.visit, v) ==>
      if d.par[v].None? then v in roots
      else var (u, k) := d.par[v].value;
        u in comp && k < |d.outs[u]| && k < d.next[u] && d.outs[u][k].point == v && d.outs[u][k].flags == {TreeEdge}
  }

  /** A root is entered when everything seen before it is finished. */
  ghost predicate RootsApart(visit: seq<int>, index: seq<int>, num: seq<int>, par: seq<Option<(nat, nat)>>,
                             comp: set<nat>)
    requires forall b :: b in comp ==> b < |visit| && b < |index| && b < |num| && b < |par|
  {
    forall v, w :: v in comp && w in comp && Seen(visit, v) && par[v].None? && Seen(visit, w) && visit[w] < visit[v] ==>
      Finished(index, w) && visit[w] + num[w] <= visit[v]
  }

  ghost predicate Inv(d: Dfs, comp: set<nat>, roots: set<nat>) {
    && Shaped(d, comp) && PreOrder(d.visit, d.pre, comp) && PostOrder(d.index, d.rpost, d.low, comp)
    && d.low == |comp| - (|d.pre| - |d.st|)
    && Stack(d.visit, d.index, d.st, comp) && Widths(d.visit, d.num, d.st, |d.pre|)
    && Nested(d.visit, d.index, d.num, |d.pre|, comp)
    && Labels(d, comp) && Parents(d, comp, roots) && RootsApart(d.visit, d.index, d.num, d.par, comp)
  }

  // ---------- the steps ----------

  /** Block b is entered: it gets the next pre-order number and goes on the stack. */
  function Enter(d: Dfs, b: nat, par: Option<(nat, nat)>): Dfs
    requires b < |d.visit| && b < |d.num| && b < |d.par|
  {
    d.(visit := d.visit[b := |d.pre|], pre := d.pre + [b], num := d.num[b := 1], st := d.st + [b],
        par := d.par[b := par])
  }

  function Top(d: Dfs): nat
    requires |d.st| > 0
  {
    d.st[|d.st| - 1]
  }

  /** The block on top of the stack has an out-edge not yet looked at. */
  predicate MoreEdges(d: Dfs) {
    |d.st| > 0 && Top(d) < |d.outs| && Top(d) < |d.next| && d.next[Top(d)] < |d.outs[Top(d)]|
  }

  /** The target of that edge. */
  function Child(d: Dfs): nat
    requires MoreEdges(d)
  {
    d.outs[Top(d)][d.next[Top(d)]].point
  }

  /** The next out-edge of the block on top of the stack gets its label. */
  function LabelTop(d: Dfs, flags: set<EdgeFlag>): Dfs
    requires MoreEdges(d)
  {
    var u := Top(d);
    var k := d.next[u];
    d.(outs := d.outs[u := d.outs[u][k := d.outs[u][k].(flags := flags)]], next := d.next[u := k + 1])
  }

  /** The block on top of the stack is finished. */
  function Leave(d: Dfs): Dfs
    requires |d.st| > 0 && Top(d) < |d.index| && 0 < d.low <= |d.rpost|
    requires |d.st| > 1 ==> Top(d) < |d.num| && d.st[|d.st| - 2] < |d.num|
  {
    var u := Top(d);
    d.(low := d.low - 1, index := d.index[u := d.low - 1], rpost := d.rpost[d.low - 1 := u], st := d.st[..|d.st| - 1],
       num := if |d.st| > 1 then d.num[d.st[|d.st| - 2] := d.num[d.st[|d.st| - 2]] + d.num[u]] else d.num)
  }

  /** Distinct members of a set that miss one of its elements are fewer than the set. */
  lemma {:induction false} FewerThan(part: seq<nat>, comp: set<nat>, x: nat)
    requires forall i, j :: 0 <= i < j < |part| ==> part[i] != part[j]
    requires forall i :: 0 <= i < |part| ==> part[i] in comp
    requires x in comp && x !in part
    ensures |part| < |comp|
  {
    if |part| > 0 {
      var rest := comp - {part[0]};
      assert |rest| == |comp| - 1;
      FewerThan(part[1..], rest, x);
    }
  }

  lemma UnseenMeansRoom(visit: seq<int>, pre: seq<nat>, comp: set<nat>, b: nat)
    requires (forall c :: c in comp ==> c < |visit|) && PreOrder(visit, pre, comp) && b in comp && !Seen(visit, b)
    ensures |pre| < |comp|
  {
    FewerThan(pre, comp, b);
  }

  lemma EnterKeepsPreOrder(visit: seq<int>, pre: seq<nat>, comp: set<nat>, b: nat)
    requires (forall c :: c in comp ==> c < |visit|) && PreOrder(visit, pre, comp) && b in comp && !Seen(visit, b)
    ensures PreOrder(visit[b := |pre|], pre + [b], comp)
  {
  }

  lemma EnterKeepsStack(visit: seq<int>, index: seq<int>, st: seq<nat>, comp: set<nat>, b: nat, count: nat)
    requires (forall c :: c in comp ==> c < |visit| && c < |index|) && Stack(visit, index, st, comp)
    requires b in comp && !Seen(visit, b) && !Finished(index, b)
    requires forall c :: c in comp ==> visit[c] < count
    ensures Stack(visit[b := count], index, st + [b], comp)
  {
    forall c | c in comp && Seen(visit[b := count], c) && !Finished(index, c) ensures c in st + [b] {
      if c != b { assert c in st; }
    }
  }

  lemma EnterKeepsWidths(visit: seq<int>, num: seq<int>, st: seq<nat>, b: nat, count: nat)
    requires (forall j :: 0 <= j < |st| ==> st[j] < |visit| && st[j] < |num| && st[j] != b) && b < |visit| && b < |num|
    requires Widths(visit, num, st, count)
    ensures Widths(visit[b := count], num[b := 1], st + [b], count + 1)
  {
  }

  lemma EnterKeepsNested(visit: seq<int>, index: seq<int>, num: seq<int>, comp: set<nat>, b: nat, count: nat)
    requires forall c :: c in comp ==> c < |visit| && c < |index| && c < |num|
    requires Nested(visit, index, num, count, comp) && b in comp && !Seen(visit, b)
    ensures Nested(visit[b := count], index, num[b := 1], count + 1, comp)
  {
    assert !Finished(index, b);
  }

  lemma EnterFacts(d: Dfs, comp: set<nat>, roots: set<nat>, b: nat)
    requires Inv(d, comp, roots) && b in comp && !Seen(d.visit, b)
    ensures |d.visit| == |d.index| == |d.num| == |d.par| && Shaped(d, comp)
    ensures forall c :: c in comp ==> c < |d.visit| && d.visit[c] < |d.pre|
    ensures PreOrder(d.visit, d.pre, comp) && Stack(d.visit, d.index, d.st, comp) && !Finished(d.index, b)
    ensures forall j :: 0 <= j < |d.st| ==> d.st[j] in comp && d.st[j] != b
    ensures Widths(d.visit, d.num, d.st, |d.pre|) && Nested(d.visit, d.index, d.num, |d.pre|, comp)
  {
    hide RootsApart, Labels, Parents, PostOrder, Widths;
    assert forall j :: 0 <= j < |d.st| ==> Seen(d.visit, d.st[j]);
  }

  lemma EnterKeepsTables(d: Dfs, comp: set<nat>, roots: set<nat>, b: nat, par: Option<(nat, nat)>)
    requires Inv(d, comp, roots) && b in comp && !Seen(d.visit, b)
    ensures var e := Enter(d, b, par);
      && PreOrder(e.visit, e.pre, comp) && Stack(e.visit, e.index, e.st, comp)
      && Widths(e.visit, e.num, e.st, |e.pre|) && Nested(e.visit, e.index, e.num, |e.pre|, comp)
      && |d.pre| < |comp|
  {
    hide Inv, Shaped, PreOrder, Stack, Nested, Widths, Seen, Finished;
    EnterFacts(d, comp, roots, b);
    UnseenMeansRoom(d.visit, d.pre, comp, b);
    EnterKeepsPreOrder(d.visit, d.pre, comp, b);
    EnterKeepsNested(d.visit, d.index, d.num, comp, b, |d.pre|);
    EnterKeepsStack(d.visit, d.index, d.st, comp, b, |d.pre|);
    EnterKeepsWidths(d.visit, d.num, d.st, b, |d.pre|);
  }

  /** A root is entered with an empty stack. */
  lemma EnterRoot(d: Dfs, comp: set<nat>, roots: set<nat>, b: nat)
    requires Inv(d, comp, roots) && d.st == [] && b in comp && !Seen(d.visit, b) && b in roots
    ensures Inv(Enter(d, b, None), comp, roots)
  {
    EnterKeepsTables(d, comp, roots, b, None);
    var e := Enter(d, b, None);
    forall u: nat, k: nat | u in comp && k < |d.outs[u]| && k < d.next[u]
      ensures EdgeOk(e.visit, e.index, e.num, e.par, comp, u, k, d.outs[u][k].point, d.outs[u][k].flags)
    {
      OldEdgeOk(d, comp, roots, b, None, u, k);
    }
    EnterKeepsRoots(d, comp, roots, b, None);
  }

  lemma EnterKeepsRoots(d: Dfs, comp: set<nat>, roots: set<nat>, b: nat, par: Option<(nat, nat)>)
    requires Inv(d, comp, roots) && b in comp && !Seen(d.visit, b)
    requires par.None? ==> d.st == []
    ensures var e := Enter(d, b, par); RootsApart(e.visit, e.index, e.num, e.par, comp)
  {
    hide EdgeOk, Parents, Labels, PostOrder;
    var e := Enter(d, b, par);
    forall v, w | v in comp && w in comp && Seen(e.visit, v) && e.par[v].None? && Seen(e.visit, w) &&
        e.visit[w] < e.visit[v]
      ensures Finished(e.index, w) && e.visit[w] + e.num[w] <= e.visit[v]
    {
      assert w != b && Seen(d.visit, w);
      if v == b { assert w !in d.st; }
    }
  }

  lemma LabelTopLabels(d: Dfs, comp: set<nat>, roots: set<nat>, flags: set<EdgeFlag>)
    requires Inv(d, comp, roots) && MoreEdges(d) && Top(d) in comp && Seen(d.visit, Top(d)) &&
               !Finished(d.index, Top(d))
    requires Child(d) in comp && EdgeOk(d.visit, d.index, d.num, d.par, comp, Top(d), d.next[Top(d)], Child(d), flags)
    ensures Shaped(LabelTop(d, flags), comp) && Labels(LabelTop(d, flags), comp)
  {
    hide RootsApart, Nested, Widths, Stack, PreOrder, PostOrder, Parents;
    var u, k, e := Top(d), d.next[Top(d)], LabelTop(d, flags);
    forall x: nat, i: nat | x in comp && i < |e.outs[x]| ensures e.outs[x][i].point in comp {
      assert e.outs[x][i].point == d.outs[x][i].point;
    }
    forall x: nat, i: nat | x in comp && i < |e.outs[x]| && i < e.next[x]
      ensures EdgeOk(e.visit, e.index, e.num, e.par, comp, x, i, e.outs[x][i].point, e.outs[x][i].flags)
    {
      if !(x == u && i == k) {
        assert e.outs[x][i] == d.outs[x][i] && i < d.next[x];
      }
    }
    forall x: nat, i: nat | x in comp && i < |e.outs[x]| && i >= e.next[x] ensures e.outs[x][i].flags == {} {
      assert e.outs[x][i] == d.outs[x][i] && i >= d.next[x];
    }
  }

  lemma LabelTopParents(d: Dfs, comp: set<nat>, roots: set<nat>, flags: set<EdgeFlag>)
    requires Inv(d, comp, roots) && MoreEdges(d) && Top(d) in comp && Shaped(LabelTop(d, flags), comp)
    ensures Parents(LabelTop(d, flags), comp, roots)
  {
    hide RootsApart, Nested, Widths, Stack, PreOrder, PostOrder, EdgeOk;
    var e := LabelTop(d, flags);
    forall w | w in comp && Seen(e.visit, w) && e.par[w].Some?
      ensures var (x, i) := e.par[w].value;
        x in comp && i < |e.outs[x]| && i < e.next[x] && e.outs[x][i].point == w && e.outs[x][i].flags == {TreeEdge}
    {
      assert Seen(d.visit, w);
      var (x, i) := d.par[w].value;
      assert !(x == Top(d) && i == d.next[Top(d)]);
    }
  }

  /** Labelling the next edge of the top block truthfully keeps the labels truthful. */
  lemma LabelTopKeeps(d: Dfs, comp: set<nat>, roots: set<nat>, flags: set<EdgeFlag>)
    requires Inv(d, comp, roots) && MoreEdges(d)
    requires Top(d) in comp && Seen(d.visit, Top(d)) && !Finished(d.index, Top(d))
    requires Child(d) in comp && EdgeOk(d.visit, d.index, d.num, d.par, comp, Top(d), d.next[Top(d)], Child(d), flags)
    ensures Inv(LabelTop(d, flags), comp, roots)
  {
    LabelTopLabels(d, comp, roots, flags);
    LabelTopParents(d, comp, roots, flags);
  }

  /** A block in progress was seen no later than the top of the stack. */
  lemma InProgressBelowTop(visit: seq<int>, index: seq<int>, st: seq<nat>, comp: set<nat>, w: nat)
    requires (forall b :: b in comp ==> b < |visit| && b < |index|) && Stack(visit, index, st, comp) && |st| > 0
    requires w in comp && Seen(visit, w) && !Finished(index, w)
    ensures visit[w] <= visit[st[|st| - 1]]
  {
    var j :| 0 <= j < |st| && st[j] == w;
  }

  /** Blocks seen later than the top of the stack are finished. */
  lemma LaterIsFinished(d: Dfs, comp: set<nat>, roots: set<nat>, w: nat)
    requires Inv(d, comp, roots) && |d.st| > 0 && w in comp && d.visit[Top(d)] < d.visit[w]
    ensures Finished(d.index, w)
  {
    if !Finished(d.index, w) { InProgressBelowTop(d.visit, d.index, d.st, comp, w); }
  }

  lemma LabelBack(d: Dfs, comp: set<nat>, roots: set<nat>)
    requires Inv(d, comp, roots) && MoreEdges(d) && Seen(d.visit, Child(d)) && !Finished(d.index, Child(d))
    ensures Inv(LabelTop(d, BACK), comp, roots)
  {
    assert Top(d) in comp && Seen(d.visit, Top(d)) && !Finished(d.index, Top(d));
    var v := Child(d);
    if d.visit[Top(d)] < d.visit[v] { LaterIsFinished(d, comp, roots, v); }
    LabelTopKeeps(d, comp, roots, BACK);
  }

  lemma DoneEdgeOk(visit: seq<int>, index: seq<int>, num: seq<int>, par: seq<Option<(nat, nat)>>, pre: seq<nat>,
                   comp: set<nat>, u: nat, k: nat, v: nat)
    requires forall b :: b in comp ==> b < |visit| && b < |index| && b < |num| && b < |par|
    requires PreOrder(visit, pre, comp) && Nested(visit, index, num, |pre|, comp)
    requires u in comp && v in comp && Seen(visit, u) && !Finished(index, u) && Finished(index, v)
    ensures EdgeOk(visit, index, num, par, comp, u, k, v, if visit[u] < visit[v] then {ForwardEdge} else {CrossEdge})
  {
    assert pre[visit[u]] == u && pre[visit[v]] == v;
  }

  lemma LabelDone(d: Dfs, comp: set<nat>, roots: set<nat>)
    requires Inv(d, comp, roots) && MoreEdges(d) && Finished(d.index, Child(d))
    ensures Inv(LabelTop(d, if d.visit[Top(d)] < d.visit[Child(d)] then {ForwardEdge} else {CrossEdge}), comp, roots)
  {
    hide RootsApart, Nested, Widths, PreOrder, PostOrder, Labels, Parents, EdgeOk;
    assert Top(d) in comp && Seen(d.visit, Top(d)) && !Finished(d.index, Top(d)) && Child(d) in comp;
    DoneEdgeOk(d.visit, d.index, d.num, d.par, d.pre, comp, Top(d), d.next[Top(d)], Child(d));
    LabelTopKeeps(d, comp, roots, if d.visit[Top(d)] < d.visit[Child(d)] then {ForwardEdge} else {CrossEdge});
  }

  /** A child is entered along the edge just labelled as a tree edge. */
  lemma EnterChild(d: Dfs, comp: set<nat>, roots: set<nat>)
    requires Inv(d, comp, roots) && MoreEdges(d) && !Seen(d.visit, Child(d))
    ensures Child(d) in comp
    ensures Inv(Enter(LabelTop(d, {TreeEdge}), Child(d), Some((Top(d), d.next[Top(d)]))), comp, roots)
  {
    var u, k, v := Top(d), d.next[Top(d)], Child(d);
    assert u in comp && v in comp;
    var par := Some((u, k));
    EnterKeepsTables(d, comp, roots, v, par);
    EnterKeepsRoots(d, comp, roots, v, par);
    EnterChildLabels(d, comp, roots);
  }

  lemma EnterChildLabels(d: Dfs, comp: set<nat>, roots: set<nat>)
    requires Inv(d, comp, roots) && MoreEdges(d) && Child(d) in comp && !Seen(d.visit, Child(d))
    ensures var e := Enter(LabelTop(d, {TreeEdge}), Child(d), Some((Top(d), d.next[Top(d)])));
      Shaped(e, comp) && Labels(e, comp) && Parents(e, comp, roots)
  {
    hide RootsApart, Nested, Widths, PostOrder;
    var u, k, v := Top(d), d.next[Top(d)], Child(d);
    assert u in comp && Seen(d.visit, u) && !Finished(d.index, u);
    var e := Enter(LabelTop(d, {TreeEdge}), v, Some((u, k)));
    forall x: nat, i: nat | x in comp && i < |e.outs[x]| ensures e.outs[x][i].point in comp {
      assert e.outs[x][i].point == d.outs[x][i].point;
    }
    forall x: nat, i: nat | x in comp && i < |e.outs[x]| && i < e.next[x]
      ensures EdgeOk(e.visit, e.index, e.num, e.par, comp, x, i, e.outs[x][i].point, e.outs[x][i].flags)
    {
      if x == u && i == k {
        NewTreeEdgeOk(d, comp, roots);
      } else {
        assert e.outs[x][i] == d.outs[x][i] && i < d.next[x];
        assert EdgeOk(d.visit, d.index, d.num, d.par, comp, x, i, d.outs[x][i].point, d.outs[x][i].flags);
        OldEdgeOk(d, comp, roots, v, Some((u, k)), x, i);
      }
    }
    forall x: nat, i: nat | x in comp && i < |e.outs[x]| && i >= e.next[x] ensures e.outs[x][i].flags == {} {
      assert e.outs[x][i] == d.outs[x][i] && i >= d.next[x];
    }
    EnterChildParents(d, comp, roots);
  }

  lemma NewTreeEdgeOk(d: Dfs, comp: set<nat>, roots: set<nat>)
    requires Inv(d, comp, roots) && MoreEdges(d) && Top(d) in comp && Child(d) in comp && !Seen(d.visit, Child(d))
    ensures var e := Enter(LabelTop(d, {TreeEdge}), Child(d), Some((Top(d), d.next[Top(d)])));
      EdgeOk(e.visit, e.index, e.num, e.par, comp, Top(d), d.next[Top(d)], Child(d), {TreeEdge})
  {
    hide RootsApart, Parents, Widths, PostOrder;
    assert Seen(d.visit, Top(d)) && !Finished(d.index, Top(d));
    forall w | w in comp && d.visit[Top(d)] < d.visit[w] ensures Finished(d.index, w) {
      LaterIsFinished(d, comp, roots, w);
    }
  }

  lemma OldEdgeOk(d: Dfs, comp: set<nat>, roots: set<nat>, b: nat, par: Option<(nat, nat)>, x: nat, i: nat)
    requires Inv(d, comp, roots) && b in comp && !Seen(d.visit, b) && x in comp && i < |d.outs[x]| && i < d.next[x]
    ensures var e := Enter(d, b, par);
      EdgeOk(e.visit, e.index, e.num, e.par, comp, x, i, d.outs[x][i].point, d.outs[x][i].flags)
  {
    hide RootsApart, Parents, Widths, PostOrder, Stack;
    assert EdgeOk(d.visit, d.index, d.num, d.par, comp, x, i, d.outs[x][i].point, d.outs[x][i].flags);
    assert Seen(d.visit, x);
  }

  lemma EnterChildParents(d: Dfs, comp: set<nat>, roots: set<nat>)
    requires Inv(d, comp, roots) && MoreEdges(d) && Top(d) in comp && Child(d) in comp && !Seen(d.visit, Child(d))
    requires Shaped(Enter(LabelTop(d, {TreeEdge}), Child(d), Some((Top(d), d.next[Top(d)]))), comp)
    ensures Parents(Enter(LabelTop(d, {TreeEdge}), Child(d), Some((Top(d), d.next[Top(d)]))), comp, roots)
  {
    hide RootsApart, Nested, Widths, PostOrder, Stack, EdgeOk;
    var u, k, v := Top(d), d.next[Top(d)], Child(d);
    var e := Enter(LabelTop(d, {TreeEdge}), v, Some((u, k)));
    forall w | w in comp && Seen(e.visit, w) && e.par[w].Some?
      ensures var (x, i) := e.par[w].value;
        x in comp && i < |e.outs[x]| && i < e.next[x] && e.outs[x][i].point == w && e.outs[x][i].flags == {TreeEdge}
    {
      if w != v {
        assert Seen(d.visit, w);
        var (x, i) := d.par[w].value;
        assert !(x == u && i == k);
      }
    }
  }

  lemma LeaveKeepsPostOrder(d: Dfs, comp: set<nat>, roots: set<nat>)
    requires Inv(d, comp, roots) && |d.st| > 0 && d.low > 0 && Top(d) in comp
    requires |d.st| > 1 ==> d.st[|d.st| - 2] in comp
    ensures var e := Leave(d); PostOrder(e.index, e.rpost, e.low, comp)
  {
    hide RootsApart, Nested, Widths, EdgeOk, Parents, Labels;
    assert !Finished(d.index, Top(d));
  }

  lemma PopKeepsStack(visit: seq<int>, index: seq<int>, st: seq<nat>, comp: set<nat>, i: nat)
    requires (forall b :: b in comp ==> b < |visit| && b < |index|) && Stack(visit, index, st, comp) && |st| > 0
    requires st[|st| - 1] < |index|
    ensures Stack(visit, index[st[|st| - 1] := i], st[..|st| - 1], comp)
  {
    var n := |st| - 1;
    var after := index[st[n] := i];
    forall j | 0 <= j < n ensures st[..n][j] in comp && Seen(visit, st[..n][j]) && !Finished(after, st[..n][j]) {
      assert st[..n][j] == st[j] && visit[st[j]] < visit[st[n]];
    }
    forall b | b in comp && Seen(visit, b) && !Finished(after, b) ensures b in st[..n] {
      assert b in st;
      var j :| 0 <= j < |st| && st[j] == b;
      assert st[..n][j] == b;
    }
  }

  lemma LeaveKeepsWidths(d: Dfs, comp: set<nat>, roots: set<nat>)
    requires Inv(d, comp, roots) && |d.st| > 0 && d.low > 0 && Top(d) in comp
    requires |d.st| > 1 ==> d.st[|d.st| - 2] in comp
    ensures var e := Leave(d);
              (forall j :: 0 <= j < |e.st| ==> e.st[j] in comp) && Widths(e.visit, e.num, e.st, |e.pre|)
  {
    hide RootsApart, Nested, PreOrder, EdgeOk, Labels, Parents;
    var e, n := Leave(d), |d.st|;
    forall j | 0 <= j < n - 1
      ensures e.st[j] in comp && e.num[e.st[j]] >= 1
      ensures e.visit[e.st[j]] + e.num[e.st[j]] == if j + 1 < n - 1 then e.visit[e.st[j + 1]] else |e.pre|
    {
      var b, c := d.st[j], d.st[j + 1];
      assert b in comp && c in comp && e.st[j] == b;
      assert d.num[b] >= 1 && d.visit[b] + d.num[b] == d.visit[c];
      if j == n - 2 {
        assert c == Top(d) && d.num[c] >= 1 && d.visit[c] + d.num[c] == |d.pre|;
      } else {
        assert d.visit[b] < d.visit[d.st[n - 2]];
        assert e.num[b] == d.num[b] && e.st[j + 1] == c;
      }
    }
  }

  /** What finishing the top block does to the fields: the top gets a smaller index than all finished
      blocks and ends the pre-order so far; nothing of a finished block changes. */
  ghost predicate Finishes(visit: seq<int>, index: seq<int>, num: seq<int>, after: seq<int>, nums: seq<int>,
                           comp: set<nat>, top: nat, count: nat)
    requires forall b :: b in comp ==> b < |visit| && b < |index| && b < |num| && b < |after| && b < |nums|
    requires top in comp
  {
    && index[top] < 0 <= after[top] && nums[top] >= 1 && visit[top] + nums[top] == count && nums[top] == num[top]
    && (forall b :: b in comp && b != top ==> after[b] == index[b])
    && (forall b :: b in comp && index[b] >= 0 ==> nums[b] == num[b] && after[top] < index[b])
    && (forall w :: w in comp && visit[top] < visit[w] ==> index[w] >= 0)
  }

  lemma LeaveFinishes(d: Dfs, comp: set<nat>, roots: set<nat>)
    requires Inv(d, comp, roots) && |d.st| > 0 && d.low > 0 && Top(d) in comp
    requires |d.st| > 1 ==> d.st[|d.st| - 2] in comp
    ensures Finishes(d.visit, d.index, d.num, Leave(d).index, Leave(d).num, comp, Top(d), |d.pre|)
  {
    assert d.num[d.st[|d.st| - 1]] >= 1;
    if |d.st| > 1 { assert d.visit[d.st[|d.st| - 2]] < d.visit[Top(d)]; }
    assert |d.st| > 1 ==> !Finished(d.index, d.st[|d.st| - 2]);
    assert !Finished(d.index, Top(d));
    forall w | w in comp && d.visit[Top(d)] < d.visit[w] ensures d.index[w] >= 0 {
      LaterIsFinished(d, comp, roots, w);
    }
  }

  lemma FinishKeepsNested(visit: seq<int>, index: seq<int>, num: seq<int>, after: seq<int>, nums: seq<int>,
                          comp: set<nat>, top: nat, count: nat)
    requires forall b :: b in comp ==> b < |visit| && b < |index| && b < |num| && b < |after| && b < |nums|
    requires top in comp && Seen(visit, top) && Finishes(visit, index, num, after, nums, comp, top, count)
    requires Nested(visit, index, num, count, comp)
    ensures Nested(visit, after, nums, count, comp)
  {
    forall u, w | u in comp && w in comp && Finished(after, u) && visit[u] < visit[w] < visit[u] + nums[u]
      ensures Finished(after, w) && visit[w] + nums[w] <= visit[u] + nums[u] && after[u] < after[w]
    {
      assert u != top ==> Finished(index, u);
      assert Finished(index, w);
    }
  }

  lemma FinishKeepsEdge(visit: seq<int>, index: seq<int>, num: seq<int>, after: seq<int>, nums: seq<int>,
                        par: seq<Option<(nat, nat)>>, comp: set<nat>, top: nat, count: nat,
                        u: nat, k: nat, v: nat, flags: set<EdgeFlag>)
    requires forall b :: b in comp ==> b < |visit| && b < |index| && b < |num| && b < |after| && b < |nums| && b < |par|
    requires top in comp && Seen(visit, top) && Finishes(visit, index, num, after, nums, comp, top, count)
    requires u in comp && v in comp && Seen(visit, u) && visit[u] < count
    requires forall b :: b in comp && Finished(index, b) ==> visit[b] + num[b] <= count
    requires u != top ==> visit[u] != visit[top]
    requires EdgeOk(visit, index, num, par, comp, u, k, v, flags)
    ensures EdgeOk(visit, after, nums, par, comp, u, k, v, flags)
  {
  }

  lemma LeaveTop(d: Dfs, comp: set<nat>, roots: set<nat>)
    requires Inv(d, comp, roots) && |d.st| > 0 && Top(d) in comp && !MoreEdges(d)
    ensures 0 < d.low <= |d.rpost| && (|d.st| > 1 ==> d.st[|d.st| - 2] in comp) && Inv(Leave(d), comp, roots)
  {
    hide RootsApart, Nested, PreOrder, EdgeOk, Parents, Labels, Widths, Stack, PostOrder;
    LeaveFits(d, comp, roots);
    var e, top := Leave(d), Top(d);
    LeaveKeepsPostOrder(d, comp, roots);
    PopKeepsStack(d.visit, d.index, d.st, comp, d.low - 1);
    LeaveKeepsWidths(d, comp, roots);
    LeaveFinishes(d, comp, roots);
    FinishKeepsNested(d.visit, d.index, d.num, e.index, e.num, comp, top, |d.pre|);
    LeaveKeepsLabels(d, comp, roots);
    FinishKeepsRoots(d.visit, d.index, d.num, e.index, e.num, d.par, comp, top, |d.pre|);
  }

  lemma LeaveFits(d: Dfs, comp: set<nat>, roots: set<nat>)
    requires Inv(d, comp, roots) && |d.st| > 0
    ensures 0 < d.low <= |d.rpost| && Top(d) in comp && (|d.st| > 1 ==> d.st[|d.st| - 2] in comp)
    ensures Seen(d.visit, Top(d)) && !Finished(d.index, Top(d))
  {
    hide RootsApart, Nested, EdgeOk, Parents, Labels, Widths;
    assert d.st[|d.st| - 1] in comp && (|d.st| > 1 ==> d.st[|d.st| - 2] in comp);
    StackFits(d, comp, roots);
  }

  lemma FinishKeepsRoots(visit: seq<int>, index: seq<int>, num: seq<int>, after: seq<int>, nums: seq<int>,
                         par: seq<Option<(nat, nat)>>, comp: set<nat>, top: nat, count: nat)
    requires forall b :: b in comp ==> b < |visit| && b < |index| && b < |num| && b < |after| && b < |nums| && b < |par|
    requires top in comp && Finishes(visit, index, num, after, nums, comp, top, count)
    requires RootsApart(visit, index, num, par, comp)
    ensures RootsApart(visit, after, nums, par, comp)
  {
  }

  lemma FinishKeepsEdgeOf(d: Dfs, comp: set<nat>, roots: set<nat>, u: nat, k: nat)
    requires Inv(d, comp, roots) && |d.st| > 0 && Top(d) in comp && !MoreEdges(d) && d.low > 0
    requires |d.st| > 1 ==> d.st[|d.st| - 2] in comp
    requires u in comp && k < |d.outs[u]| && k < d.next[u]
    ensures var e := Leave(d);
      EdgeOk(e.visit, e.index, e.num, e.par, comp, u, k, e.outs[u][k].point, e.outs[u][k].flags)
  {
    hide RootsApart, Widths;
    var e, top := Leave(d), Top(d);
    assert Seen(d.visit, top) && !Finished(d.index, top);
    LeaveFinishes(d, comp, roots);
    assert Seen(d.visit, u) && d.pre[d.visit[u]] == u && d.pre[d.visit[top]] == top;
    FinishKeepsEdge(d.visit, d.index, d.num, e.index, e.num, d.par, comp, top, |d.pre|, u, k,
                    d.outs[u][k].point, d.outs[u][k].flags);
  }

  lemma LeaveKeepsParents(d: Dfs, comp: set<nat>, roots: set<nat>)
    requires Inv(d, comp, roots) && |d.st| > 0 && Top(d) in comp && !MoreEdges(d) && d.low > 0
    requires |d.st| > 1 ==> d.st[|d.st| - 2] in comp
    ensures Shaped(Leave(d), comp) && Parents(Leave(d), comp, roots)
  {
    hide RootsApart, Widths, Nested, Stack, PreOrder, PostOrder, Labels;
    LeaveFits(d, comp, roots);
  }

  lemma LeaveKeepsNexts(d: Dfs, comp: set<nat>, roots: set<nat>)
    requires Inv(d, comp, roots) && |d.st| > 0 && Top(d) in comp && !MoreEdges(d) && d.low > 0
    requires |d.st| > 1 ==> d.st[|d.st| - 2] in comp
    ensures Shaped(Leave(d), comp) && NextsFit(Leave(d), comp)
  {
    hide RootsApart, Widths, Nested, Stack, PreOrder, PostOrder, Parents, EdgeOk;
    LeaveFits(d, comp, roots);
    assert NextsFit(d, comp);
  }

  lemma LeaveKeepsLabels(d: Dfs, comp: set<nat>, roots: set<nat>)
    requires Inv(d, comp, roots) && |d.st| > 0 && Top(d) in comp && !MoreEdges(d) && d.low > 0
    requires |d.st| > 1 ==> d.st[|d.st| - 2] in comp
    ensures Labels(Leave(d), comp) && Parents(Leave(d), comp, roots)
  {
    hide RootsApart, Widths, EdgeOk, Nested, Stack, PreOrder, PostOrder, Parents;
    LeaveFits(d, comp, roots);
    LeaveKeepsParents(d, comp, roots);
    LeaveKeepsNexts(d, comp, roots);
    var e := Leave(d);
    assert e.outs == d.outs && e.next == d.next;
    forall u: nat, k: nat | u in comp && k < |e.outs[u]| && k < e.next[u]
      ensures EdgeOk(e.visit, e.index, e.num, e.par, comp, u, k, e.outs[u][k].point, e.outs[u][k].flags)
    {
      FinishKeepsEdgeOf(d, comp, roots, u, k);
    }
  }

  lemma StackFits(d: Dfs, comp: set<nat>, roots: set<nat>)
    requires Inv(d, comp, roots) && |d.st| > 0 && Top(d) in comp
    ensures d.low > 0
  {
    FewerThan(d.pre[1..], comp, d.pre[0]);
  }

  /** The next out-edge of the top block is labelled, and its target entered if it has not been seen. */
  function Follow(d: Dfs): Dfs
    requires MoreEdges(d) && |d.visit| == |d.index| == |d.num| == |d.par| && Top(d) < |d.visit| && Child(d) < |d.visit|
  {
    var u, v := Top(d), Child(d);
    if d.visit[v] == -1 then Enter(LabelTop(d, {TreeEdge}), v, Some((u, d.next[u])))
    else if d.index[v] == -1 then LabelTop(d, BACK)
    else LabelTop(d, if d.visit[u] < d.visit[v] then {ForwardEdge} else {CrossEdge})
  }

  lemma FollowKeeps(d: Dfs, comp: set<nat>, roots: set<nat>)
    requires Inv(d, comp, roots) && MoreEdges(d) && Top(d) in comp && Child(d) in comp
    ensures Inv(Follow(d), comp, roots)
  {
    var v := Child(d);
    if d.visit[v] == -1 {
      EnterChild(d, comp, roots);
    } else if d.index[v] == -1 {
      LabelBack(d, comp, roots);
    } else {
      LabelDone(d, comp, roots);
    }
  }

  /** What the steps of the search read of the invariant. */
  lemma TopFacts(d: Dfs, comp: set<nat>, roots: set<nat>)
    requires Inv(d, comp, roots) && |d.st| > 0
    ensures Shaped(d, comp) && Top(d) in comp && Top(d) < |d.outs| && 0 <= d.low <= |d.rpost| &&
              (|d.st| > 1 ==> d.st[|d.st| - 2] in comp)
    ensures forall j :: 0 <= j < |d.st| - 1 ==> d.st[j] != Top(d)
    ensures MoreEdges(d) ==> Child(d) in comp && d.outs[Top(d)][d.next[Top(d)]].flags == {}
    ensures MoreEdges(d) && d.visit[Child(d)] == -1 ==> Child(d) != Top(d) && d.next[Child(d)] == 0
  {
    assert d.st[|d.st| - 1] in comp && Seen(d.visit, d.st[|d.st| - 1]);
    if |d.st| > 1 { assert d.st[|d.st| - 2] in comp; }
    forall j | 0 <= j < |d.st| - 1 ensures d.st[j] != Top(d) {
      assert d.visit[d.st[j]] < d.visit[d.st[|d.st| - 1]];
    }
  }

  ghost function Unfollowed(d: Dfs): int {
    if |d.st| > 0 && Top(d) < |d.outs| && Top(d) < |d.next| then |d.outs[Top(d)]| - d.next[Top(d)] else 0
  }

  /** e is closer to the end of the search than d. */
  ghost predicate Progress(d: Dfs, e: Dfs) {
    && d.pre <= e.pre
    && (|e.pre| > |d.pre| || |e.st| < |d.st| || (|e.st| == |d.st| && Unfollowed(e) < Unfollowed(d)))
  }

  /** One step of the search: the top block is finished, or its next out-edge is followed. */
  lemma StepKeeps(d: Dfs, comp: set<nat>, roots: set<nat>)
    requires Inv(d, comp, roots) && |d.st| > 0
    ensures Top(d) < |d.visit| == |d.index| == |d.num| == |d.par| == |d.next| == |d.outs|
    ensures MoreEdges(d) ==> Child(d) < |d.visit| && Inv(Follow(d), comp, roots) && Progress(d, Follow(d))
    ensures !MoreEdges(d) ==> 0 < d.low <= |d.rpost| && (|d.st| > 1 ==> d.st[|d.st| - 2] < |d.num|) &&
                              Inv(Leave(d), comp, roots) && Progress(d, Leave(d))
    ensures |d.pre| <= |comp|
  {
    hide Inv;
    TopFacts(d, comp, roots);
    if MoreEdges(d) {
      FollowKeeps(d, comp, roots);
    } else {
      LeaveTop(d, comp, roots);
    }
    PreOrderFits(d, comp, roots);
  }

  lemma PreOrderFits(d: Dfs, comp: set<nat>, roots: set<nat>)
    requires Inv(d, comp, roots)
    ensures |d.pre| <= |comp|
  {
    if |d.pre| > 0 {
      FewerThan(d.pre[1..], comp, d.pre[0]);
    }
  }

  // ---------- the finished search ----------

  /** The spanning forest of the blocks of comp: their order of visits,
      the three fields of every block and the tree edge
      it was entered by. */
  datatype Tables = Tables(pre: seq<nat>, visit: seq<int>, index: seq<int>, num: seq<int>,
                           par: seq<Option<(nat, nat)>>, comp: set<nat>)

  function TablesOf(d: Dfs, comp: set<nat>): Tables {
    Tables(d.pre, d.visit, d.index, d.num, d.par, comp)
  }

  /** What the label of an edge u -> v says when the search is over. */
  ghost predicate Labelled(f: Tables, u: nat, k: nat, v: nat, flags: set<EdgeFlag>)
    requires forall b :: b in f.comp ==> b < |f.visit| && b < |f.index| && b < |f.num| && b < |f.par|
    requires u in f.comp && v in f.comp
  {
    if flags == {TreeEdge} then
      && f.par[v] == Some((u, k)) && f.visit[u] < f.visit[v] && f.visit[v] + f.num[v] <= f.visit[u] + f.num[u] &&
         f.index[u] < f.index[v]
      && (forall w :: w in f.comp && f.visit[u] < f.visit[w] < f.visit[v] ==> f.visit[w] + f.num[w] <= f.visit[v])
    else if flags == {ForwardEdge} then
      f.visit[u] < f.visit[v] && f.visit[v] + f.num[v] <= f.visit[u] + f.num[u] && f.index[u] < f.index[v]
    else if flags == {CrossEdge} then
      f.visit[v] + f.num[v] <= f.visit[u] && f.index[u] < f.index[v]
    else
      flags == BACK && f.visit[v] <= f.visit[u] < f.visit[v] + f.num[v] && f.index[v] <= f.index[u]
  }

  /** The numbering is a bijection between the blocks and the positions of the list. */
  ghost predicate Numbers(order: seq<nat>, pos: seq<int>, comp: set<nat>)
    requires forall b :: b in comp ==> b < |pos|
  {
    && |order| == |comp|
    && (forall i :: 0 <= i < |order| ==> order[i] in comp && pos[order[i]] == i)
    && forall b :: b in comp ==> 0 <= pos[b] < |order| && order[pos[b]] == b
  }

  /** The subtrees are intervals of the pre-order, nested or disjoint; a block comes before its subtree and
      before every subtree completed earlier, so the index is the reverse post-order. */
  ghost predicate Intervals(f: Tables)
    requires forall b :: b in f.comp ==> b < |f.visit| && b < |f.index| && b < |f.num|
  {
    && (forall b :: b in f.comp ==> f.num[b] >= 1 && f.visit[b] + f.num[b] <= |f.comp|)
    && (forall u, w :: u in f.comp && w in f.comp && f.visit[u] < f.visit[w] < f.visit[u] + f.num[u] ==>
          f.visit[w] + f.num[w] <= f.visit[u] + f.num[u] && f.index[u] < f.index[w])
    && forall u, w :: u in f.comp && w in f.comp && f.visit[w] + f.num[w] <= f.visit[u] ==> f.index[u] < f.index[w]
  }

  ghost predicate SpanningForest(outs: Adj, list: seq<nat>, f: Tables, roots: set<nat>) {
    && Closed(outs, f.comp) && (forall b :: b in f.comp ==>
       b < |f.visit| && b < |f.index| && b < |f.num| && b < |f.par|)
    && Numbers(list, f.index, f.comp) && Numbers(f.pre, f.visit, f.comp) && Intervals(f)
    && (forall u: nat, k: nat :: u in f.comp && k < |outs[u]| ==>
          Labelled(f, u, k, outs[u][k].point, outs[u][k].flags))
    && forall v :: v in f.comp ==>
         if f.par[v].None? then v in roots && forall w :: w in f.comp && f.visit[w] < f.visit[v] ==>
             f.visit[w] + f.num[w] <= f.visit[v]
         else var (u, k) := f.par[v].value;
             u in f.comp && k < |outs[u]| && outs[u][k].point == v && outs[u][k].flags == {TreeEdge}
  }

  lemma AllFinished(d: Dfs, comp: set<nat>, roots: set<nat>, b: nat)
    requires Inv(d, comp, roots) && d.st == [] && |d.pre| == |comp| && b in comp
    ensures Seen(d.visit, b) && Finished(d.index, b)
  {
    if !Seen(d.visit, b) { UnseenMeansRoom(d.visit, d.pre, comp, b); }
  }

  lemma FinishedNumbers(d: Dfs, comp: set<nat>, roots: set<nat>)
    requires Inv(d, comp, roots) && d.st == [] && |d.pre| == |comp|
    ensures Closed(d.outs, comp)
    ensures forall b :: b in comp ==> b < |d.visit| && b < |d.index| && b < |d.num| && b < |d.par|
    ensures forall b :: b in comp ==> Seen(d.visit, b) && Finished(d.index, b)
    ensures Numbers(d.rpost, d.index, comp) && Numbers(d.pre, d.visit, comp)
  {
    hide Widths, Stack, Nested, Labels, Parents, RootsApart;
    forall b | b in comp ensures Seen(d.visit, b) && Finished(d.index, b) { AllFinished(d, comp, roots, b); }
  }

  lemma FinishedIntervals(d: Dfs, comp: set<nat>, roots: set<nat>)
    requires Inv(d, comp, roots) && d.st == [] && |d.pre| == |comp|
    ensures forall b :: b in comp ==> b < |d.visit| && b < |d.index| && b < |d.num|
    ensures Intervals(TablesOf(d, comp))
  {
    FinishedNumbers(d, comp, roots);
    hide Widths, Stack, Labels, Parents, RootsApart, PreOrder, PostOrder, Numbers;
  }

  lemma FinishedLabel(d: Dfs, comp: set<nat>, roots: set<nat>, u: nat, k: nat)
    requires Inv(d, comp, roots) && d.st == [] && |d.pre| == |comp| && u in comp && u < |d.outs| && k < |d.outs[u]|
    ensures d.outs[u][k].point in comp
    ensures forall b :: b in comp ==> b < |d.visit| && b < |d.index| && b < |d.num| && b < |d.par|
    ensures Labelled(TablesOf(d, comp), u, k, d.outs[u][k].point, d.outs[u][k].flags)
  {
    FinishedNumbers(d, comp, roots);
    hide Widths, Stack, Nested, Parents, RootsApart, PreOrder, PostOrder, Numbers;
    assert EdgeOk(d.visit, d.index, d.num, d.par, comp, u, k, d.outs[u][k].point, d.outs[u][k].flags);
  }

  lemma SearchFinished(d: Dfs, comp: set<nat>, roots: set<nat>)
    requires Inv(d, comp, roots) && d.st == [] && |d.pre| == |comp|
    ensures SpanningForest(d.outs, d.rpost, TablesOf(d, comp), roots)
  {
    FinishedNumbers(d, comp, roots);
    FinishedIntervals(d, comp, roots);
    hide Widths, Stack, Labelled, Numbers, Intervals, PreOrder, PostOrder, Nested, Labels;
    forall u: nat, k: nat | u in comp && k < |d.outs[u]|
      ensures Labelled(TablesOf(d, comp), u, k, d.outs[u][k].point, d.outs[u][k].flags)
    {
      FinishedLabel(d, comp, roots, u, k);
    }
  }

  /** v is reached from x by tree edges alone. */
  ghost predicate InTree(par: seq<Option<(nat, nat)>>, visit: seq<int>, x: nat, v: nat)
    decreases if v < |visit| then visit[v] else 0
  {
    v == x ||
    (v < |par| && v < |visit| && par[v].Some? && par[v].value.0 < |visit| && 0 <= visit[par[v].value.0] < visit[v] &&
     InTree(par, visit, x, par[v].value.0))
  }

  /** The interval [visit, visit + num) of a block holds exactly the blocks below it in the spanning tree. */
  lemma {:induction false} IntervalIsSubtree(outs: Adj, list: seq<nat>, f: Tables, roots: set<nat>, x: nat, v: nat)
    requires SpanningForest(outs, list, f, roots) && x in f.comp && v in f.comp
    ensures InTree(f.par, f.visit, x, v) <==> f.visit[x] <= f.visit[v] < f.visit[x] + f.num[x]
    decreases f.visit[v]
  {
    if v == x {
    } else {
      assert f.visit[x] != f.visit[v] by { assert f.pre[f.visit[x]] == x && f.pre[f.visit[v]] == v; }
      if f.par[v].Some? {
        var (u, k) := f.par[v].value;
        hide Numbers;
        assert Labelled(f, u, k, v, {TreeEdge});
        IntervalIsSubtree(outs, list, f, roots, x, u);
      }
    }
  }
}
