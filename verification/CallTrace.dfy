/** The depth-first trace that snips the cycles of a call graph: call edges, and what holds of their flags
    while a trace is under way and when it is over. A function is its position in the tables. */
module CallTrace {

  datatype CallFlag = Cycle | DontFollow

  /** One half of a call: caller, callee, address of the call and the slot of the other half. */
  datatype CallEdge = CallEdge(source: nat, target: nat, site: nat, complement: nat, flags: set<CallFlag>)

  type Rows = seq<seq<CallEdge>>

  const SNIPPED: set<CallFlag> := {Cycle, DontFollow}

  datatype LeafIterator = LeafIterator(node: nat, outslot: nat)

  /** The progress of a trace: the functions in the order they are finished, the number of functions finished
      when each one is first met and when it is finished (-1: not yet), and the number of out-edges looked at. */
  datatype Walk = Walk(order: seq<nat>, start: seq<int>, pos: seq<int>, next: seq<nat>)

  ghost predicate Found(w: Walk, v: nat) {
    v < |w.start| && w.start[v] >= 0
  }

  ghost predicate Done(w: Walk, v: nat) {
    v < |w.pos| && w.pos[v] >= 0
  }

  ghost predicate Active(w: Walk, v: nat) {
    Found(w, v) && !Done(w, v)
  }

  // ---------- the two halves of every call ----------

  ghost predicate OutLinked(ins: Rows, outs: Rows, u: nat, k: nat)
    requires u < |outs| && k < |outs[u]|
  {
    var e := outs[u][k];
    && e.source == u && e.target < |ins| && e.complement < |ins[e.target]|
    && var h := ins[e.target][e.complement];
       h.source == u && h.target == e.target && h.complement == k && h.site == e.site
  }

  ghost predicate InLinked(ins: Rows, outs: Rows, v: nat, j: nat)
    requires v < |ins| && j < |ins[v]|
  {
    var h := ins[v][j];
    && h.target == v && h.source < |outs| && h.complement < |outs[h.source]|
    && var e := outs[h.source][h.complement]; e.source == h.source && e.target == v && e.complement == j
  }

  ghost predicate Linked(ins: Rows, outs: Rows) {
    && |ins| == |outs|
    && (forall u: nat, k: nat :: u < |outs| && k < |outs[u]| ==> OutLinked(ins, outs, u, k))
    && (forall v: nat, j: nat :: v < |ins| && j < |ins[v]| ==> InLinked(ins, outs, v, j))
  }

  ghost predicate SameCall(a: CallEdge, b: CallEdge) {
    a.source == b.source && a.target == b.target && a.site == b.site && a.complement == b.complement
  }

  /** The same calls, flags aside. */
  ghost predicate SameCalls(a: Rows, b: Rows) {
    && |a| == |b| && (forall u :: 0 <= u < |a| ==> |a[u]| == |b[u]|)
    && forall u, k :: 0 <= u < |a| && 0 <= k < |a[u]| ==> SameCall(a[u][k], b[u][k])
  }

  lemma SameCallsLinked(ins: Rows, outs: Rows, ins': Rows, outs': Rows)
    requires Linked(ins, outs) && SameCalls(ins, ins') && SameCalls(outs, outs')
    ensures Linked(ins', outs')
  {
    forall u: nat, k: nat | u < |outs'| && k < |outs'[u]| ensures OutLinked(ins', outs', u, k) {
      assert OutLinked(ins, outs, u, k) && SameCall(outs[u][k], outs'[u][k]);
      var e := outs[u][k];
      assert SameCall(ins[e.target][e.complement], ins'[e.target][e.complement]);
    }
    forall v: nat, j: nat | v < |ins'| && j < |ins'[v]| ensures InLinked(ins', outs', v, j) {
      assert InLinked(ins, outs, v, j) && SameCall(ins[v][j], ins'[v][j]);
      var h := ins[v][j];
      assert SameCall(outs[h.source][h.complement], outs'[h.source][h.complement]);
    }
  }

  lemma SameCallsTransitive(a: Rows, b: Rows, c: Rows)
    requires SameCalls(a, b) && SameCalls(b, c)
    ensures SameCalls(a, c)
  {
    forall u, k | 0 <= u < |a| && 0 <= k < |a[u]| ensures SameCall(a[u][k], c[u][k]) {
      assert SameCall(a[u][k], b[u][k]) && SameCall(b[u][k], c[u][k]);
    }
  }

  // ---------- what holds during a trace ----------

  ghost predicate Counts(outs: Rows, w: Walk) {
    && |w.start| == |w.pos| == |w.next| == |outs|
    && (forall i :: 0 <= i < |w.order| ==> w.order[i] < |outs| && w.pos[w.order[i]] == i)
    && (forall v :: 0 <= v < |outs| ==>
       -1 <= w.start[v] <= |w.order| && -1 <= w.pos[v] < |w.order| && w.next[v] <= |outs[v]|)
    && (forall v: nat :: v < |outs| && !Found(w, v) ==> w.next[v] == 0 && !Done(w, v))
    && (forall v: nat :: v < |outs| && Done(w, v) ==>
       w.order[w.pos[v]] == v && w.start[v] <= w.pos[v] && w.next[v] == |outs[v]|)
  }

  /** Frame i of the stack follows the tree edge that frame i - 1 looked at last. */
  ghost predicate Chained(outs: Rows, parent: seq<int>, w: Walk, stack: seq<LeafIterator>, i: nat)
    requires Counts(outs, w) && |parent| == |outs| && 0 < i < |stack| && stack[i - 1].node < |outs| &&
               stack[i].node < |outs|
  {
    var u, v := stack[i - 1].node, stack[i].node;
    w.next[u] > 0 && var e := outs[u][w.next[u] - 1]; e.target == v && e.flags == {} && parent[v] == e.complement
  }

  ghost predicate OnStack(stack: seq<LeafIterator>, v: nat, below: nat) {
    exists i :: 0 <= i < below && i < |stack| && stack[i].node == v
  }

  ghost predicate Stacked(outs: Rows, parent: seq<int>, w: Walk, stack: seq<LeafIterator>) {
    && Counts(outs, w) && |parent| == |outs|
    && (forall i :: 0 <= i < |stack| ==>
       stack[i].node < |outs| && Active(w, stack[i].node) && stack[i].outslot == w.next[stack[i].node])
    && (forall i, j :: 0 <= i < j < |stack| ==> stack[i].node != stack[j].node)
    && (forall v: nat :: v < |outs| && Active(w, v) ==> OnStack(stack, v, |stack|))
    && (forall i :: 0 < i < |stack| ==> Chained(outs, parent, w, stack, i))
  }

  /** The flags of one out-edge, by how far its two ends have come. */
  ghost predicate Judged(w: Walk, parent: seq<int>, seeds: seq<nat>, u: nat, k: nat, e: CallEdge)
    requires u < |w.start| == |w.pos| == |w.next| == |parent| && e.target < |parent|
  {
    var v := e.target;
    if k >= w.next[u] then e.flags == {}
    else if e.flags == {} then
      Found(w, v) && v !in seeds && parent[v] == e.complement && (Done(w, u) ==> Done(w, v) && w.pos[v] < w.pos[u])
    else if e.flags == {DontFollow} then
      Done(w, v) && (Done(w, u) ==> w.pos[v] < w.pos[u])
    else
      && e.flags == SNIPPED && Found(w, v) && (Active(w, u) ==> Active(w, v))
      && (Done(w, u) ==> w.start[v] <= w.pos[u] && (Done(w, v) ==> w.pos[u] <= w.pos[v]))
  }

  ghost predicate AllJudged(outs: Rows, parent: seq<int>, seeds: seq<nat>, w: Walk) {
    && Counts(outs, w) && |parent| == |outs| &&
       (forall u, k :: 0 <= u < |outs| && 0 <= k < |outs[u]| ==> outs[u][k].target < |outs|)
    && forall u: nat, k: nat :: u < |outs| && k < |outs[u]| ==> Judged(w, parent, seeds, u, k, outs[u][k])
  }

  /** Of the edges looked at from frame i, tree edges lead to finished functions, or are the last one, to the
      frame above; snipped edges lead to a frame not above i. */
  ghost predicate Framed(outs: Rows, w: Walk, stack: seq<LeafIterator>, i: nat, k: nat)
    requires Counts(outs, w) && i < |stack| && stack[i].node < |outs| && k < |outs[stack[i].node]|
  {
    var u := stack[i].node;
    var e := outs[u][k];
    k < w.next[u] ==>
      && (e.flags == {} ==> Done(w, e.target) || (k == w.next[u] - 1 && i + 1 < |stack|))
      && (e.flags == SNIPPED ==> OnStack(stack, e.target, i + 1))
  }

  ghost predicate AllFramed(outs: Rows, w: Walk, stack: seq<LeafIterator>) {
    && Counts(outs, w) && (forall i :: 0 <= i < |stack| ==> stack[i].node < |outs|)
    && forall i: nat, k: nat :: i < |stack| && k < |outs[stack[i].node]| ==> Framed(outs, w, stack, i, k)
  }

  /** Every function met so far, seeds aside, was met along the tree edge its parentedge names. */
  ghost predicate ParentLinked(ins: Rows, outs: Rows, parent: seq<int>, w: Walk, v: nat)
    requires Counts(outs, w) && v < |ins| == |parent|
  {
    && 0 <= parent[v] < |ins[v]|
    && var h := ins[v][parent[v]];
       h.source < |outs| && h.complement < w.next[h.source] && outs[h.source][h.complement].flags == {}
  }

  ghost predicate AllParented(ins: Rows, outs: Rows, parent: seq<int>, seeds: seq<nat>, w: Walk) {
    && Counts(outs, w) && |parent| == |ins| == |outs|
    && forall v: nat :: v < |outs| && Found(w, v) && v !in seeds ==> ParentLinked(ins, outs, parent, w, v)
  }

  // ---------- where the leaf walk goes ----------

  /** The first slot from k on, below hi, whose edge is to be followed; hi if there is none. */
  function Follow(row: seq<CallEdge>, k: nat, hi: nat): (r: nat)
    requires k <= hi <= |row|
    ensures k <= r <= hi && (r < hi ==> DontFollow !in row[r].flags)
    ensures forall j :: k <= j < r ==> DontFollow in row[j].flags
    decreases hi - k
  {
    if k < hi && DontFollow in row[k].flags then Follow(row, k + 1, hi) else k
  }

  /** One more slot looked at: only a search that ran to the end is affected. */
  lemma FollowOneMore(row: seq<CallEdge>, row': seq<CallEdge>, k: nat, s: nat)
    requires |row'| == |row| && k <= s < |row| && row'[..s] == row[..s]
    ensures var r, r' := Follow(row, k, s), Follow(row', k, s + 1);
      if r < s then r' == r else if DontFollow in row'[s].flags then r' == s + 1 else r' == s
  {
    var r, r' := Follow(row, k, s), Follow(row', k, s + 1);
    forall j | 0 <= j < s ensures row'[j] == row[j] {
      assert row'[..s][j] == row[..s][j];
    }
  }

  /** From slot k of u on, the walk meets position t next. */
  ghost predicate Resumes(outs: Rows, w: Walk, u: nat, k: nat, t: int)
    requires Counts(outs, w) && u < |outs| && k <= w.next[u]
    requires forall k :: 0 <= k < |outs[u]| ==> outs[u][k].target < |outs|
  {
    var r := Follow(outs[u], k, w.next[u]);
    if r < w.next[u] then w.start[outs[u][r].target] == t
    else if Done(w, u) then w.pos[u] == t
    else t == |w.order|
  }

  ghost predicate Targets(outs: Rows) {
    forall u, k :: 0 <= u < |outs| && 0 <= k < |outs[u]| ==> outs[u][k].target < |outs|
  }

  /** A subtree starts with the subtree of its first child;
      after a child comes the next child or the function itself. */
  ghost predicate LaidOut(outs: Rows, w: Walk) {
    && Counts(outs, w) && Targets(outs)
    && (forall u: nat :: u < |outs| && Found(w, u) ==> Resumes(outs, w, u, 0, w.start[u]))
    && forall u: nat, k: nat :: u < |outs| && k < w.next[u] && outs[u][k].flags == {} && Done(w, outs[u][k].target) ==>
         Resumes(outs, w, u, k + 1, w.pos[outs[u][k].target] + 1)
  }

  // ---------- the steps of a trace ----------

  /** The edge (u, k) with its flags replaced. */
  ghost function WithFlags(outs: Rows, u: nat, k: nat, flags: set<CallFlag>): Rows
    requires u < |outs| && k < |outs[u]|
  {
    outs[u := outs[u][k := outs[u][k].(flags := flags)]]
  }

  /** One more out-edge of u was looked at. */
  ghost function Advance(w: Walk, u: nat): Walk
    requires u < |w.next|
  {
    w.(next := w.next[u := w.next[u] + 1])
  }

  ghost function Meet(w: Walk, v: nat): Walk
    requires v < |w.start|
  {
    w.(start := w.start[v := |w.order|])
  }

  ghost function Finish(w: Walk, u: nat): Walk
    requires u < |w.pos|
  {
    w.(order := w.order + [u], pos := w.pos[u := |w.order|])
  }

  ghost function Step(stack: seq<LeafIterator>): seq<LeafIterator>
    requires |stack| > 0
  {
    var i := |stack| - 1;
    stack[i := stack[i].(outslot := stack[i].outslot + 1)]
  }

  /** Everything that holds during a trace. */
  ghost predicate Tracing(ins: Rows, outs: Rows, parent: seq<int>, seeds: seq<nat>, w: Walk, stack: seq<LeafIterator>) {
    && Stacked(outs, parent, w, stack) && AllJudged(outs, parent, seeds, w) && AllFramed(outs, w, stack)
    && AllParented(ins, outs, parent, seeds, w) && LaidOut(outs, w)
  }

  // -- an edge that is not followed --

  lemma PassCounts(outs: Rows, w: Walk, u: nat, flags: set<CallFlag>)
    requires Counts(outs, w) && u < |outs| && w.next[u] < |outs[u]| && Active(w, u)
    ensures Counts(WithFlags(outs, u, w.next[u], flags), Advance(w, u))
  {
  }

  lemma PassStacked(outs: Rows, parent: seq<int>, w: Walk, stack: seq<LeafIterator>, flags: set<CallFlag>)
    requires Stacked(outs, parent, w, stack) && |stack| > 0
    requires w.next[stack[|stack| - 1].node] < |outs[stack[|stack| - 1].node]|
    ensures var u := stack[|stack| - 1].node;
      Stacked(WithFlags(outs, u, w.next[u], flags), parent, Advance(w, u), Step(stack))
  {
    var u := stack[|stack| - 1].node;
    var outs', w', st' := WithFlags(outs, u, w.next[u], flags), Advance(w, u), Step(stack);
    PassCounts(outs, w, u, flags);
    forall v: nat | v < |outs| && Active(w', v) ensures OnStack(st', v, |st'|) {
      assert Active(w, v);
      var i :| 0 <= i < |stack| && stack[i].node == v;
      assert st'[i].node == v;
    }
    forall i | 0 < i < |st'| ensures Chained(outs', parent, w', st', i) {
      assert Chained(outs, parent, w, stack, i);
      assert stack[i - 1].node != u;
    }
  }

  lemma PassJudged(outs: Rows, parent: seq<int>, seeds: seq<nat>, w: Walk, u: nat, flags: set<CallFlag>)
    requires AllJudged(outs, parent, seeds, w) && u < |outs| && Active(w, u) && w.next[u] < |outs[u]|
    requires var v := outs[u][w.next[u]].target;
               (flags == SNIPPED && Active(w, v)) || (flags == {DontFollow} && Done(w, v))
    ensures AllJudged(WithFlags(outs, u, w.next[u], flags), parent, seeds, Advance(w, u))
  {
    var outs', w' := WithFlags(outs, u, w.next[u], flags), Advance(w, u);
    PassCounts(outs, w, u, flags);
    forall x: nat, k: nat | x < |outs'| && k < |outs'[x]| ensures Judged(w', parent, seeds, x, k, outs'[x][k]) {
      assert Judged(w, parent, seeds, x, k, outs[x][k]);
    }
  }

  lemma PassFramed(outs: Rows, w: Walk, stack: seq<LeafIterator>, flags: set<CallFlag>)
    requires AllFramed(outs, w, stack) && |stack| > 0
    requires w.next[stack[|stack| - 1].node] < |outs[stack[|stack| - 1].node]| && Active(w, stack[|stack| - 1].node)
    requires forall i, j :: 0 <= i < j < |stack| ==> stack[i].node != stack[j].node
    requires var u := stack[|stack| - 1].node;
               flags == {DontFollow} || (flags == SNIPPED && OnStack(stack, outs[u][w.next[u]].target, |stack|))
    ensures var u := stack[|stack| - 1].node;
              AllFramed(WithFlags(outs, u, w.next[u], flags), Advance(w, u), Step(stack))
  {
    var u := stack[|stack| - 1].node;
    var outs', w', st' := WithFlags(outs, u, w.next[u], flags), Advance(w, u), Step(stack);
    PassCounts(outs, w, u, flags);
    forall i: nat, k: nat | i < |st'| && k < |outs'[st'[i].node]| ensures Framed(outs', w', st', i, k) {
      assert Framed(outs, w, stack, i, k);
      StepKeepsOnStack(stack, outs[st'[i].node][k].target, i + 1);
      assert i < |stack| - 1 ==> stack[i].node != u;
    }
  }

  lemma StepKeepsOnStack(stack: seq<LeafIterator>, v: nat, below: nat)
    requires |stack| > 0
    ensures OnStack(stack, v, below) == OnStack(Step(stack), v, below)
  {
    var st' := Step(stack);
    assert forall i :: 0 <= i < |stack| ==> st'[i].node == stack[i].node;
  }

  lemma PassParented(ins: Rows, outs: Rows, parent: seq<int>, seeds: seq<nat>, w: Walk, u: nat, flags: set<CallFlag>)
    requires AllParented(ins, outs, parent, seeds, w) && u < |outs| && w.next[u] < |outs[u]| && Active(w, u)
    ensures AllParented(ins, WithFlags(outs, u, w.next[u], flags), parent, seeds, Advance(w, u))
  {
    var outs', w' := WithFlags(outs, u, w.next[u], flags), Advance(w, u);
    PassCounts(outs, w, u, flags);
    forall v: nat | v < |outs'| && Found(w', v) && v !in seeds ensures ParentLinked(ins, outs', parent, w', v) {
      assert ParentLinked(ins, outs, parent, w, v);
    }
  }

  lemma PassResumes(outs: Rows, w: Walk, u: nat, flags: set<CallFlag>, x: nat, k: nat, t: int)
    requires Counts(outs, w) && Targets(outs) && u < |outs| && w.next[u] < |outs[u]| && Active(w, u) &&
               DontFollow in flags
    requires x < |outs| && k <= w.next[x] && Resumes(outs, w, x, k, t)
    ensures Counts(WithFlags(outs, u, w.next[u], flags), Advance(w, u)) && Targets(WithFlags(outs, u, w.next[u], flags))
    ensures Resumes(WithFlags(outs, u, w.next[u], flags), Advance(w, u), x, k, t)
  {
    PassCounts(outs, w, u, flags);
    if x == u {
      FollowOneMore(outs[u], WithFlags(outs, u, w.next[u], flags)[u], k, w.next[u]);
    }
  }

  lemma PassLaidOut(outs: Rows, w: Walk, u: nat, flags: set<CallFlag>)
    requires LaidOut(outs, w) && u < |outs| && w.next[u] < |outs[u]| && Active(w, u) && DontFollow in flags
    ensures LaidOut(WithFlags(outs, u, w.next[u], flags), Advance(w, u))
  {
    hide Resumes;
    var outs', w' := WithFlags(outs, u, w.next[u], flags), Advance(w, u);
    PassCounts(outs, w, u, flags);
    forall x: nat | x < |outs'| && Found(w', x) ensures Resumes(outs', w', x, 0, w'.start[x]) {
      assert Found(w, x);
      PassResumes(outs, w, u, flags, x, 0, w.start[x]);
    }
    forall x: nat, k: nat | x < |outs'| && k < w'.next[x] && outs'[x][k].flags == {} && Done(w', outs'[x][k].target)
      ensures Resumes(outs', w', x, k + 1, w'.pos[outs'[x][k].target] + 1)
    {
      assert outs[x][k] == outs'[x][k] && Done(w, outs[x][k].target);
      PassResumes(outs, w, u, flags, x, k + 1, w.pos[outs[x][k].target] + 1);
    }
  }

  /** An edge to a frame of the stack is snipped; an edge to a finished function is not to be followed. */
  lemma Pass(ins: Rows, outs: Rows, parent: seq<int>, seeds: seq<nat>, w: Walk, stack: seq<LeafIterator>,
             flags: set<CallFlag>)
    requires Tracing(ins, outs, parent, seeds, w, stack) && |stack| > 0
    requires w.next[stack[|stack| - 1].node] < |outs[stack[|stack| - 1].node]|
    requires var u := stack[|stack| - 1].node; var v := outs[u][w.next[u]].target;
      (flags == SNIPPED && Active(w, v)) || (flags == {DontFollow} && Done(w, v))
    ensures var u := stack[|stack| - 1].node;
      Tracing(ins, WithFlags(outs, u, w.next[u], flags), parent, seeds, Advance(w, u), Step(stack))
  {
    var u := stack[|stack| - 1].node;
    var v := outs[u][w.next[u]].target;
    assert Active(w, v) ==> OnStack(stack, v, |stack|);
    hide AllJudged, AllFramed, AllParented, LaidOut;
    PassStacked(outs, parent, w, stack, flags);
    PassJudged(outs, parent, seeds, w, u, flags);
    PassFramed(outs, w, stack, flags);
    PassParented(ins, outs, parent, seeds, w, u, flags);
    PassLaidOut(outs, w, u, flags);
  }

  // -- a function met for the first time, along an edge --

  ghost function Enter(w: Walk, u: nat, v: nat): Walk
    requires u < |w.next| && v < |w.start|
  {
    Meet(Advance(w, u), v)
  }

  lemma EnterCounts(outs: Rows, w: Walk, u: nat)
    requires Counts(outs, w) && Targets(outs) && u < |outs| && w.next[u] < |outs[u]| && Active(w, u) &&
               !Found(w, outs[u][w.next[u]].target)
    ensures Counts(outs, Enter(w, u, outs[u][w.next[u]].target))
  {
  }

  lemma EnterStacked(outs: Rows, parent: seq<int>, w: Walk, stack: seq<LeafIterator>)
    requires Stacked(outs, parent, w, stack) && |stack| > 0 && Targets(outs)
    requires var u := stack[|stack| - 1].node; w.next[u] < |outs[u]| && var e := outs[u][w.next[u]];
               e.flags == {} && !Found(w, e.target)
    ensures var u := stack[|stack| - 1].node; var e := outs[u][w.next[u]];
      Stacked(outs, parent[e.target := e.complement], Enter(w, u, e.target), Step(stack) + [LeafIterator(e.target, 0)])
  {
    var u := stack[|stack| - 1].node;
    var e := outs[u][w.next[u]];
    var v := e.target;
    var parent', w', st' := parent[v := e.complement], Enter(w, u, v), Step(stack) + [LeafIterator(v, 0)];
    EnterCounts(outs, w, u);
    forall x: nat | x < |outs| && Active(w', x) ensures OnStack(st', x, |st'|) {
      if x == v {
        assert st'[|stack|].node == v;
      } else {
        assert Active(w, x);
        var i :| 0 <= i < |stack| && stack[i].node == x;
        assert st'[i].node == x;
      }
    }
    forall i: nat | 0 < i < |st'| ensures Chained(outs, parent', w', st', i) {
      EnterChained(outs, parent, w, stack, i);
    }
  }

  lemma EnterChained(outs: Rows, parent: seq<int>, w: Walk, stack: seq<LeafIterator>, i: nat)
    requires Stacked(outs, parent, w, stack) && Targets(outs) && 0 < i <= |stack|
    requires var u := stack[|stack| - 1].node; w.next[u] < |outs[u]| && var e := outs[u][w.next[u]];
               e.flags == {} && !Found(w, e.target)
    ensures var u := stack[|stack| - 1].node; var e := outs[u][w.next[u]];
      && Counts(outs, Enter(w, u, e.target))
      && Chained(outs, parent[e.target := e.complement], Enter(w, u, e.target),
         Step(stack) + [LeafIterator(e.target, 0)], i)
  {
    var u := stack[|stack| - 1].node;
    var v := outs[u][w.next[u]].target;
    EnterCounts(outs, w, u);
    if i < |stack| {
      assert Chained(outs, parent, w, stack, i);
      assert stack[i - 1].node != u && stack[i].node != v;
    }
  }

  lemma EnterJudged(outs: Rows, parent: seq<int>, seeds: seq<nat>, w: Walk, u: nat)
    requires AllJudged(outs, parent, seeds, w) && u < |outs| && Active(w, u) && w.next[u] < |outs[u]|
    requires var e := outs[u][w.next[u]]; !Found(w, e.target) && e.target !in seeds
    ensures var e := outs[u][w.next[u]]; AllJudged(outs, parent[e.target := e.complement], seeds, Enter(w, u, e.target))
  {
    var e := outs[u][w.next[u]];
    var parent', w' := parent[e.target := e.complement], Enter(w, u, e.target);
    EnterCounts(outs, w, u);
    forall x: nat, k: nat | x < |outs| && k < |outs[x]| ensures Judged(w', parent', seeds, x, k, outs[x][k]) {
      assert Judged(w, parent, seeds, x, k, outs[x][k]);
    }
  }

  lemma EnterFramed(outs: Rows, w: Walk, stack: seq<LeafIterator>)
    requires AllFramed(outs, w, stack) && |stack| > 0 && Targets(outs)
    requires forall i, j :: 0 <= i < j < |stack| ==> stack[i].node != stack[j].node
    requires forall i :: 0 <= i < |stack| ==> Active(w, stack[i].node)
    requires var u := stack[|stack| - 1].node;
               w.next[u] < |outs[u]| && !Found(w, outs[u][w.next[u]].target) && outs[u][w.next[u]].flags == {}
    ensures var u := stack[|stack| - 1].node; var v := outs[u][w.next[u]].target;
      AllFramed(outs, Enter(w, u, v), Step(stack) + [LeafIterator(v, 0)])
  {
    var u := stack[|stack| - 1].node;
    var v := outs[u][w.next[u]].target;
    var w', st' := Enter(w, u, v), Step(stack) + [LeafIterator(v, 0)];
    EnterCounts(outs, w, u);
    forall i: nat, k: nat | i < |st'| && k < |outs[st'[i].node]| ensures Framed(outs, w', st', i, k) {
      if i < |stack| {
        assert Framed(outs, w, stack, i, k);
        MoreOnStack(stack, LeafIterator(v, 0), outs[st'[i].node][k].target, i + 1);
        assert i < |stack| - 1 ==> stack[i].node != u;
      }
    }
  }

  lemma MoreOnStack(stack: seq<LeafIterator>, top: LeafIterator, v: nat, below: nat)
    requires 0 < |stack| && below <= |stack|
    ensures OnStack(stack, v, below) == OnStack(Step(stack) + [top], v, below)
  {
    var st' := Step(stack) + [top];
    assert forall i :: 0 <= i < |stack| ==> st'[i].node == stack[i].node;
  }

  lemma EnterParented(ins: Rows, outs: Rows, parent: seq<int>, seeds: seq<nat>, w: Walk, u: nat)
    requires AllParented(ins, outs, parent, seeds, w) && u < |outs| && w.next[u] < |outs[u]| && Active(w, u) &&
               Linked(ins, outs) && Targets(outs)
    requires var e := outs[u][w.next[u]]; !Found(w, e.target) && e.flags == {}
    ensures var e := outs[u][w.next[u]];
              AllParented(ins, outs, parent[e.target := e.complement], seeds, Enter(w, u, e.target))
  {
    var e := outs[u][w.next[u]];
    var parent', w' := parent[e.target := e.complement], Enter(w, u, e.target);
    EnterCounts(outs, w, u);
    assert OutLinked(ins, outs, u, w.next[u]);
    forall v: nat | v < |outs| && Found(w', v) && v !in seeds ensures ParentLinked(ins, outs, parent', w', v) {
      if v != e.target { assert ParentLinked(ins, outs, parent, w, v); }
    }
  }

  lemma EnterResumes(outs: Rows, parent: seq<int>, seeds: seq<nat>, w: Walk, u: nat, x: nat, k: nat, t: int)
    requires AllJudged(outs, parent, seeds, w) && u < |outs| && w.next[u] < |outs[u]| && Active(w, u) &&
               !Found(w, outs[u][w.next[u]].target)
    requires outs[u][w.next[u]].flags == {} && x < |outs| && k <= w.next[x] && Resumes(outs, w, x, k, t)
    ensures Counts(outs, Enter(w, u, outs[u][w.next[u]].target))
    ensures Resumes(outs, Enter(w, u, outs[u][w.next[u]].target), x, k, t)
  {
    EnterCounts(outs, w, u);
    if x == u {
      FollowOneMore(outs[u], outs[u], k, w.next[u]);
    }
    var r := Follow(outs[x], k, w.next[x]);
    if r < w.next[x] { assert Judged(w, parent, seeds, x, r, outs[x][r]); }
  }

  lemma NewlyMetResumes(outs: Rows, w: Walk, u: nat)
    requires Counts(outs, w) && Targets(outs) && u < |outs| && w.next[u] < |outs[u]| && Active(w, u) &&
               !Found(w, outs[u][w.next[u]].target)
    ensures var v := outs[u][w.next[u]].target;
      Counts(outs, Enter(w, u, v)) && Resumes(outs, Enter(w, u, v), v, 0, Enter(w, u, v).start[v])
  {
    EnterCounts(outs, w, u);
  }

  lemma EnterLaidOut(outs: Rows, parent: seq<int>, seeds: seq<nat>, w: Walk, u: nat)
    requires LaidOut(outs, w) && AllJudged(outs, parent, seeds, w)
    requires u < |outs| && w.next[u] < |outs[u]| && Active(w, u) && !Found(w, outs[u][w.next[u]].target) &&
               outs[u][w.next[u]].flags == {}
    ensures LaidOut(outs, Enter(w, u, outs[u][w.next[u]].target))
  {
    hide Resumes, AllJudged;
    var v := outs[u][w.next[u]].target;
    var w' := Enter(w, u, v);
    EnterCounts(outs, w, u);
    NewlyMetResumes(outs, w, u);
    hide Counts;
    forall x: nat | x < |outs| && Found(w', x) ensures Resumes(outs, w', x, 0, w'.start[x]) {
      if x != v {
        assert Found(w, x);
        EnterResumes(outs, parent, seeds, w, u, x, 0, w.start[x]);
      }
    }
    forall x: nat, k: nat | x < |outs| && k < w'.next[x] && outs[x][k].flags == {} && Done(w', outs[x][k].target)
      ensures Resumes(outs, w', x, k + 1, w'.pos[outs[x][k].target] + 1)
    {
      assert Done(w, outs[x][k].target) && k < w.next[x];
      EnterResumes(outs, parent, seeds, w, u, x, k + 1, w.pos[outs[x][k].target] + 1);
    }
  }

  /** The edge is followed to a function not met before. */
  lemma Descend(ins: Rows, outs: Rows, parent: seq<int>, seeds: seq<nat>, w: Walk, stack: seq<LeafIterator>)
    requires Tracing(ins, outs, parent, seeds, w, stack) && |stack| > 0 && Linked(ins, outs)
    requires var u := stack[|stack| - 1].node; w.next[u] < |outs[u]| && var e := outs[u][w.next[u]];
               !Found(w, e.target) && e.target !in seeds
    ensures var u := stack[|stack| - 1].node; var e := outs[u][w.next[u]];
      Tracing(ins, outs, parent[e.target := e.complement], seeds, Enter(w, u, e.target),
          Step(stack) + [LeafIterator(e.target, 0)])
  {
    var u := stack[|stack| - 1].node;
    assert Judged(w, parent, seeds, u, w.next[u], outs[u][w.next[u]]);
    assert Targets(outs);
    hide AllJudged, AllFramed, AllParented, LaidOut, Linked;
    EnterStacked(outs, parent, w, stack);
    EnterJudged(outs, parent, seeds, w, u);
    EnterFramed(outs, w, stack);
    EnterParented(ins, outs, parent, seeds, w, u);
    EnterLaidOut(outs, parent, seeds, w, u);
  }

  // -- a function with no out-edge left --

  lemma FinishCounts(outs: Rows, w: Walk, u: nat)
    requires Counts(outs, w) && u < |outs| && Active(w, u) && w.next[u] == |outs[u]|
    ensures Counts(outs, Finish(w, u))
  {
  }

  lemma FinishStacked(outs: Rows, parent: seq<int>, w: Walk, stack: seq<LeafIterator>)
    requires Stacked(outs, parent, w, stack) && |stack| > 0 &&
               w.next[stack[|stack| - 1].node] == |outs[stack[|stack| - 1].node]|
    ensures Stacked(outs, parent, Finish(w, stack[|stack| - 1].node), stack[..|stack| - 1])
  {
    var u := stack[|stack| - 1].node;
    var w', st' := Finish(w, u), stack[..|stack| - 1];
    FinishCounts(outs, w, u);
    forall x: nat | x < |outs| && Active(w', x) ensures OnStack(st', x, |st'|) {
      assert Active(w, x);
      var i :| 0 <= i < |stack| && stack[i].node == x;
      assert st'[i].node == x;
    }
    forall i | 0 < i < |st'| ensures Chained(outs, parent, w', st', i) {
      assert Chained(outs, parent, w, stack, i);
    }
  }

  /** Snipped edges out of the functions below the top never lead to the top. */
  lemma TopIsNotSnippedFromBelow(outs: Rows, parent: seq<int>, w: Walk, stack: seq<LeafIterator>, x: nat, k: nat)
    requires Stacked(outs, parent, w, stack) && AllFramed(outs, w, stack) && |stack| > 0
    requires x < |outs| && k < w.next[x] && Active(w, x) && x != stack[|stack| - 1].node && outs[x][k].flags == SNIPPED
    ensures outs[x][k].target != stack[|stack| - 1].node
  {
    var i :| 0 <= i < |stack| && stack[i].node == x;
    assert Framed(outs, w, stack, i, k);
    var j :| 0 <= j < i + 1 && stack[j].node == outs[x][k].target;
  }

  /** The edges of the top all lead to finished functions, unless they are snipped. */
  lemma TopChildrenDone(outs: Rows, w: Walk, stack: seq<LeafIterator>, k: nat)
    requires AllFramed(outs, w, stack) && |stack| > 0 && k < w.next[stack[|stack| - 1].node] &&
               k < |outs[stack[|stack| - 1].node]|
    requires outs[stack[|stack| - 1].node][k].flags == {}
    ensures Done(w, outs[stack[|stack| - 1].node][k].target)
  {
    assert Framed(outs, w, stack, |stack| - 1, k);
  }

  lemma FinishJudged(outs: Rows, parent: seq<int>, seeds: seq<nat>, w: Walk, stack: seq<LeafIterator>)
    requires AllJudged(outs, parent, seeds, w) && Stacked(outs, parent, w, stack) && AllFramed(outs, w, stack)
    requires |stack| > 0 && w.next[stack[|stack| - 1].node] == |outs[stack[|stack| - 1].node]|
    ensures AllJudged(outs, parent, seeds, Finish(w, stack[|stack| - 1].node))
  {
    var u := stack[|stack| - 1].node;
    var w' := Finish(w, u);
    FinishCounts(outs, w, u);
    hide Stacked, AllFramed;
    forall x: nat, k: nat | x < |outs| && k < |outs[x]| ensures Judged(w', parent, seeds, x, k, outs[x][k]) {
      var e := outs[x][k];
      assert Judged(w, parent, seeds, x, k, e);
      if x == u {
        if e.flags == {} { TopChildrenDone(outs, w, stack, k); }
      } else if Active(w, x) && k < w.next[x] && e.flags == SNIPPED {
        TopIsNotSnippedFromBelow(outs, parent, w, stack, x, k);
      }
    }
  }

  lemma FinishFramed(outs: Rows, w: Walk, stack: seq<LeafIterator>)
    requires AllFramed(outs, w, stack) && |stack| > 0 &&
               w.next[stack[|stack| - 1].node] == |outs[stack[|stack| - 1].node]|
    requires Active(w, stack[|stack| - 1].node) && Targets(outs)
    requires |stack| > 1 ==> var p := stack[|stack| - 2].node;
               w.next[p] > 0 && outs[p][w.next[p] - 1].target == stack[|stack| - 1].node
    ensures AllFramed(outs, Finish(w, stack[|stack| - 1].node), stack[..|stack| - 1])
  {
    var u := stack[|stack| - 1].node;
    var w', st' := Finish(w, u), stack[..|stack| - 1];
    FinishCounts(outs, w, u);
    forall i: nat, k: nat | i < |st'| && k < |outs[st'[i].node]| ensures Framed(outs, w', st', i, k) {
      assert Framed(outs, w, stack, i, k);
      FewerOnStack(stack, outs[st'[i].node][k].target, i + 1);
    }
  }

  lemma FewerOnStack(stack: seq<LeafIterator>, v: nat, below: nat)
    requires below < |stack|
    ensures OnStack(stack, v, below) == OnStack(stack[..|stack| - 1], v, below)
  {
    var st' := stack[..|stack| - 1];
    assert forall i :: 0 <= i < below ==> st'[i].node == stack[i].node;
  }

  lemma FinishParented(ins: Rows, outs: Rows, parent: seq<int>, seeds: seq<nat>, w: Walk, u: nat)
    requires AllParented(ins, outs, parent, seeds, w) && u < |outs| && w.next[u] == |outs[u]| && Active(w, u)
    ensures AllParented(ins, outs, parent, seeds, Finish(w, u))
  {
    FinishCounts(outs, w, u);
    forall v: nat | v < |outs| && Found(Finish(w, u), v) && v !in seeds
      ensures ParentLinked(ins, outs, parent, Finish(w, u), v)
    {
      assert ParentLinked(ins, outs, parent, w, v);
    }
  }

  /** A search from a slot of a frame below the top stops at the edge to the frame above. */
  lemma BelowTopFollows(outs: Rows, parent: seq<int>, w: Walk, stack: seq<LeafIterator>, x: nat, k: nat)
    requires Stacked(outs, parent, w, stack) && |stack| > 0 && x < |outs| && Active(w, x) &&
               x != stack[|stack| - 1].node
    requires k < w.next[x]
    ensures Follow(outs[x], k, w.next[x]) < w.next[x]
  {
    var i :| 0 <= i < |stack| && stack[i].node == x;
    assert Chained(outs, parent, w, stack, i + 1);
  }

  lemma FinishResumes(outs: Rows, parent: seq<int>, w: Walk, stack: seq<LeafIterator>, x: nat, k: nat, t: int)
    requires Stacked(outs, parent, w, stack) && |stack| > 0 &&
               w.next[stack[|stack| - 1].node] == |outs[stack[|stack| - 1].node]|
    requires x < |outs| && k <= w.next[x] && Targets(outs) && Resumes(outs, w, x, k, t)
    requires Active(w, x) && x != stack[|stack| - 1].node ==> k < w.next[x]
    requires Found(w, x)
    ensures Counts(outs, Finish(w, stack[|stack| - 1].node)) &&
              Resumes(outs, Finish(w, stack[|stack| - 1].node), x, k, t)
  {
    FinishCounts(outs, w, stack[|stack| - 1].node);
    if Active(w, x) && x != stack[|stack| - 1].node { BelowTopFollows(outs, parent, w, stack, x, k); }
  }

  /** The only tree edge to a frame of the stack is the last one looked at from the frame below. */
  lemma EdgeToTop(ins: Rows, outs: Rows, parent: seq<int>, seeds: seq<nat>, w: Walk, stack: seq<LeafIterator>, x: nat,
                  k: nat)
    requires Stacked(outs, parent, w, stack) && AllJudged(outs, parent, seeds, w) && AllFramed(outs, w, stack)
    requires |stack| > 0 && x < |outs| && k < w.next[x] && outs[x][k].flags == {} &&
               outs[x][k].target == stack[|stack| - 1].node
    ensures Active(w, x) && k + 1 == w.next[x] && x != stack[|stack| - 1].node
  {
    assert Judged(w, parent, seeds, x, k, outs[x][k]);
    assert Active(w, stack[|stack| - 1].node) && Active(w, x);
    var i :| 0 <= i < |stack| && stack[i].node == x;
    assert Framed(outs, w, stack, i, k);
  }

  lemma InnerSlot(ins: Rows, outs: Rows, parent: seq<int>, w: Walk, stack: seq<LeafIterator>, x: nat, k: nat)
    requires Stacked(outs, parent, w, stack) && |stack| > 0 && x < |outs| && Active(w, x) &&
               x != stack[|stack| - 1].node
    requires Targets(outs) && k < w.next[x] && Done(w, outs[x][k].target)
    ensures k + 1 < w.next[x]
  {
    var i :| 0 <= i < |stack| && stack[i].node == x;
    assert Chained(outs, parent, w, stack, i + 1);
  }

  lemma AtRootSlot(outs: Rows, parent: seq<int>, w: Walk, stack: seq<LeafIterator>, x: nat)
    requires Stacked(outs, parent, w, stack) && |stack| > 0 && x < |outs| && Active(w, x) &&
               x != stack[|stack| - 1].node
    ensures w.next[x] > 0
  {
    var i :| 0 <= i < |stack| && stack[i].node == x;
    assert Chained(outs, parent, w, stack, i + 1);
  }

  lemma FinishedChildResumes(ins: Rows, outs: Rows, parent: seq<int>, seeds: seq<nat>, w: Walk,
                             stack: seq<LeafIterator>, x: nat, k: nat)
    requires LaidOut(outs, w) && Stacked(outs, parent, w, stack) && AllJudged(outs, parent, seeds, w) &&
               AllFramed(outs, w, stack)
    requires |stack| > 0 && w.next[stack[|stack| - 1].node] == |outs[stack[|stack| - 1].node]|
    requires x < |outs| && k < w.next[x] && outs[x][k].flags == {}
    requires outs[x][k].target == stack[|stack| - 1].node || Done(w, outs[x][k].target)
    ensures var w' := Finish(w, stack[|stack| - 1].node);
      Counts(outs, w') && Resumes(outs, w', x, k + 1, w'.pos[outs[x][k].target] + 1)
  {
    hide AllJudged, AllFramed;
    var u := stack[|stack| - 1].node;
    FinishCounts(outs, w, u);
    assert Active(w, u);
    if outs[x][k].target == u {
      EdgeToTop(ins, outs, parent, seeds, w, stack, x, k);
    } else {
      hide LaidOut, Resumes;
      assert Found(w, x);
      assert Resumes(outs, w, x, k + 1, w.pos[outs[x][k].target] + 1) by { DoneChild(outs, w, x, k); }
      if Active(w, x) && x != u { InnerSlot(ins, outs, parent, w, stack, x, k); }
      FinishResumes(outs, parent, w, stack, x, k + 1, w.pos[outs[x][k].target] + 1);
    }
  }

  lemma DoneChild(outs: Rows, w: Walk, x: nat, k: nat)
    requires LaidOut(outs, w) && x < |outs| && k < w.next[x] && outs[x][k].flags == {} && Done(w, outs[x][k].target)
    ensures Resumes(outs, w, x, k + 1, w.pos[outs[x][k].target] + 1)
  {
  }

  lemma FinishLaidOut(ins: Rows, outs: Rows, parent: seq<int>, seeds: seq<nat>, w: Walk, stack: seq<LeafIterator>)
    requires LaidOut(outs, w) && Stacked(outs, parent, w, stack) && AllJudged(outs, parent, seeds, w) &&
               AllFramed(outs, w, stack)
    requires |stack| > 0 && w.next[stack[|stack| - 1].node] == |outs[stack[|stack| - 1].node]|
    ensures LaidOut(outs, Finish(w, stack[|stack| - 1].node))
  {
    var u := stack[|stack| - 1].node;
    var w' := Finish(w, u);
    assert Active(w, u);
    hide Stacked, AllJudged, AllFramed, Resumes;
    FinishCounts(outs, w, u);
    forall x: nat | x < |outs| && Found(w', x) ensures Resumes(outs, w', x, 0, w'.start[x]) {
      assert Found(w, x);
      if Active(w, x) && x != u { AtRootSlot(outs, parent, w, stack, x); }
      FinishResumes(outs, parent, w, stack, x, 0, w.start[x]);
    }
    forall x: nat, k: nat | x < |outs| && k < w'.next[x] && outs[x][k].flags == {} && Done(w', outs[x][k].target)
      ensures Resumes(outs, w', x, k + 1, w'.pos[outs[x][k].target] + 1)
    {
      FinishedChildResumes(ins, outs, parent, seeds, w, stack, x, k);
    }
  }

  /** The top of the stack is finished. */
  lemma Pop(ins: Rows, outs: Rows, parent: seq<int>, seeds: seq<nat>, w: Walk, stack: seq<LeafIterator>)
    requires Tracing(ins, outs, parent, seeds, w, stack) && |stack| > 0
    requires w.next[stack[|stack| - 1].node] == |outs[stack[|stack| - 1].node]|
    ensures Tracing(ins, outs, parent, seeds, Finish(w, stack[|stack| - 1].node), stack[..|stack| - 1])
  {
    assert |stack| > 1 ==> Chained(outs, parent, w, stack, |stack| - 1);
    assert Targets(outs);
    hide AllJudged, AllFramed, AllParented, LaidOut;
    FinishStacked(outs, parent, w, stack);
    FinishJudged(outs, parent, seeds, w, stack);
    FinishFramed(outs, w, stack);
    FinishParented(ins, outs, parent, seeds, w, stack[|stack| - 1].node);
    FinishLaidOut(ins, outs, parent, seeds, w, stack);
  }

  // -- a seed --

  lemma BeginJudged(outs: Rows, parent: seq<int>, seeds: seq<nat>, w: Walk, root: nat, slot: int)
    requires AllJudged(outs, parent, seeds, w) && root < |outs| && !Found(w, root)
    ensures AllJudged(outs, parent[root := slot], seeds, Meet(w, root))
  {
    assert Counts(outs, Meet(w, root));
    forall x: nat, k: nat | x < |outs| && k < |outs[x]|
      ensures Judged(Meet(w, root), parent[root := slot], seeds, x, k, outs[x][k])
    {
      assert Judged(w, parent, seeds, x, k, outs[x][k]);
    }
  }

  lemma BeginParented(ins: Rows, outs: Rows, parent: seq<int>, seeds: seq<nat>, w: Walk, root: nat, slot: int)
    requires AllParented(ins, outs, parent, seeds, w) && root < |outs| && !Found(w, root) && root in seeds
    ensures AllParented(ins, outs, parent[root := slot], seeds, Meet(w, root))
  {
    assert Counts(outs, Meet(w, root));
    forall v: nat | v < |outs| && Found(Meet(w, root), v) && v !in seeds
      ensures ParentLinked(ins, outs, parent[root := slot], Meet(w, root), v)
    {
      assert ParentLinked(ins, outs, parent, w, v);
    }
  }

  lemma BeginStacked(outs: Rows, parent: seq<int>, w: Walk, root: nat, slot: int)
    requires Stacked(outs, parent, w, []) && root < |outs| && !Found(w, root)
    ensures Stacked(outs, parent[root := slot], Meet(w, root), [LeafIterator(root, 0)])
  {
    assert Counts(outs, Meet(w, root));
    var st := [LeafIterator(root, 0)];
    forall x: nat | x < |outs| && Active(Meet(w, root), x) ensures OnStack(st, x, 1) {
      assert st[0].node == root;
      assert x != root ==> Active(w, x);
    }
  }

  lemma BeginResumes(outs: Rows, parent: seq<int>, seeds: seq<nat>, w: Walk, root: nat, x: nat, k: nat, t: int)
    requires AllJudged(outs, parent, seeds, w) && root < |outs| && !Found(w, root)
    requires x < |outs| && k <= w.next[x] && Resumes(outs, w, x, k, t)
    ensures Counts(outs, Meet(w, root)) && Resumes(outs, Meet(w, root), x, k, t)
  {
    var r := Follow(outs[x], k, w.next[x]);
    if r < w.next[x] { assert Judged(w, parent, seeds, x, r, outs[x][r]); }
  }

  lemma SeedResumes(outs: Rows, w: Walk, root: nat)
    requires Counts(outs, w) && Targets(outs) && root < |outs| && !Found(w, root)
    ensures Counts(outs, Meet(w, root)) && Resumes(outs, Meet(w, root), root, 0, Meet(w, root).start[root])
  {
  }

  lemma BeginLaidOut(outs: Rows, parent: seq<int>, seeds: seq<nat>, w: Walk, root: nat)
    requires LaidOut(outs, w) && AllJudged(outs, parent, seeds, w) && root < |outs| && !Found(w, root)
    ensures LaidOut(outs, Meet(w, root))
  {
    hide AllJudged, Resumes;
    var w' := Meet(w, root);
    SeedResumes(outs, w, root);
    hide Counts;
    forall x: nat | x < |outs| && Found(w', x) ensures Resumes(outs, w', x, 0, w'.start[x]) {
      if x != root {
        assert Found(w, x);
        BeginResumes(outs, parent, seeds, w, root, x, 0, w.start[x]);
      }
    }
    forall x: nat, k: nat | x < |outs| && k < w'.next[x] && outs[x][k].flags == {} && Done(w', outs[x][k].target)
      ensures Resumes(outs, w', x, k + 1, w'.pos[outs[x][k].target] + 1)
    {
      DoneChild(outs, w, x, k);
      BeginResumes(outs, parent, seeds, w, root, x, k + 1, w.pos[outs[x][k].target] + 1);
    }
  }

  /** A trace begins at a seed not met before. */
  lemma Begin(ins: Rows, outs: Rows, parent: seq<int>, seeds: seq<nat>, w: Walk, root: nat, slot: int)
    requires Tracing(ins, outs, parent, seeds, w, []) && root in seeds && root < |outs| && !Found(w, root)
    ensures Tracing(ins, outs, parent[root := slot], seeds, Meet(w, root), [LeafIterator(root, 0)])
  {
    hide AllJudged, AllParented, LaidOut;
    BeginStacked(outs, parent, w, root, slot);
    BeginJudged(outs, parent, seeds, w, root, slot);
    BeginParented(ins, outs, parent, seeds, w, root, slot);
    BeginLaidOut(outs, parent, seeds, w, root);
  }
}
