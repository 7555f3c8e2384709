/** What the traces leave behind: the edges without the cycle flag form no cycle, the edges to be followed form a
    forest with the seeds as roots, and the finish order can be walked with parentedge links alone. */
module CallForest {

  import opened Wrappers
  import opened CallTrace

  /** An in-half carries the cycle flag exactly when its out-half was snipped. */
  ghost predicate InFlags(ins: Rows, outs: Rows) {
    forall v, j ::
      0 <= v < |ins| && 0 <= j < |ins[v]| && ins[v][j].source < |outs| &&
      ins[v][j].complement < |outs[ins[v][j].source]| ==>
        ins[v][j].flags == if outs[ins[v][j].source][ins[v][j].complement].flags == SNIPPED then {Cycle} else {}
  }

  /** A later stage of the traces: what was met or finished stays as it is. */
  ghost predicate Extends(w: Walk, parent: seq<int>, w': Walk, parent': seq<int>) {
    && |w'.start| == |w.start| == |parent| == |parent'| && |w'.pos| == |w.pos| && |w.order| <= |w'.order| &&
       w'.order[..|w.order|] == w.order
    && (forall v: nat :: v < |w.start| && Found(w, v) ==> w'.start[v] == w.start[v] && parent'[v] == parent[v])
    && forall v: nat :: v < |w.pos| && Done(w, v) ==> w'.pos[v] == w.pos[v]
  }

  /** The first walked seeds are traced, one after the other; the others wait, and only the last of the list may
      have callers. */
  ghost predicate SeedsPlaced(ins: Rows, parent: seq<int>, seeds: seq<nat>, w: Walk, walked: nat) {
    && walked <= |seeds| && |w.start| == |w.pos| == |parent| == |ins|
    && (forall j :: 0 <= j < |seeds| ==> seeds[j] < |ins|) &&
       (forall i, j :: 0 <= i < j < |seeds| ==> seeds[i] != seeds[j])
    && (forall j :: 0 <= j < walked ==> Done(w, seeds[j]) && parent[seeds[j]] == j)
    && (walked > 0 ==> w.start[seeds[0]] == 0)
    && (forall j :: 0 < j < walked ==> w.start[seeds[j]] == w.pos[seeds[j - 1]] + 1)
    && |w.order| == (if walked == 0 then 0 else w.pos[seeds[walked - 1]] + 1)
    && forall j :: walked <= j < |seeds| ==> !Found(w, seeds[j]) && (ins[seeds[j]] == [] || walked == j == |seeds| - 1)
  }

  /** What cycleStructure leaves: the traces are over, every function is finished, every seed is traced. */
  ghost predicate Snipped(ins: Rows, outs: Rows, parent: seq<int>, seeds: seq<nat>, w: Walk) {
    && Linked(ins, outs) && Tracing(ins, outs, parent, seeds, w, []) && InFlags(ins, outs)
    && SeedsPlaced(ins, parent, seeds, w, |seeds|) && forall v: nat :: v < |outs| ==> Done(w, v)
  }

  /** From all functions finished. */
  lemma Settled(ins: Rows, outs: Rows, parent: seq<int>, seeds: seq<nat>, w: Walk, u: nat, k: nat)
    requires Snipped(ins, outs, parent, seeds, w) && u < |outs| && k < |outs[u]|
    ensures w.next[u] == |outs[u]| && outs[u][k].target < |outs| && Done(w, u) && Done(w, outs[u][k].target)
    ensures Judged(w, parent, seeds, u, k, outs[u][k])
  {
  }

  // ---------- no cycles ----------

  /** An edge without the cycle flag from u to v. */
  ghost predicate Calling(outs: Rows, u: nat, v: nat) {
    u < |outs| && exists k :: 0 <= k < |outs[u]| && outs[u][k].target == v && Cycle !in outs[u][k].flags
  }

  ghost predicate CallPath(outs: Rows, p: seq<nat>) {
    |p| > 0 && p[0] < |outs| && forall i :: 0 <= i < |p| - 1 ==> Calling(outs, p[i], p[i + 1])
  }

  /** A path of edges without the cycle flag only goes to functions finished earlier, so it never comes back. */
  lemma {:induction false} NoCycleIsLeft(ins: Rows, outs: Rows, parent: seq<int>, seeds: seq<nat>, w: Walk, p: seq<nat>)
    requires Snipped(ins, outs, parent, seeds, w) && CallPath(outs, p) && |p| > 1
    ensures p[|p| - 1] < |outs| && p[0] != p[|p| - 1] && w.pos[p[|p| - 1]] < w.pos[p[0]]
    decreases |p|
  {
    assert Calling(outs, p[0], p[1]);
    var k: nat :| k < |outs[p[0]]| && outs[p[0]][k].target == p[1] && Cycle !in outs[p[0]][k].flags;
    Settled(ins, outs, parent, seeds, w, p[0], k);
    if |p| > 2 {
      var q := p[1..];
      forall i | 0 <= i < |q| - 1 ensures Calling(outs, q[i], q[i + 1]) {
        assert Calling(outs, p[i + 1], p[i + 2]);
      }
      NoCycleIsLeft(ins, outs, parent, seeds, w, q);
    }
  }

  // ---------- the forest ----------

  /** An edge to be followed from u to v. */
  ghost predicate Followed(outs: Rows, u: nat, v: nat) {
    u < |outs| && exists k :: 0 <= k < |outs[u]| && outs[u][k].target == v && DontFollow !in outs[u][k].flags
  }

  ghost predicate TreePath(outs: Rows, p: seq<nat>) {
    |p| > 0 && p[0] < |outs| && forall i :: 0 <= i < |p| - 1 ==> Followed(outs, p[i], p[i + 1])
  }

  /** A seed has no followed in-edge; any other function has exactly one, at the slot its parentedge names. */
  lemma OneParent(ins: Rows, outs: Rows, parent: seq<int>, seeds: seq<nat>, w: Walk, v: nat, j: nat)
    requires Snipped(ins, outs, parent, seeds, w) && v < |ins| && j < |ins[v]|
    ensures ins[v][j].source < |outs| && ins[v][j].complement < |outs[ins[v][j].source]|
    ensures DontFollow !in outs[ins[v][j].source][ins[v][j].complement].flags <==> v !in seeds && parent[v] == j
  {
    var h := ins[v][j];
    assert InLinked(ins, outs, v, j);
    Settled(ins, outs, parent, seeds, w, h.source, h.complement);
    if v !in seeds { assert Done(w, v) && ParentLinked(ins, outs, parent, w, v); }
  }

  /** The parent of a function that is not a seed. */
  lemma ParentOf(ins: Rows, outs: Rows, parent: seq<int>, seeds: seq<nat>, w: Walk, v: nat) returns (u: nat, k: nat)
    requires Snipped(ins, outs, parent, seeds, w) && v < |outs| && v !in seeds
    ensures 0 <= parent[v] < |ins[v]| && ins[v][parent[v]].source == u && ins[v][parent[v]].complement == k
    ensures u < |outs| && k < |outs[u]| && outs[u][k].target == v && outs[u][k].flags == {} && v < |w.pos| &&
              u < |w.pos| && w.pos[v] < w.pos[u] < |w.order|
    ensures forall x: nat :: Followed(outs, x, v) <==> x == u
  {
    assert Done(w, v) && ParentLinked(ins, outs, parent, w, v);
    var h := ins[v][parent[v]];
    u, k := h.source, h.complement;
    assert InLinked(ins, outs, v, parent[v]);
    Settled(ins, outs, parent, seeds, w, u, k);
    forall x: nat | Followed(outs, x, v) ensures x == u {
      var k' :| 0 <= k' < |outs[x]| && outs[x][k'].target == v && DontFollow !in outs[x][k'].flags;
      assert OutLinked(ins, outs, x, k');
      OneParent(ins, outs, parent, seeds, w, v, outs[x][k'].complement);
    }
  }

  lemma SeedHasNoParent(ins: Rows, outs: Rows, parent: seq<int>, seeds: seq<nat>, w: Walk, v: nat, x: nat)
    requires Snipped(ins, outs, parent, seeds, w) && v in seeds
    ensures !Followed(outs, x, v)
  {
    if Followed(outs, x, v) {
      var k :| 0 <= k < |outs[x]| && outs[x][k].target == v && DontFollow !in outs[x][k].flags;
      Settled(ins, outs, parent, seeds, w, x, k);
    }
  }

  /** Every function is reached from a seed by followed edges. */
  lemma {:induction false} ReachedFromSeed(ins: Rows, outs: Rows, parent: seq<int>, seeds: seq<nat>, w: Walk, v: nat)
                                           returns (p: seq<nat>)
    requires Snipped(ins, outs, parent, seeds, w) && v < |outs| && v < |w.pos|
    ensures TreePath(outs, p) && p[0] in seeds && p[|p| - 1] == v
    decreases |w.order| - w.pos[v]
  {
    hide Snipped;
    if v in seeds {
      p := [v];
    } else {
      var u, k := ParentOf(ins, outs, parent, seeds, w, v);
      p := ReachedFromSeed(ins, outs, parent, seeds, w, u);
      assert Followed(outs, u, v);
      p := p + [v];
    }
  }

  lemma PathStays(ins: Rows, outs: Rows, parent: seq<int>, seeds: seq<nat>, w: Walk, p: seq<nat>)
    requires Snipped(ins, outs, parent, seeds, w) && TreePath(outs, p)
    ensures p[|p| - 1] < |outs|
  {
    if |p| > 1 {
      assert Followed(outs, p[|p| - 2], p[|p| - 1]);
      var k :| 0 <= k < |outs[p[|p| - 2]]| && outs[p[|p| - 2]][k].target == p[|p| - 1];
      Settled(ins, outs, parent, seeds, w, p[|p| - 2], k);
    }
  }

  lemma PrefixPath(outs: Rows, p: seq<nat>)
    requires TreePath(outs, p) && |p| > 1
    ensures TreePath(outs, p[..|p| - 1]) && Followed(outs, p[|p| - 2], p[|p| - 1]) && p == p[..|p| - 1] + [p[|p| - 1]]
  {
    var q := p[..|p| - 1];
    forall i | 0 <= i < |q| - 1 ensures Followed(outs, q[i], q[i + 1]) {
      assert Followed(outs, p[i], p[i + 1]);
    }
  }

  /** And in only one way. */
  lemma {:induction false} ReachedOnce(ins: Rows, outs: Rows, parent: seq<int>, seeds: seq<nat>, w: Walk, p: seq<nat>,
                                       q: seq<nat>)
    requires Snipped(ins, outs, parent, seeds, w) && TreePath(outs, p) && TreePath(outs, q)
    requires p[0] in seeds && q[0] in seeds && p[|p| - 1] == q[|q| - 1]
    ensures p == q
    decreases |p|
  {
    var v := p[|p| - 1];
    PathStays(ins, outs, parent, seeds, w, p);
    hide Snipped;
    if |p| > 1 { PrefixPath(outs, p); }
    if |q| > 1 { PrefixPath(outs, q); }
    hide TreePath, Followed;
    if v in seeds {
      if |p| > 1 { SeedHasNoParent(ins, outs, parent, seeds, w, v, p[|p| - 2]); }
      if |q| > 1 { SeedHasNoParent(ins, outs, parent, seeds, w, v, q[|q| - 2]); }
    } else {
      var u, k := ParentOf(ins, outs, parent, seeds, w, v);
      assert |p| > 1 && |q| > 1;
      ReachedOnce(ins, outs, parent, seeds, w, p[..|p| - 1], q[..|q| - 1]);
    }
  }

  // ---------- which edges are snipped ----------

  /** The subtree of u holds the positions from start to pos; an edge closes a cycle exactly when its callee is
      an ancestor of its caller in the forest, or the caller itself. */
  ghost predicate Ancestor(outs: Rows, a: nat, u: nat) {
    exists p :: TreePath(outs, p) && p[0] == a && p[|p| - 1] == u
  }

  lemma {:induction false} PathDescends(ins: Rows, outs: Rows, parent: seq<int>, seeds: seq<nat>, w: Walk, p: seq<nat>)
    requires Snipped(ins, outs, parent, seeds, w) && TreePath(outs, p)
    ensures p[|p| - 1] < |outs| && w.pos[p[|p| - 1]] <= w.pos[p[0]]
    decreases |p|
  {
    if |p| > 1 {
      assert Followed(outs, p[0], p[1]);
      var k: nat :| k < |outs[p[0]]| && outs[p[0]][k].target == p[1] && DontFollow !in outs[p[0]][k].flags;
      Settled(ins, outs, parent, seeds, w, p[0], k);
      var q := p[1..];
      forall i | 0 <= i < |q| - 1 ensures Followed(outs, q[i], q[i + 1]) {
        assert Followed(outs, p[i + 1], p[i + 2]);
      }
      PathDescends(ins, outs, parent, seeds, w, q);
    }
  }

  /** Of the children of a from slot k on, whose subtrees begin at position t, one holds position x. */
  lemma {:induction false} ChildHolding(ins: Rows, outs: Rows, parent: seq<int>, seeds: seq<nat>, w: Walk, a: nat,
                                        k: nat, t: int, x: int)
    returns (r: nat)
    requires Snipped(ins, outs, parent, seeds, w) && a < |outs| && k <= |outs[a]| && t <= x < w.pos[a]
    requires w.next[a] == |outs[a]| && Resumes(outs, w, a, k, t)
    ensures r < |outs[a]| && DontFollow !in outs[a][r].flags && outs[a][r].target < |outs|
    ensures var c := outs[a][r].target; w.start[c] <= x <= w.pos[c] < w.pos[a]
    decreases |outs[a]| - k
  {
    r := Follow(outs[a], k, |outs[a]|);
    assert Done(w, a);
    Settled(ins, outs, parent, seeds, w, a, r);
    var c := outs[a][r].target;
    if x > w.pos[c] {
      assert Resumes(outs, w, a, r + 1, w.pos[c] + 1);
      r := ChildHolding(ins, outs, parent, seeds, w, a, r + 1, w.pos[c] + 1, x);
    }
  }

  /** A finished function: where it stands in the order, and where its own subtree starts. */
  lemma DoneFacts(ins: Rows, outs: Rows, parent: seq<int>, seeds: seq<nat>, w: Walk, v: nat)
    requires Snipped(ins, outs, parent, seeds, w) && v < |outs|
    ensures Counts(outs, w) && Targets(outs) && v < |w.next| && w.next[v] == |outs[v]|
    ensures v < |w.start| == |w.pos| && 0 <= w.start[v] <= w.pos[v] < |w.order| && w.order[w.pos[v]] == v &&
              w.pos[v] >= 0
    ensures Resumes(outs, w, v, 0, w.start[v])
  {
    assert Done(w, v) && LaidOut(outs, w) && Found(w, v);
  }

  lemma {:induction false} HolderIsAncestor(ins: Rows, outs: Rows, parent: seq<int>, seeds: seq<nat>, w: Walk, a: nat,
                                            u: nat)
    returns (p: seq<nat>)
    requires Snipped(ins, outs, parent, seeds, w) && a < |outs| && u < |outs| && w.start[a] <= w.pos[u] <= w.pos[a]
    ensures TreePath(outs, p) && p[0] == a && p[|p| - 1] == u
    decreases w.pos[a]
  {
    hide Snipped, Resumes, Counts;
    DoneFacts(ins, outs, parent, seeds, w, a);
    DoneFacts(ins, outs, parent, seeds, w, u);
    if w.pos[u] == w.pos[a] {
      p := [a];
    } else {
      var r := ChildHolding(ins, outs, parent, seeds, w, a, 0, w.start[a], w.pos[u]);
      var c := outs[a][r].target;
      var q := HolderIsAncestor(ins, outs, parent, seeds, w, c, u);
      assert Followed(outs, a, c);
      p := [a] + q;
    }
  }

  /** Only edges that close a cycle with the forest are snipped, and all of them are. */
  lemma SnippedClosesCycle(ins: Rows, outs: Rows, parent: seq<int>, seeds: seq<nat>, w: Walk, u: nat, k: nat)
    requires Snipped(ins, outs, parent, seeds, w) && u < |outs| && k < |outs[u]|
    ensures Cycle in outs[u][k].flags <==> Ancestor(outs, outs[u][k].target, u)
  {
    var v := outs[u][k].target;
    Settled(ins, outs, parent, seeds, w, u, k);
    if Cycle in outs[u][k].flags {
      var p := HolderIsAncestor(ins, outs, parent, seeds, w, v, u);
    } else if Ancestor(outs, v, u) {
      var p :| TreePath(outs, p) && p[0] == v && p[|p| - 1] == u;
      PathDescends(ins, outs, parent, seeds, w, p);
    }
  }

  // ---------- the walk over the finish order ----------

  /** From slot on in the out-edges of node, or in the seeds when there is no node, the walk meets position t next. */
  ghost predicate Heading(outs: Rows, seeds: seq<nat>, w: Walk, node: Option<nat>, slot: int, t: int) {
    && Counts(outs, w) && Targets(outs)
    && match node
       case None => 0 <= slot <= |seeds| && if slot < |seeds| then seeds[slot] < |outs| && w.start[seeds[slot]] == t
           else t == |w.order|
       case Some(u) => u < |outs| && 0 <= slot <= w.next[u] && Resumes(outs, w, u, slot, t)
  }

  /** Where pushPossible goes from slot. */
  ghost function Pushed(outs: Rows, seeds: seq<nat>, node: Option<nat>, slot: nat): Option<nat>
    requires node.Some? ==> node.value < |outs| && slot <= |outs[node.value]|
  {
    match node
    case None => if slot < |seeds| then Some(seeds[slot]) else None
    case Some(u) =>
      var r := Follow(outs[u], slot, |outs[u]|);
      if r < |outs[u]| then Some(outs[u][r].target) else None
  }

  lemma RootResumes(outs: Rows, w: Walk, u: nat)
    requires LaidOut(outs, w) && u < |outs| && Found(w, u)
    ensures Counts(outs, w) && Targets(outs) && Resumes(outs, w, u, 0, w.start[u])
  {
  }

  ghost function Height(w: Walk, node: Option<nat>): int {
    if node.None? then |w.order| else if node.value < |w.pos| then w.pos[node.value] else 0
  }

  lemma PushSeed(ins: Rows, outs: Rows, parent: seq<int>, seeds: seq<nat>, w: Walk, slot: nat, t: int)
    requires Snipped(ins, outs, parent, seeds, w) && Heading(outs, seeds, w, None, slot, t) && slot < |seeds|
    ensures var c := seeds[slot];
              c < |outs| && Heading(outs, seeds, w, Some(c), 0, t) && 0 <= Height(w, Some(c)) < Height(w, None)
  {
    hide LaidOut, InFlags, Linked, Resumes;
    assert Done(w, seeds[slot]);
    assert LaidOut(outs, w) && Counts(outs, w);
    RootResumes(outs, w, seeds[slot]);
  }

  lemma PushChild(ins: Rows, outs: Rows, parent: seq<int>, seeds: seq<nat>, w: Walk, u: nat, slot: nat, t: int)
    requires Snipped(ins, outs, parent, seeds, w) && Heading(outs, seeds, w, Some(u), slot, t)
    ensures u < |outs| && slot <= |outs[u]|
    ensures match Pushed(outs, seeds, Some(u), slot)
            case Some(c) => c < |outs| && Heading(outs, seeds, w, Some(c), 0, t) &&
                0 <= Height(w, Some(c)) < Height(w, Some(u))
            case None => t < |w.order| && u == w.order[t]
  {
    hide Snipped, Counts;
    DoneFacts(ins, outs, parent, seeds, w, u);
    var r := Follow(outs[u], slot, |outs[u]|);
    if r < |outs[u]| {
      Settled(ins, outs, parent, seeds, w, u, r);
      DoneFacts(ins, outs, parent, seeds, w, outs[u][r].target);
    }
  }

  lemma PushHeads(ins: Rows, outs: Rows, parent: seq<int>, seeds: seq<nat>, w: Walk, node: Option<nat>, slot: nat,
                  t: int)
    requires Snipped(ins, outs, parent, seeds, w) && Heading(outs, seeds, w, node, slot, t)
    ensures node.Some? ==> node.value < |outs| && slot <= |outs[node.value]|
    ensures match Pushed(outs, seeds, node, slot)
            case Some(c) => c < |outs| && Heading(outs, seeds, w, Some(c), 0, t) &&
                0 <= Height(w, Some(c)) < Height(w, node)
            case None => if node.Some? then t < |w.order| && node.value == w.order[t] else t == |w.order|
  {
    match node
    case None =>
      if slot < |seeds| {
        hide Snipped;
        PushSeed(ins, outs, parent, seeds, w, slot, t);
      }
    case Some(u) =>
      hide Snipped, Heading;
      PushChild(ins, outs, parent, seeds, w, u, slot, t);
  }

  /** One slot past the seed, or past the edge that led to v, the walk meets the position after that of v. */
  lemma PopSeed(ins: Rows, outs: Rows, parent: seq<int>, seeds: seq<nat>, w: Walk, v: nat)
    requires Snipped(ins, outs, parent, seeds, w) && v in seeds
    ensures v < |outs| && v < |parent| && v < |w.pos| && Heading(outs, seeds, w, None, parent[v] + 1, w.pos[v] + 1)
  {
    var j :| 0 <= j < |seeds| && seeds[j] == v;
    assert parent[v] == j && Done(w, v) && Counts(outs, w) && Targets(outs);
    assert j + 1 < |seeds| ==> w.start[seeds[j + 1]] == w.pos[v] + 1;
    hide Counts, Tracing, Linked, InFlags;
  }

  lemma PopChild(ins: Rows, outs: Rows, parent: seq<int>, seeds: seq<nat>, w: Walk, v: nat)
    requires Snipped(ins, outs, parent, seeds, w) && v < |outs| && v !in seeds
    ensures v < |w.pos| && v < |parent| && 0 <= parent[v] < |ins[v]|
    ensures Heading(outs, seeds, w, Some(ins[v][parent[v]].source), ins[v][parent[v]].complement + 1, w.pos[v] + 1)
  {
    assert Counts(outs, w) && Targets(outs);
    var u, k := ParentOf(ins, outs, parent, seeds, w, v);
    Settled(ins, outs, parent, seeds, w, u, k);
    assert LaidOut(outs, w);
    hide Snipped, Tracing, Counts;
    DoneChild(outs, w, u, k);
  }

  /** The order lists every function once, and the callee of every edge without the cycle flag before the caller. */
  ghost predicate CalleesBefore(outs: Rows, order: seq<nat>) {
    && (forall v: nat :: v < |outs| <==> v in order)
    && (forall i, j :: 0 <= i < j < |order| ==> order[i] != order[j])
    && forall i, k ::
         0 <= i < |order| && order[i] < |outs| && 0 <= k < |outs[order[i]]| &&
         Cycle !in outs[order[i]][k].flags ==>
         outs[order[i]][k].target in order[..i]
  }

  lemma CalleesFirst(ins: Rows, outs: Rows, parent: seq<int>, seeds: seq<nat>, w: Walk)
    requires Snipped(ins, outs, parent, seeds, w)
    ensures CalleesBefore(outs, w.order)
  {
    hide Snipped, Counts, Resumes;
    OrderFacts(ins, outs, parent, seeds, w);
    forall v: nat | v < |outs| ensures v in w.order {
      DoneFacts(ins, outs, parent, seeds, w, v);
    }
    forall i, k | 0 <= i < |w.order| && 0 <= k < |outs[w.order[i]]| && Cycle !in outs[w.order[i]][k].flags
      ensures outs[w.order[i]][k].target in w.order[..i]
    {
      var v := outs[w.order[i]][k].target;
      Settled(ins, outs, parent, seeds, w, w.order[i], k);
      DoneFacts(ins, outs, parent, seeds, w, v);
      assert w.order[..i][w.pos[v]] == v;
    }
  }

  lemma OrderFacts(ins: Rows, outs: Rows, parent: seq<int>, seeds: seq<nat>, w: Walk)
    requires Snipped(ins, outs, parent, seeds, w)
    ensures |w.pos| == |outs| && forall i :: 0 <= i < |w.order| ==> w.order[i] < |outs| && w.pos[w.order[i]] == i
  {
    assert LaidOut(outs, w) && Counts(outs, w);
  }
}
