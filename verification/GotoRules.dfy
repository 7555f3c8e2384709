/** ruleBlockGoto: a block with an edge marked as unstructured becomes one without that edge. */
module GotoRules {

  import opened Flow
  import opened Quotient
  import opened Identify
  import opened Shapes
  import opened Structuring
  import opened CollapseRules
  import opened SequenceRules

  ghost predicate GotoOut(s: Shape, b: nat, k: nat) {
    OutSlot(s.g, b, k) && Goto(s.g.outs[b][k])
  }

  /** Some edge out of b is a goto, and b is a switch or has at most two ways out. */
  ghost predicate GotoFits(s: Shape, b: nat) {
    && b < |s.facts| && (exists k: nat :: GotoOut(s, b, k))
    && (s.facts[b].switchOut || HasOut(s, b, 1) || HasOut(s, b, 2))
  }

  /** The first edge out of bl that is a goto. */
  method FindGoto(c: CollapseStructure, bl: nat) returns (i: nat)
    requires bl < |c.graph.outs|
    ensures i <= |c.graph.outs[bl]| && (i < |c.graph.outs[bl]| ==> GotoOut(c.S(), bl, i)) && forall k: nat :: k < i ==>
              !GotoOut(c.S(), bl, k)
  {
    i := 0;
    while i < |c.graph.outs[bl]| && !Goto(c.graph.outs[bl][i])
      invariant i <= |c.graph.outs[bl]| && forall k: nat :: k < i ==> !GotoOut(c.S(), bl, k)
    {
      i := i + 1;
    }
  }

  // ---------- blocks with one or two ways out ----------

  /** Way out j of b, perhaps after two changed places, is gone; every other edge is as it was. */
  ghost predicate WayDropped(s: Shape, t: Shape, b: nat, j: nat) {
    exists f: Shape, i: nat :: Turned(s, f, b) && OutSlot(f.g, b, j) && Dropped(f.g, t.g, b, To(f, b, j), i)
  }

  /** newBlockGoto, newBlockIfGoto: a block took the place of b; of its k ways out the one to target is gone. */
  ghost predicate GotoBuilt(s: Shape, m: Shape, mid: Shape, t: Shape, b: nat, k: nat) {
    && k > 0 && HasOut(s, b, k) && HasOut(m, b, k) && Goto(m.g.outs[b][k - 1]) && Built(s, m, mid, b, [b], k)
    && t.list == mid.list && t.facts == mid.facts && HasOut(t, |s.g.outs|, k - 1)
    && WayDropped(mid, t, |s.g.outs|, k - 1)
    && (k == 2 ==> To(t, |s.g.outs|, 0) == if To(m, b, 0) == b then |s.g.outs| else To(m, b, 0))
  }

  lemma OwnEnds(s: Shape, b: nat) returns (ends: seq<nat>)
    requires Sound(s) && b in s.list
    ensures b < |s.g.outs| && |ends| == |s.g.outs[b]| && EndsIn(s, [b], ends) && [b][0] in [b]
    ensures |s.g.outs[b]| == 2 ==> ends == [To(s, b, 0), To(s, b, 1)]
  {
    ListedSizes(s, b);
    ends := seq(|s.g.outs[b]|, j requires 0 <= j < |s.g.outs[b]| => s.g.outs[b][j].point);
    forall n: nat, j: nat | n in [b] && OutSlot(s.g, n, j) ensures s.g.outs[n][j].point in ends {
      assert ends[j] in ends;
    }
  }

  /** One edge less than the block in whose place it stands, and the others no more: a step down. */
  lemma FewerWaysOut(s: Shape, mid: Shape, t: Shape, b: nat, k: nat)
    requires Super(s, mid, {b}, k) && Narrow(s) && Sound(t) && t.list == mid.list && |t.facts| == |mid.facts| &&
               |t.g.outs| == |mid.g.outs|
    requires forall n :: 0 <= n < |s.facts| ==> t.facts[n] == mid.facts[n]
    requires |mid.g.outs| == |s.g.outs| + 1 ==> forall y: nat :: y < |s.g.outs| ==> |t.g.outs[y]| == |mid.g.outs[y]|
    requires b < |s.g.outs| < |t.g.outs| && |t.g.outs[|s.g.outs|]| < |s.g.outs[b]|
    requires |t.g.outs[|s.g.outs|]| <= 2 || (|s.g.outs| < |t.facts| && t.facts[|s.g.outs|].switchOut)
    ensures Sound(s) && Size(t) < Size(s) && Narrow(t)
  {
    hide Narrow, Without;
    SuperFacts(s, mid, {b}, k);
    SizesOf(s);
    SuperList(s, {b});
    MembersOf(s.list);
    NarrowKept(s, t, {b});
    MergeSize(s, t, {b}, b);
  }

  lemma SingleNode(s: Shape, b: nat)
    ensures SingleEntry(s, [b])
  {
  }

  lemma SingleMember(b: nat)
    ensures Members([b]) == {b}
  {
    MembersOf([b]);
  }

  /** A block that leads to end has an entry there. */
  lemma EntryThere(s: Shape, b: nat, k: nat)
    requires Sound(s) && b in s.list && OutSlot(s.g, b, k)
    ensures var end := To(s, b, k); end in s.list && end < |s.g.ins| && Leads(s.g.ins[end], b)
  {
    PointListed(s, b, k);
    SlotLeads(s.g.outs[b], k);
    LeadsBack(s.g, b, To(s, b, k));
  }

  lemma LastDropped(s: Shape, f: Shape, t: Shape, b: nat, j: nat)
    requires (s == f || Turned(s, f, b)) && b < |s.g.outs| && OutSlot(f.g, b, j)
    requires exists i: nat :: Dropped(f.g, t.g, b, To(f, b, j), i)
    ensures WayDropped(s, t, b, j)
  {
    TurnedNot(s, b);
  }

  /** The rest of newBlockGoto and newBlockIfGoto: the last way out, a goto, is dropped. */
  method DropLast(c: CollapseStructure, ret: nat, k: nat, ghost s: Shape, ghost m: Shape, ghost mid: Shape,
                  ghost b: nat)
    requires c.Valid() && 1 <= k <= 2 && ret == |s.g.outs| && ret in c.graph.list && HasOut(c.S(), ret, k)
    requires Sound(s) && Narrow(m) && Turned(s, m, b) && HasOut(s, b, k) && HasOut(m, b, k) && Goto(m.g.outs[b][k - 1])
    requires Sound(m) && Built(s, m, mid, b, [b], k)
    requires if k == 2 then KeepsFalse(m, mid, c.S(), [b], b) else c.S() == mid
    modifies c.graph`ins, c.graph`outs
    ensures c.Valid() && Smaller(c.S(), s) && GotoBuilt(s, m, mid, c.S(), b, k)
  {
    hide Narrow, Super, Members, Size, Switches, UnmarkedEdges, Labelled, SingleEntry, Recorded, SwapsOut, WayDropped,
      Dropped;
    ghost var f := c.S();
    ValidSound(c);
    SizesOf(s);
    SizesOf(f);
    ListedSizes(f, ret);
    EntryThere(f, ret, k - 1);
    SingleMember(b);
    SuperOf(s, m, mid, b, [b], k);
    c.RemoveEdge(ret, c.graph.outs[ret][k - 1].point);
    LastDropped(mid, f, c.S(), ret, k - 1);
    TurnedSize(s, m, b);
    FewerWaysOut(m, mid, c.S(), b, k);
  }

  lemma Wrapped(m: Shape, t: Shape, b: nat, k: nat, ends: seq<nat>)
    requires Super(m, t, Members([b]), k) && Narrow(m) && k <= 2 && EndsIn(m, [b], ends) && |ends| == k
    ensures Sound(t) && Narrow(t) && |t.g.outs| == |m.g.outs| + 1 && |t.g.outs[|m.g.outs|]| == k && |m.g.outs| in t.list
  {
    hide Sound, Narrow, Without, EndsIn;
    SingleMember(b);
    EndsOuter(m, [b], ends);
    SuperFacts(m, t, {b}, k);
    SuperFits(m, t, {b}, k, ends);
    SuperList(m, {b});
    SizesOf(m);
    NarrowKept(m, t, {b});
  }

  /** A block in place of bl, with as many ways out. */
  method WrapBlock(c: CollapseStructure, bl: nat, k: nat, ghost s: Shape) returns (ret: nat)
    requires c.Valid() && bl in c.graph.list && HasOut(c.S(), bl, k) && 1 <= k <= 2 && Turned(s, c.S(), bl)
    modifies c`facts, c`made, c.graph
    ensures c.Valid() && old(c.made) <= c.made && ret == |s.g.outs| && ret in c.graph.list &&
              Built(s, old(c.S()), c.S(), bl, [bl], k) &&
              HasOut(c.S(), ret, k)
  {
    hide Sound, Narrow, Super, Members, Turned, EndsIn, Labelled, Recorded;
    ghost var m := c.S();
    ValidSound(c);
    ghost var ends := OwnEnds(m, bl);
    SizesOf(m);
    TurnedSizes(s, m, bl);
    TurnedLists(s, m, bl);
    TurnedOuts(s, m, bl);
    SingleNode(s, bl);
    SingleNode(m, bl);
    ret := c.NewSuper([bl], k, false, true);
    Wrapped(m, c.S(), bl, k, ends);
  }

  lemma TurnedOuts(s: Shape, m: Shape, b: nat)
    requires Turned(s, m, b)
    ensures |m.g.outs| == |s.g.outs| && b < |s.g.outs| && |m.g.outs[b]| == |s.g.outs[b]|
  {
  }

  /** newBlockGoto */
  method NewBlockGoto(c: CollapseStructure, bl: nat) returns (ghost mid: Shape)
    requires c.Valid() && bl in c.graph.list && HasOut(c.S(), bl, 1) && Goto(c.graph.outs[bl][0])
    modifies c`facts, c`made, c.graph
    ensures c.Valid() && old(c.made) <= c.made && Smaller(c.S(), old(c.S())) &&
              GotoBuilt(old(c.S()), old(c.S()), mid, c.S(), bl, 1)
  {
    hide Sound, Narrow, Super, Members, EndsIn, Size, Switches, UnmarkedEdges, Built;
    ghost var s := c.S();
    ValidSound(c);
    TurnedNot(s, bl);
    var ret := WrapBlock(c, bl, 1, s);
    mid := c.S();
    DropLast(c, ret, 1, s, s, mid, bl);
  }

  /** newBlockIfGoto, after the goto was made the true way out. */
  method NewBlockIfGoto(c: CollapseStructure, bl: nat, ghost s: Shape) returns (ghost mid: Shape)
    requires c.Valid() && bl in c.graph.list && HasOut(c.S(), bl, 2) && Goto(c.graph.outs[bl][1])
    requires Sound(s) && HasOut(s, bl, 2) && Turned(s, c.S(), bl)
    modifies c`facts, c`made, c.graph
    ensures c.Valid() && old(c.made) <= c.made && Smaller(c.S(), s) && GotoBuilt(s, old(c.S()), mid, c.S(), bl, 2)
  {
    hide Sound, Narrow, Super, Members, EndsIn, Size, Switches, UnmarkedEdges, Built, Turned, KeepsFalse;
    ghost var m := c.S();
    ValidSound(c);
    TurnedOuts(s, m, bl);
    ghost var ends := OwnEnds(m, bl);
    var out0 := c.graph.outs[bl][0].point;
    var ret := WrapBlock(c, bl, 2, s);
    mid := c.S();
    SuperOf(s, m, mid, bl, [bl], 2);
    FalseThere(m, mid, [bl], bl);
    c.ForceFalseEdge(ret, out0, [bl]);
    KeptFalse(m, mid, c.S(), [bl], bl, ret);
    DropLast(c, ret, 2, s, m, mid, bl);
  }

  // ---------- switches ----------

  /** The block that newBlockMultiGoto puts b in, with k ways out forced on it. */
  ghost predicate WrappedIn(s: Shape, mid: Shape, b: nat, k: nat) {
    Super(s, mid, {b}, k) && Labelled(s, mid, [b])
  }

  /** newBlockMultiGoto: a block that already holds gotos loses one edge to target; any other is put into a block that
      leads everywhere it led except to target. */
  ghost predicate MultiBuilt(s: Shape, mid: Shape, t: Shape, b: nat, k: nat) {
    && OutSlot(s.g, b, k) && b < |s.facts|
    && var target, ret := To(s, b, k), |s.g.outs|;
       if s.facts[b].multiGoto then
         t.list == s.list && |t.g.outs| == ret && exists i: nat :: Dropped(s.g, t.g, b, target, i)
       else
         (exists n: nat :: WrappedIn(s, mid, b, n))
         && (if target == b then t.g == mid.g else exists i: nat :: Dropped(mid.g, t.g, ret, target, i)) &&
         t.list == Without(s.list, {b}) + [ret] && |t.g.outs| == ret + 1
         && forall p: nat :: p != ret ==> (Leads(t.g.outs[ret], p) <==> p != target && Outer(s, {b}, p))
  }

  lemma OneLess(s: Shape, t: Shape, b: nat)
    requires Sound(s) && Narrow(s) && Sound(t) && t.list == s.list && |t.g.outs| == |s.g.outs| && b in s.list &&
               b < |s.g.outs|
    requires |t.facts| == |s.facts| && forall n :: 0 <= n < |s.facts| ==> t.facts[n].switchOut == s.facts[n].switchOut
    requires |t.g.outs[b]| < |s.g.outs[b]| && forall y: nat :: y < |s.g.outs| && y != b ==>
               |t.g.outs[y]| == |s.g.outs[y]|
    ensures Size(t) < Size(s) && Narrow(t)
  {
    TotalLess(s.list, Degrees(t.g), Degrees(s.g), b);
  }

  /** A block that already holds gotos. */
  method DropFromMulti(c: CollapseStructure, bl: nat, outedge: nat)
    requires c.Valid() && bl in c.graph.list && OutSlot(c.S().g, bl, outedge) && bl < |c.facts| && c.facts[bl].multiGoto
    modifies c`facts, c.graph`ins, c.graph`outs
    ensures c.Valid() && Smaller(c.S(), old(c.S())) && MultiBuilt(old(c.S()), old(c.S()), c.S(), bl, outedge)
    ensures bl < |c.facts| && (old(DefaultSwitch in c.graph.outs[bl][outedge].flags) ==> c.facts[bl].defaultGoto)
  {
    hide Narrow, Members, Size, Switches, UnmarkedEdges, CutAt, Dropped, Recorded;
    ghost var s := c.S();
    ValidSound(c);
    EntryThere(s, bl, outedge);
    var target := c.graph.outs[bl][outedge].point;
    var isDefault := DefaultSwitch in c.graph.outs[bl][outedge].flags;
    c.RemoveEdge(bl, target);
    ghost var m := c.S();
    OneLess(s, m, bl);
    if isDefault { c.facts := c.facts[bl := c.facts[bl].(defaultGoto := true)]; }
    FactsOnly(m, c.S());
  }

  /** The ends of b's edges with edge k left out. */
  lemma OtherEnds(s: Shape, b: nat, k: nat) returns (ends: seq<nat>)
    requires Sound(s) && b in s.list && OutSlot(s.g, b, k) && To(s, b, k) == b
    ensures |ends| == |s.g.outs[b]| - 1 && EndsIn(s, [b], ends)
  {
    var row := s.g.outs[b];
    ends := seq(|row| - 1, j requires 0 <= j < |row| - 1 => row[if j < k then j else j + 1].point);
    forall n: nat, j: nat | n in [b] && OutSlot(s.g, n, j)
      ensures s.g.outs[n][j].point in [b] || s.g.outs[n][j].point in ends
    {
      if j < k { assert ends[j] in ends; }
      if j > k { assert ends[j - 1] in ends; }
      assert [b][0] in [b];
    }
  }

  /** A self loop is gone after wrapping: fewer ways out. */
  lemma SelfLost(s: Shape, m: Shape, b: nat, k: nat)
    requires Super(s, m, {b}, 0) && b in s.list && OutSlot(s.g, b, k) && To(s, b, k) == b
    ensures |m.g.outs| == |s.g.outs| + 1 && |m.g.outs[|s.g.outs|]| < |s.g.outs[b]|
  {
    hide Without;
    var ends := OtherEnds(s, b, k);
    SingleMember(b);
    EndsOuter(s, [b], ends);
    SizesOf(s);
    SuperFits(s, m, {b}, 0, ends);
  }

  lemma NoMore(s: Shape, m: Shape, b: nat)
    requires Super(s, m, {b}, 0) && b in s.list
    ensures b < |s.g.outs| && |m.g.outs| == |s.g.outs| + 1 && |m.g.outs[|s.g.outs|]| <= |s.g.outs[b]|
  {
    hide Without;
    var ends := OwnEnds(s, b);
    SingleMember(b);
    EndsOuter(s, [b], ends);
    SizesOf(s);
    SuperFits(s, m, {b}, 0, ends);
  }

  /** The new block is a switch as long as it has an outer way out. */
  lemma StaysSwitch(s: Shape, m: Shape, b: nat, k: nat)
    requires Super(s, m, {b}, k) && b in s.list && b < |s.facts| && s.facts[b].switchOut
    ensures |m.facts| == |s.g.outs| + 1 && |m.g.outs| == |s.g.outs| + 1
    ensures forall p: nat :: p != |s.g.outs| && Leads(m.g.outs[|s.g.outs|], p) ==> m.facts[|s.g.outs|].switchOut
  {
    hide Without;
    SizesOf(s);
    SuperFacts(s, m, {b}, k);
    ListedSizes(s, b);
    forall p: nat | p != |s.g.outs| && Leads(m.g.outs[|s.g.outs|], p) ensures m.facts[|s.g.outs|].switchOut {
      assert Outer(s, {b}, p);
      if Inside(s.g.outs[b], {b}) { InsideLeads(s.g.outs[b], {b}, p); }
    }
  }

  /** Right after wrapping, when nothing is forced, a way out is an outer one. */
  lemma UnforcedOuter(s: Shape, m: Shape, b: nat)
    requires Super(s, m, {b}, 0) && b in s.list && b < |s.facts| && s.facts[b].switchOut
    ensures |m.facts| == |s.g.outs| + 1 && |m.g.outs| == |s.g.outs| + 1
    ensures |m.g.outs[|s.g.outs|]| > 0 ==> m.facts[|s.g.outs|].switchOut
  {
    hide Without, Collapsed;
    SizesOf(s);
    var ret := |s.g.outs|;
    var h: Graph :| SuperGraph(s.g, m.g, {b}, 0, h);
    StaysSwitch(s, m, b, 0);
    if |m.g.outs[ret]| > 0 {
      NewRow(s, h, {b}, 0, m.g);
      SlotLeads(h.outs[ret], 0);
      OuterOld(s, {b}, h.outs[ret][0].point);
    }
  }

  lemma CutRow(a: seq<Edge>, b: seq<Edge>, end: nat, k: nat, p: nat)
    requires CutAt(a, b, end, k) && AtMostOnce(a, end)
    ensures Leads(b, p) <==> p != end && Leads(a, p)
  {
    if p != end {
      CutOther(a, b, k, p);
    } else {
      forall i | 0 <= i < |b| ensures b[i].point != p {
        var j := Before(i, k, true);
        assert j != k && a[j].point == b[i].point;
        assert j < k || k < j;
      }
    }
  }

  /** The new block leads where b did, except to target. */
  lemma OthersLed(s: Shape, mid: Shape, row: seq<Edge>, b: nat, target: nat, force: nat)
    requires Super(s, mid, {b}, force) && |mid.g.outs| == |s.g.outs| + 1 && target != |s.g.outs|
    requires exists j: nat :: CutAt(mid.g.outs[|s.g.outs|], row, target, j)
    ensures forall p: nat :: p != |s.g.outs| ==> (Leads(row, p) <==> p != target && Outer(s, {b}, p))
  {
    hide Without, Super, Outer, Leads, CutAt, AtMostOnce;
    var ret := |s.g.outs|;
    var j: nat :| CutAt(mid.g.outs[ret], row, target, j);
    SuperSound(s, mid, {b}, force);
    SizesOf(s);
    SuperFacts(s, mid, {b}, force);
    SuperOnce(s, mid, {b}, force, target);
    forall p: nat | p != ret ensures Leads(row, p) <==> p != target && Outer(s, {b}, p) {
      CutRow(mid.g.outs[ret], row, target, j, p);
    }
  }

  lemma SuperLists(s: Shape, mid: Shape, b: nat, k: nat)
    requires Super(s, mid, {b}, k)
    ensures mid.list == Without(s.list, {b}) + [|s.g.outs|] && Sound(s)
  {
    hide Without;
    SizesOf(s);
  }

  lemma MultiFromCut(s: Shape, mid: Shape, t: Shape, b: nat, k: nat, force: nat)
    requires Super(s, mid, {b}, force) && Labelled(s, mid, [b]) && OutSlot(s.g, b, k) && To(s, b, k) != b
    requires exists i: nat :: Dropped(mid.g, t.g, |s.g.outs|, To(s, b, k), i)
    requires b < |s.facts| && !s.facts[b].multiGoto
    requires |mid.g.outs| == |s.g.outs| + 1 == |t.g.outs| && t.list == mid.list && To(s, b, k) != |s.g.outs|
    requires exists j: nat :: CutAt(mid.g.outs[|s.g.outs|], t.g.outs[|s.g.outs|], To(s, b, k), j)
    ensures MultiBuilt(s, mid, t, b, k)
  {
    hide Without, Labelled, Dropped, Super, Outer, Leads, CutAt;
    assert WrappedIn(s, mid, b, force);
    SuperLists(s, mid, b, force);
    OthersLed(s, mid, t.g.outs[|s.g.outs|], b, To(s, b, k), force);
  }

  /** The goto is an edge to another block: after wrapping, it is dropped;
      a self loop that was lost is put back first. */
  method DropWrapped(c: CollapseStructure, ret: nat, target: nat, origSizeOut: nat, ghost s: Shape, ghost b: nat,
                     ghost k: nat)
    returns (ghost mid: Shape)
    requires Labelled(s, c.S(), [b])
    requires c.Ready() && Super(s, c.S(), {b}, 0) && ret == |s.g.outs| && Narrow(s) && b in s.list &&
               OutSlot(s.g, b, k) && To(s, b, k) == target != b
    requires b < |s.facts| && s.facts[b].switchOut && !s.facts[b].multiGoto && origSizeOut == |s.g.outs[b]|
    modifies c.graph`ins, c.graph`outs
    ensures c.Valid() && Smaller(c.S(), s) && MultiBuilt(s, mid, c.S(), b, k)
  {
    hide Narrow, Members, Size, Switches, UnmarkedEdges, CutAt, Super, Outer, MultiBuilt, Labelled, Dropped, Recorded;
    ghost var m := c.S();
    ghost var force := 0;
    SuperSound(s, m, {b}, 0);
    SizesOf(s);
    SizesOf(m);
    NoMore(s, m, b);
    if |c.graph.outs[ret]| != origSizeOut {
      force := |c.graph.outs[ret]| + 1;
      c.ForceMore(ret, |c.graph.outs[ret]| + 1, s, {b}, [b]);
    }
    mid := c.S();
    TargetKept(s, mid, b, k, force);
    StaysSwitch(s, mid, b, force);
    c.RemoveEdge(ret, target);
    MultiFromCut(s, mid, c.S(), b, k, force);
    FewerWaysOut(s, mid, c.S(), b, force);
  }

  lemma SuperSound(s: Shape, t: Shape, comp: set<nat>, k: nat)
    requires Super(s, t, comp, k)
    ensures Sound(s) && Sound(t)
  {
    SuperFacts(s, t, comp, k);
  }

  lemma TargetKept(s: Shape, mid: Shape, b: nat, k: nat, force: nat)
    requires Super(s, mid, {b}, force) && b in s.list && OutSlot(s.g, b, k) && To(s, b, k) != b
    ensures var target, ret := To(s, b, k), |s.g.outs|;
      && |mid.g.outs| == ret + 1 == |mid.g.ins| && target != ret && target in mid.list && target < ret
      && Leads(mid.g.outs[ret], target) && Leads(mid.g.ins[target], ret) && Sound(mid)
  {
    hide Without;
    var target, ret := To(s, b, k), |s.g.outs|;
    SizesOf(s);
    SuperFacts(s, mid, {b}, force);
    SizesOf(mid);
    PointListed(s, b, k);
    SlotLeads(s.g.outs[b], k);
    assert Outer(s, {b}, target);
    SuperList(s, {b});
    LeadsBack(mid.g, ret, target);
  }

  /** newBlockMultiGoto */
  method NewBlockMultiGoto(c: CollapseStructure, bl: nat, outedge: nat) returns (ghost mid: Shape)
    requires c.Valid() && bl in c.graph.list && OutSlot(c.S().g, bl, outedge) && bl < |c.facts| && c.facts[bl].switchOut
    modifies c`facts, c`made, c.graph
    ensures c.Valid() && old(c.made) <= c.made && Smaller(c.S(), old(c.S())) &&
              MultiBuilt(old(c.S()), mid, c.S(), bl, outedge)
  {
    hide Narrow, Members, Size, Switches, UnmarkedEdges, Super, MultiBuilt, Sound, Outer, Labelled, Recorded;
    ghost var s := c.S();
    ValidSound(c);
    if c.facts[bl].multiGoto {
      DropFromMulti(c, bl, outedge);
      mid := s;
    } else {
      var target := c.graph.outs[bl][outedge].point;
      var isDefault := DefaultSwitch in c.graph.outs[bl][outedge].flags;
      var origSizeOut := |c.graph.outs[bl]|;
      SizesOf(s);
      SingleMember(bl);
      SingleNode(s, bl);
      ListedSizes(s, bl);
      var ret := c.NewSuper([bl], 0, true, true);
      assert ret < |c.facts|;
      if target != bl {
        mid := DropWrapped(c, ret, target, origSizeOut, s, bl, outedge);
      } else {
        mid := c.S();
        SelfDropped(s, c.S(), bl, outedge);
      }
      if isDefault { SetDefaultGoto(c, ret, s, mid, bl, outedge); }
    }
  }

  lemma SelfDropped(s: Shape, m: Shape, b: nat, k: nat)
    requires Super(s, m, {b}, 0) && Narrow(s) && b in s.list && OutSlot(s.g, b, k) && To(s, b, k) == b
    requires b < |s.facts| && s.facts[b].switchOut && !s.facts[b].multiGoto && Labelled(s, m, [b])
    ensures Sound(m) && Sound(s) && Narrow(m) && Smaller(m, s) && MultiBuilt(s, m, m, b, k)
    ensures |m.facts| == |s.g.outs| + 1
  {
    hide Narrow, Without, Super, Outer, Labelled, Size, Switches, UnmarkedEdges;
    SelfLost(s, m, b, k);
    SuperSound(s, m, {b}, 0);
    SizesOf(s);
    SizesOf(m);
    UnforcedOuter(s, m, b);
    FewerWaysOut(s, m, m, b, 0);
    MultiFromSelf(s, m, b, k);
  }

  lemma MultiFromSelf(s: Shape, m: Shape, b: nat, k: nat)
    requires Super(s, m, {b}, 0) && Labelled(s, m, [b]) && OutSlot(s.g, b, k) && To(s, b, k) == b
    requires b < |s.facts| && !s.facts[b].multiGoto
    ensures MultiBuilt(s, m, m, b, k)
  {
    hide Without, Labelled, Outer, Super, Leads;
    assert WrappedIn(s, m, b, 0);
    SuperLists(s, m, b, 0);
    SizesOf(s);
    SuperFacts(s, m, {b}, 0);
    NotOuter(s, b);
  }

  lemma NotOuter(s: Shape, b: nat)
    ensures !Outer(s, {b}, b)
  {
  }

  /** setDefaultGoto */
  method SetDefaultGoto(c: CollapseStructure, ret: nat, ghost s: Shape, ghost mid: Shape, ghost b: nat, ghost k: nat)
    requires c.Valid() && Sound(s) && Smaller(c.S(), s) && MultiBuilt(s, mid, c.S(), b, k) && ret < |c.facts|
    modifies c`facts
    ensures c.Valid() && Smaller(c.S(), s) && MultiBuilt(s, mid, c.S(), b, k)
  {
    hide Narrow, Members, Size, Switches, UnmarkedEdges, Outer, Sound;
    ghost var m := c.S();
    ValidSound(c);
    SizesOf(m);
    c.facts := c.facts[ret := c.facts[ret].(defaultGoto := true)];
    FactsOnly(m, c.S());
  }

  // ---------- the rule ----------

  /** What ruleBlockGoto did, by the number of ways out of the block. */
  ghost predicate GotoRuleBuilt(s: Shape, m: Shape, mid: Shape, t: Shape, b: nat) {
    && GotoFits(s, b)
    && if s.facts[b].switchOut then exists k: nat :: GotoOut(s, b, k) && MultiBuilt(s, mid, t, b, k)
       else if HasOut(s, b, 2) then GotoBuilt(s, m, mid, t, b, 2)
       else GotoBuilt(s, s, mid, t, b, 1)
  }

  method RuleBlockGoto(c: CollapseStructure, bl: nat) returns (res: bool, ghost m: Shape, ghost mid: Shape)
    requires c.Valid() && bl in c.graph.list
    modifies c`facts, c`made, c.graph
    ensures c.Valid() && old(c.made) <= c.made && (res <==> GotoFits(old(c.S()), bl))
    ensures if res then Smaller(c.S(), old(c.S())) && GotoRuleBuilt(old(c.S()), m, mid, c.S(), bl)
              else c.S() == old(c.S())
  {
    hide Narrow, Members, Smaller, Super, MultiBuilt, GotoBuilt, Sound, Turned, Outer;
    ghost var s := c.S();
    ValidSound(c);
    ListedSizes(s, bl);
    m, mid := s, s;
    var i := FindGoto(c, bl);
    if i == |c.graph.outs[bl]| { return false, m, mid; }
    if c.facts[bl].switchOut {
      mid := NewBlockMultiGoto(c, bl, i);
      return true, m, mid;
    }
    if |c.graph.outs[bl]| == 2 {
      TurnedNot(s, bl);
      if !Goto(c.graph.outs[bl][1]) { c.NegateCondition(bl); }
      m := c.S();
      TurnedLists(s, m, bl);
      TurnedOuts(s, m, bl);
      mid := NewBlockIfGoto(c, bl, s);
      return true, m, mid;
    }
    if |c.graph.outs[bl]| == 1 {
      mid := NewBlockGoto(c, bl);
      return true, m, mid;
    }
    return false, m, mid;
  }
}
