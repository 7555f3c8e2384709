/** The loops of CollapseStructure: rules are applied until none applies, and all of it ends. */
module Collapse {

  import opened Wrappers
  import opened Flow
  import opened Shapes
  import opened Structuring
  import opened CollapseRules
  import opened SequenceRules
  import opened GotoRules
  import opened SwitchRules

  /** A completely collapsed block. */
  ghost predicate Isolated(s: Shape, b: nat) {
    b < |s.g.ins| && b < |s.g.outs| && |s.g.ins[b]| == 0 && |s.g.outs[b]| == 0
  }

  /** None of the rules of the inner loop applies to the block. */
  ghost predicate Stuck(s: Shape, b: nat) {
    && !GotoFits(s, b) && !CatFits(s, b) && !ProperIfFits(s, b) && !IfElseFits(s, b)
    && !WhileDoFits(s, b) && !DoWhileFits(s, b) && !InfLoopFits(s, b) && !SwitchFits(s, b)
  }

  ghost predicate AllStuck(s: Shape, n: nat)
    requires n <= |s.list|
  {
    forall i :: 0 <= i < n ==> Isolated(s, s.list[i]) || Stuck(s, s.list[i])
  }

  ghost function CountIsolated(s: Shape, n: nat): nat
    requires n <= |s.list|
  {
    if n == 0 then 0 else CountIsolated(s, n - 1) + if Isolated(s, s.list[n - 1]) then 1 else 0
  }

  /** The same shape, or a smaller one. */
  ghost predicate NoLarger(t: Shape, s: Shape) {
    Sound(s) && Sound(t) && (t == s || Smaller(t, s))
  }

  lemma Then(u: Shape, t: Shape, s: Shape)
    requires NoLarger(u, t) && NoLarger(t, s)
    ensures NoLarger(u, s) && (Smaller(u, t) || Smaller(t, s) ==> Smaller(u, s))
  {
    SmallerTransitive(u, t, s);
  }

  /** Where ruleBlockGoto does not apply, no edge is a goto. */
  lemma NoGotosLeft(s: Shape, b: nat)
    requires Sound(s) && Narrow(s) && b in s.list && !GotoFits(s, b)
    ensures b < |s.g.outs| && forall k: nat :: OutSlot(s.g, b, k) ==> !Goto(s.g.outs[b][k])
  {
    ListedSizes(s, b);
    forall k: nat | OutSlot(s.g, b, k) ensures !Goto(s.g.outs[b][k]) {
      assert GotoOut(s, b, k) <==> Goto(s.g.outs[b][k]);
    }
  }

  /** The rules of the inner loop, in their order. */
  method TryRules(c: CollapseStructure, bl: nat) returns (res: bool)
    requires c.Valid() && bl in c.graph.list
    modifies c`facts, c`made, c.graph
    ensures c.Valid() && old(c.made) <= c.made && (res <==> !Stuck(old(c.S()), bl))
    ensures if res then Smaller(c.S(), old(c.S())) else c.S() == old(c.S())
  {
    hide Recorded, Sound, Narrow, Smaller, GotoFits, CatFits, ProperIfFits, IfElseFits, WhileDoFits, DoWhileFits,
      InfLoopFits, SwitchFits, GotoRuleBuilt, CatBuilt, ProperIfBuilt, IfElseBuilt, WhileDoBuilt, DoWhileBuilt,
      InfLoopBuilt, SwitchRuleBuilt;
    ghost var s := c.S();
    ValidSound(c);
    ghost var m, mid, nodes;
    res, m, mid := RuleBlockGoto(c, bl);
    if res { return; }
    NoGotosLeft(s, bl);
    res, m, nodes := RuleBlockCat(c, bl);
    if res { return; }
    res, m := RuleBlockProperIf(c, bl);
    if res { return; }
    res := RuleBlockIfElse(c, bl);
    if res { return; }
    res, m := RuleBlockWhileDo(c, bl);
    if res { return; }
    res, m := RuleBlockDoWhile(c, bl);
    if res { return; }
    res := RuleBlockInfLoop(c, bl);
    if res { return; }
    res, m := RuleBlockSwitch(c, bl);
  }

  /** What a pass knows of the first n blocks, when it changed nothing. */
  ghost predicate Passed(s: Shape, n: nat, isolatedCount: nat) {
    n <= |s.list| && AllStuck(s, n) && isolatedCount == CountIsolated(s, n)
  }

  /** One block is looked at. */
  method PassBlock(c: CollapseStructure, bl: nat, isolatedCount: nat) returns (res: bool, count: nat)
    requires c.Valid() && bl in c.graph.list
    modifies c`facts, c`made, c.graph
    ensures c.Valid() && old(c.made) <= c.made && Sound(old(c.S())) && Sound(c.S())
    ensures if res then Smaller(c.S(), old(c.S())) else c.S() == old(c.S())
    ensures !res ==> forall n: nat :: n < |c.graph.list| && c.graph.list[n] == bl && Passed(c.S(), n, isolatedCount) ==>
              Passed(c.S(), n + 1, count)
  {
    hide Recorded, Sound, Narrow, Smaller, Stuck;
    ghost var s := c.S();
    ValidSound(c);
    ListedSizes(s, bl);
    count := isolatedCount;
    if |c.graph.ins[bl]| == 0 && |c.graph.outs[bl]| == 0 {
      return false, count + 1;
    }
    res := TryRules(c, bl);
    ValidSound(c);
  }

  /** One pass over the blocks, or just the target. Without change nothing applies to any block. */
  method Pass(c: CollapseStructure, target: Option<nat>) returns (change: bool, isolatedCount: nat)
    requires c.Valid() && (target.Some? ==> target.value in c.graph.list)
    modifies c`facts, c`made, c.graph
    ensures c.Valid() && old(c.made) <= c.made && NoLarger(c.S(), old(c.S()))
    ensures if change then target.Some? || (Sound(old(c.S())) && Sound(c.S()) && Smaller(c.S(), old(c.S())))
            else target.None? && c.S() == old(c.S()) && Passed(c.S(), |c.graph.list|, isolatedCount)
  {
    hide Recorded, Sound, Narrow, NoLarger, Passed, Size, Switches, UnmarkedEdges;
    ghost var s := c.S();
    ValidSound(c);
    NoLargerSame(s);
    PassedNone(s);
    change := false;
    isolatedCount := 0;
    var index: nat := 0;
    var targetbl := target;
    while index < |c.graph.list|
      invariant c.Valid() && old(c.made) <= c.made && NoLarger(c.S(), s) && Sound(c.S()) &&
                  (targetbl == target || targetbl == None) &&
                  (targetbl.Some? ==> targetbl.value in c.graph.list)
      invariant index <= |c.graph.list| || change
      invariant if change then targetbl.None? && (target.Some? || Smaller(c.S(), s))
                else targetbl == target && c.S() == s && Passed(s, index, isolatedCount)
      invariant targetbl.Some? ==> index == 0
      decreases Size(c.S()), Switches(c.S()), UnmarkedEdges(c.S()), if targetbl.Some? then 1
        else 0, |c.graph.list| - index
    {
      ghost var t := c.S();
      var bl;
      if targetbl.None? {
        bl := c.graph.list[index];
        index := index + 1;
      } else {
        bl := targetbl.value;
        change := true;
        targetbl := None;
        index := |c.graph.list|;
      }
      var res;
      res, isolatedCount := PassBlock(c, bl, isolatedCount);
      StepDown(c.S(), t, s, res);
      if res { change := true; }
    }
  }

  lemma PassedNone(s: Shape)
    ensures Passed(s, 0, 0)
  {
  }

  lemma NoLargerSame(s: Shape)
    requires Sound(s)
    ensures NoLarger(s, s)
  {
  }

  lemma StepDown(u: Shape, t: Shape, s: Shape, res: bool)
    requires NoLarger(t, s) && Sound(u) && Sound(t) && if res then Smaller(u, t) else u == t
    ensures NoLarger(u, s) && Sound(s) && (res || Smaller(t, s) ==> Smaller(u, s))
    ensures res ==> Smaller(u, t)
  {
    SmallerTransitive(u, t, s);
  }

  /** Passes until there is no change. */
  method Settle(c: CollapseStructure, target: Option<nat>) returns (isolatedCount: nat)
    requires c.Valid() && (target.Some? ==> target.value in c.graph.list)
    modifies c`facts, c`made, c.graph
    ensures c.Valid() && old(c.made) <= c.made && NoLarger(c.S(), old(c.S()))
    ensures AllStuck(c.S(), |c.graph.list|) && isolatedCount == CountIsolated(c.S(), |c.graph.list|)
  {
    hide Recorded, Sound, Narrow, AllStuck, NoLarger, CountIsolated, Size, Switches, UnmarkedEdges, Passed;
    ghost var s := c.S();
    ValidSound(c);
    NoLargerSame(s);
    var targetbl := target;
    var change := true;
    isolatedCount := 0;
    while change
      invariant c.Valid() && old(c.made) <= c.made && Sound(c.S()) && NoLarger(c.S(), s) &&
                  (targetbl.Some? ==> targetbl.value in c.graph.list)
      invariant !change ==> AllStuck(c.S(), |c.graph.list|) && isolatedCount == CountIsolated(c.S(), |c.graph.list|)
      decreases Size(c.S()), Switches(c.S()), UnmarkedEdges(c.S()), if targetbl.Some? then 1 else 0, if change then 1
        else 0
    {
      ghost var t := c.S();
      change, isolatedCount := Pass(c, targetbl);
      targetbl := None;
      ValidSound(c);
      Then(c.S(), t, s);
      Down(c.S(), t);
      if !change { PassedAll(c.S(), isolatedCount); }
    }
  }

  lemma PassedAll(s: Shape, isolatedCount: nat)
    requires Passed(s, |s.list|, isolatedCount)
    ensures AllStuck(s, |s.list|) && isolatedCount == CountIsolated(s, |s.list|)
  {
  }

  lemma Down(u: Shape, t: Shape)
    requires NoLarger(u, t)
    ensures Sound(u) && Sound(t)
    ensures u == t || Smaller(u, t)
  {
  }

  /** No edge of the top level is a goto. */
  ghost predicate NoGotos(s: Shape) {
    forall b: nat, k: nat :: b in s.list && OutSlot(s.g, b, k) ==> !Goto(s.g.outs[b][k])
  }

  lemma StuckNoGotos(s: Shape)
    requires Sound(s) && Narrow(s) && AllStuck(s, |s.list|)
    ensures NoGotos(s)
  {
    forall b: nat, k: nat | b in s.list && OutSlot(s.g, b, k) ensures !Goto(s.g.outs[b][k]) {
      var i :| 0 <= i < |s.list| && s.list[i] == b;
      if !Isolated(s, b) {
        assert Stuck(s, b);
        NoGotosLeft(s, b);
      }
    }
  }

  /** The rules that are tried only when no other applies; the first success ends the search. */
  method LastRules(c: CollapseStructure) returns (fullchange: bool)
    requires c.Valid() && NoGotos(c.S())
    modifies c`facts, c`made, c.graph
    ensures c.Valid() && old(c.made) <= c.made
    ensures if fullchange then Smaller(c.S(), old(c.S()))
            else c.S() == old(c.S()) && forall b: nat :: b in c.graph.list ==>
                !IfNoExitFits(c.S(), b) && !CaseFallthruFits(c.S(), b)
  {
    hide Recorded, Sound, Narrow, Smaller, IfNoExitFits, CaseFallthruFits, IfNoExitBuilt, CaseFallthruBuilt;
    ghost var s := c.S();
    var index: nat := 0;
    while index < |c.graph.list|
      invariant index <= |c.graph.list| && c.Valid() && c.S() == s && old(c.made) <= c.made
      invariant forall i :: 0 <= i < index ==> !IfNoExitFits(s, s.list[i]) && !CaseFallthruFits(s, s.list[i])
    {
      var bl := c.graph.list[index];
      ghost var m, marked;
      var res;
      res, m := RuleBlockIfNoExit(c, bl);
      if res { return true; }
      res, marked := RuleCaseFallthru(c, bl);
      if res { return true; }
      index := index + 1;
    }
    return false;
  }

  /** Nothing more can be collapsed: no rule applies to a block that has edges. */
  ghost predicate Settled(s: Shape) {
    AllStuck(s, |s.list|) && forall b: nat :: b in s.list ==> !IfNoExitFits(s, b) && !CaseFallthruFits(s, b)
  }

  /** collapseInternal: ends for every consistent graph, with a graph to which no rule applies. Each block it builds had
      a single entry. */
  method CollapseInternal(c: CollapseStructure, targetbl: Option<nat>) returns (isolatedCount: nat)
    requires c.Valid() && (targetbl.Some? ==> targetbl.value in c.graph.list)
    modifies c`facts, c`made, c.graph
    ensures c.Valid() && NoLarger(c.S(), old(c.S())) && Settled(c.S()) &&
              isolatedCount == CountIsolated(c.S(), |c.graph.list|)
    ensures old(c.made) <= c.made && Recorded(c.made, c.first, |c.graph.ins|)
  {
    hide Recorded, Sound, Narrow, AllStuck, NoLarger, CountIsolated, Size, Switches, UnmarkedEdges, NoGotos;
    ghost var s := c.S();
    ValidSound(c);
    NoLargerSame(s);
    var target := targetbl;
    var fullchange := true;
    isolatedCount := 0;
    while fullchange
      invariant c.Valid() && old(c.made) <= c.made && Sound(c.S()) && NoLarger(c.S(), s) &&
                  (target.Some? ==> target.value in c.graph.list)
      invariant !fullchange ==> Settled(c.S()) && isolatedCount == CountIsolated(c.S(), |c.graph.list|)
      decreases Size(c.S()), Switches(c.S()), UnmarkedEdges(c.S()), if fullchange then 1 else 0
    {
      ghost var t := c.S();
      isolatedCount := Settle(c, target);
      target := None;
      ValidSound(c);
      StuckNoGotos(c.S());
      ghost var u := c.S();
      fullchange := LastRules(c);
      ValidSound(c);
      Both(c.S(), u, t, s, fullchange);
    }
  }

  lemma Both(v: Shape, u: Shape, t: Shape, s: Shape, changed: bool)
    requires Sound(v) && NoLarger(u, t) && NoLarger(t, s) && Sound(u) && if changed then Smaller(v, u) else v == u
    ensures NoLarger(v, s) && Sound(t)
    ensures v == t || Smaller(v, t)
    ensures changed ==> Smaller(v, t)
  {
    SmallerTransitive(v, u, t);
    SmallerTransitive(v, t, s);
  }

  // ---------- collapseAll ----------

  /** collapseConditions: ruleBlockOr until it applies nowhere. */
  method CollapseConditions(c: CollapseStructure)
    requires c.Valid()
    modifies c`facts, c`made, c.graph
    ensures c.Valid() && old(c.made) <= c.made && NoLarger(c.S(), old(c.S())) && forall b: nat :: b in c.graph.list ==>
              !OrFits(c.S(), b)
  {
    hide Recorded, Sound, Narrow, NoLarger, Size, Switches, UnmarkedEdges, OrFits, OrBuilt;
    ghost var s := c.S();
    ValidSound(c);
    NoLargerSame(s);
    var change := true;
    while change
      invariant c.Valid() && old(c.made) <= c.made && Sound(c.S()) && NoLarger(c.S(), s)
      invariant !change ==> forall b: nat :: b in c.graph.list ==> !OrFits(c.S(), b)
      decreases Size(c.S()), Switches(c.S()), UnmarkedEdges(c.S()), if change then 1 else 0
    {
      ghost var t := c.S();
      change := ConditionsPass(c);
      Then(c.S(), t, s);
      Down(c.S(), t);
    }
  }

  method ConditionsPass(c: CollapseStructure) returns (change: bool)
    requires c.Valid()
    modifies c`facts, c`made, c.graph
    ensures c.Valid() && old(c.made) <= c.made && NoLarger(c.S(), old(c.S())) && Sound(old(c.S())) && Sound(c.S())
    ensures if change then Smaller(c.S(), old(c.S())) else c.S() == old(c.S()) && forall b: nat :: b in c.graph.list ==>
              !OrFits(c.S(), b)
  {
    hide Recorded, Sound, Narrow, NoLarger, Size, Switches, UnmarkedEdges, OrFits, OrBuilt;
    ghost var s := c.S();
    ValidSound(c);
    NoLargerSame(s);
    change := false;
    var i: nat := 0;
    while i < |c.graph.list|
      invariant c.Valid() && old(c.made) <= c.made && Sound(c.S()) && NoLarger(c.S(), s) &&
                  (i <= |c.graph.list| || change)
      invariant if change then Smaller(c.S(), s) else c.S() == s && forall j :: 0 <= j < i ==> !OrFits(s, s.list[j])
      decreases Size(c.S()), Switches(c.S()), UnmarkedEdges(c.S()), |c.graph.list| - i
    {
      ghost var t := c.S();
      var res := RuleBlockOr(c, c.graph.list[i]);
      ValidSound(c);
      StepDown(c.S(), t, s, res);
      if res { change := true; }
      i := i + 1;
    }
  }

  /** What selectGoto comes up with, given any way of choosing: no edge, so that it throws; one edge, as found by the
      loop and DAG traces; or the edges out of the blocks that only an extra root reaches. */
  datatype Pick = Nothing | Branch(b: nat, k: nat) | Exits(edges: seq<(nat, nat)>)

  datatype Selected = Thrown | Target(bl: Option<nat>)

  /** Marks the edges picked. An edge that does not exist is an error. */
  method SelectGoto(c: CollapseStructure, pick: Pick) returns (r: Selected)
    requires c.Valid() && NoGotos(c.S())
    modifies c`facts, c.graph`ins, c.graph`outs
    ensures c.Valid() && NoLarger(c.S(), old(c.S())) && Sound(old(c.S())) && Sound(c.S())
    ensures r.Target? ==> Smaller(c.S(), old(c.S())) && (r.bl.Some? ==> r.bl.value in c.graph.list)
  {
    hide Sound, Narrow, NoLarger, Size, Switches, UnmarkedEdges, Marked;
    ghost var s := c.S();
    ValidSound(c);
    NoLargerSame(s);
    match pick
    case Nothing => return Thrown;
    case Branch(b, k) =>
      if b !in c.graph.list || b >= |c.graph.outs| || k >= |c.graph.outs[b]| { return Thrown; }
      c.SetGotoBranch(b, k);
      MarkedSmaller(s, c.S(), b, k);
      return Target(Some(b));
    case Exits(edges) =>
      if edges == [] { return Thrown; }
      var i := 0;
      while i < |edges|
        invariant i <= |edges| && c.Valid() && Sound(c.S()) && NoLarger(c.S(), s) && (i == 0 ==> c.S() == s)
        invariant i > 0 ==> Smaller(c.S(), s)
      {
        var (b, k) := edges[i];
        if b !in c.graph.list || b >= |c.graph.outs| || k >= |c.graph.outs[b]| { return Thrown; }
        ghost var m := c.S();
        c.SetGotoBranch(b, k);
        if i == 0 { MarkedSmaller(s, c.S(), b, k); } else { MarkedAgain(s, m, c.S(), b, k); }
        i := i + 1;
      }
      return Target(None);
  }

  lemma MarkedSmaller(s: Shape, t: Shape, b: nat, k: nat)
    requires Marked(s, t, b, k) && NoGotos(s) && b in s.list
    ensures Sound(s) && Sound(t) && Smaller(t, s) && NoLarger(t, s) && t.list == s.list
  {
    assert !Goto(s.g.outs[b][k]);
  }

  lemma MarkedAgain(s: Shape, m: Shape, t: Shape, b: nat, k: nat)
    requires Sound(s) && Sound(m) && Smaller(m, s) && Marked(m, t, b, k)
    ensures Sound(t) && Smaller(t, s) && NoLarger(t, s)
  {
    hide Sound, Size, Switches, UnmarkedEdges;
  }

  lemma {:induction false} AllIsolated(s: Shape, n: nat)
    requires n <= |s.list|
    ensures CountIsolated(s, n) <= n
    ensures CountIsolated(s, n) == n <==> forall i :: 0 <= i < n ==> Isolated(s, s.list[i])
  {
    if n > 0 { AllIsolated(s, n - 1); }
  }

  lemma SettledNoGotos(s: Shape)
    requires Sound(s) && Narrow(s) && Settled(s)
    ensures NoGotos(s)
  {
    StuckNoGotos(s);
  }

  /** collapseAll ends, whichever edges are picked. Unless no edge could be picked, every block is isolated then. */
  method CollapseAll(c: CollapseStructure, picks: nat -> Pick) returns (done: bool)
    requires c.Valid()
    modifies c`facts, c`made, c.graph
    ensures c.Valid() && NoLarger(c.S(), old(c.S()))
    ensures old(c.made) <= c.made && Recorded(c.made, c.first, |c.graph.ins|)
    ensures done ==> forall b: nat :: b in c.graph.list ==> Isolated(c.S(), b)
  {
    hide Recorded, Sound, Narrow, NoLarger, Size, Switches, UnmarkedEdges, Settled, CountIsolated, Isolated, OrFits,
      NoGotos;
    ghost var s := c.S();
    CollapseConditions(c);
    ghost var t := c.S();
    var isolatedCount := CollapseInternal(c, None);
    ValidSound(c);
    Then(c.S(), t, s);
    var n := 0;
    while isolatedCount < |c.graph.list|
      invariant c.Valid() && old(c.made) <= c.made && Sound(c.S()) && NoLarger(c.S(), s) && Settled(c.S()) &&
                  isolatedCount == CountIsolated(c.S(), |c.graph.list|)
      decreases Size(c.S()), Switches(c.S()), UnmarkedEdges(c.S())
    {
      t := c.S();
      ValidSound(c);
      SettledNoGotos(t);
      var r := SelectGoto(c, picks(n));
      ghost var u := c.S();
      Then(u, t, s);
      if r.Thrown? { return false; }
      isolatedCount := CollapseInternal(c, r.bl);
      ValidSound(c);
      Then(c.S(), u, t);
      Then(c.S(), t, s);
      n := n + 1;
    }
    AllIsolated(c.S(), |c.graph.list|);
    return true;
  }
}
