/** ruleBlockSwitch and ruleCaseFallthru. */
module SwitchRules {

  import opened Wrappers
  import opened Flow
  import opened Quotient
  import opened Identify
  import opened Shapes
  import opened Structuring
  import opened CollapseRules

  ghost predicate IsSwitch(s: Shape, b: nat) {
    b < |s.facts| && s.facts[b].switchOut
  }

  // ---------- the exit of a switch ----------

  /** Way out i of the switch leads back to it, or to a block with other ways in or several ways out. */
  ghost predicate Obvious(s: Shape, b: nat, i: nat)
    requires OutSlot(s.g, b, i)
  {
    var cur := To(s, b, i);
    cur == b || (cur < |s.g.outs| && |s.g.outs[cur]| > 1) || (cur < |s.g.ins| && |s.g.ins[cur]| > 1)
  }

  ghost function FirstObvious(s: Shape, b: nat, i: nat): (n: nat)
    requires b < |s.g.outs| && i <= |s.g.outs[b]|
    ensures i <= n <= |s.g.outs[b]|
    decreases |s.g.outs[b]| - i
  {
    if i == |s.g.outs[b]| || Obvious(s, b, i) then i else FirstObvious(s, b, i + 1)
  }

  ghost predicate Falls(s: Shape, b: nat, i: nat)
    requires OutSlot(s.g, b, i)
  {
    HasOut(s, To(s, b, i), 1)
  }

  /** The first way out, from i on, that leads to a block with one way out. */
  ghost function FirstFall(s: Shape, b: nat, i: nat): (n: nat)
    requires b < |s.g.outs| && i <= |s.g.outs[b]|
    ensures i <= n <= |s.g.outs[b]| && (n < |s.g.outs[b]| ==> Falls(s, b, n))
    decreases |s.g.outs[b]| - i
  {
    if i == |s.g.outs[b]| || Falls(s, b, i) then i else FirstFall(s, b, i + 1)
  }

  lemma {:induction false} FirstFallIs(s: Shape, b: nat, i: nat, n: nat)
    requires b < |s.g.outs| && i <= n <= |s.g.outs[b]| && (forall j: nat :: i <= j < n ==> !Falls(s, b, j))
    requires n == |s.g.outs[b]| || Falls(s, b, n)
    ensures FirstFall(s, b, i) == n
    decreases n - i
  {
    if i < n { FirstFallIs(s, b, i + 1, n); }
  }

  lemma {:induction false} FirstObviousIs(s: Shape, b: nat, i: nat, n: nat)
    requires b < |s.g.outs| && i <= n <= |s.g.outs[b]| && (forall j: nat :: i <= j < n ==> !Obvious(s, b, j))
    requires n == |s.g.outs[b]| || Obvious(s, b, n)
    ensures FirstObvious(s, b, i) == n
    decreases n - i
  {
    if i < n { FirstObviousIs(s, b, i + 1, n); }
  }

  /** The switch has an obvious exit. */
  ghost predicate Certain(s: Shape, b: nat)
    requires b < |s.g.outs|
  {
    FirstObvious(s, b, 0) < |s.g.outs[b]|
  }

  /** The block all cases lead to, as far as they lead anywhere. */
  ghost function ExitOf(s: Shape, b: nat): Option<nat>
    requires b < |s.g.outs|
  {
    var i, j := FirstObvious(s, b, 0), FirstFall(s, b, 0);
    if i < |s.g.outs[b]| then Some(To(s, b, i))
    else if j < |s.g.outs[b]| then Some(To(s, To(s, b, j), 0))
    else None
  }

  /** A case: only the switch enters it, and it ends or leads to the exit. */
  ghost predicate CaseFits(s: Shape, cur: nat, exit: Option<nat>) {
    && OneIn(s, cur) && !Goto(s.g.ins[cur][0]) && Plain(s, cur)
    && (HasOut(s, cur, 0) || (HasOut(s, cur, 1) && !Goto(s.g.outs[cur][0]) && exit == Some(To(s, cur, 0))))
  }

  ghost predicate NoGotosAround(s: Shape, e: nat) {
    && (forall k: nat :: InSlot(s.g, e, k) ==> !Goto(s.g.ins[e][k]))
    && forall k: nat :: OutSlot(s.g, e, k) ==> !Goto(s.g.outs[e][k])
  }

  ghost predicate CasesFit(s: Shape, b: nat)
    requires b < |s.g.outs|
  {
    && (Certain(s, b) ==> NoGotosAround(s, ExitOf(s, b).value))
    && forall i: nat :: i < |s.g.outs[b]| ==>
       (Certain(s, b) && ExitOf(s, b) == Some(To(s, b, i))) || CaseFits(s, To(s, b, i), ExitOf(s, b))
  }

  ghost predicate SwitchFits(s: Shape, b: nat) {
    IsSwitch(s, b) && b < |s.g.outs| && CasesFit(s, b)
  }

  method FindObvious(c: CollapseStructure, bl: nat) returns (i: nat)
    requires c.Valid() && bl in c.graph.list
    ensures bl < |c.graph.outs| && i == FirstObvious(c.S(), bl, 0)
  {
    hide Sound, Narrow;
    ValidSound(c);
    ListedSizes(c.S(), bl);
    i := 0;
    while i < |c.graph.outs[bl]|
      invariant i <= |c.graph.outs[bl]| && forall j: nat :: j < i ==> !Obvious(c.S(), bl, j)
    {
      PointListed(c.S(), bl, i);
      var curbl := c.graph.outs[bl][i].point;
      if curbl == bl || |c.graph.outs[curbl]| > 1 || |c.graph.ins[curbl]| > 1 { break; }
      i := i + 1;
    }
    FirstObviousIs(c.S(), bl, 0, i);
  }

  /** A block an edge leads to has a way in. */
  lemma Entered(s: Shape, b: nat, i: nat)
    requires Sound(s) && b in s.list && OutSlot(s.g, b, i)
    ensures To(s, b, i) < |s.g.ins| && |s.g.ins[To(s, b, i)]| > 0
  {
    assert OutPaired(s.g, b, i);
  }

  /** No way out is obvious: the exit is where the first case with a way out leads, and all others must lead there. */
  method CasesWithoutExit(c: CollapseStructure, bl: nat) returns (ok: bool, exit: Option<nat>)
    requires c.Valid() && bl in c.graph.list && bl < |c.graph.outs| && !Certain(c.S(), bl)
    ensures ok <==> CasesFit(c.S(), bl)
    ensures ok ==> exit == ExitOf(c.S(), bl)
  {
    hide Sound, Narrow;
    ghost var s := c.S();
    ValidSound(c);
    exit := None;
    var i := 0;
    while i < |c.graph.outs[bl]|
      invariant i <= |c.graph.outs[bl]| && forall j: nat :: j < i ==> CaseFits(s, To(s, bl, j), exit)
      invariant exit.None? ==> forall j: nat :: j < i ==> !Falls(s, bl, j)
      invariant exit.Some? ==> FirstFall(s, bl, 0) < i && exit == Some(To(s, To(s, bl, FirstFall(s, bl, 0)), 0))
    {
      PointListed(s, bl, i);
      Entered(s, bl, i);
      NotObvious(s, bl, i);
      var curbl := c.graph.outs[bl][i].point;
      if Goto(c.graph.ins[curbl][0]) { return false, exit; }
      if c.facts[curbl].switchOut { return false, exit; }
      if |c.graph.outs[curbl]| == 1 {
        if Goto(c.graph.outs[curbl][0]) { return false, exit; }
        if exit.Some? {
          if exit != Some(c.graph.outs[curbl][0].point) { return false, exit; }
        } else {
          exit := Some(c.graph.outs[curbl][0].point);
          FirstFallIs(s, bl, 0, i);
        }
      }
      i := i + 1;
    }
    if exit.None? { FirstFallIs(s, bl, 0, i); }
    return true, exit;
  }

  lemma {:induction false} NotObvious(s: Shape, b: nat, i: nat)
    requires b < |s.g.outs| && i < |s.g.outs[b]| && !Certain(s, b)
    ensures !Obvious(s, b, i)
  {
    NotObviousFrom(s, b, 0, i);
  }

  lemma {:induction false} NotObviousFrom(s: Shape, b: nat, k: nat, i: nat)
    requires b < |s.g.outs| && k <= i < |s.g.outs[b]| && FirstObvious(s, b, k) == |s.g.outs[b]|
    ensures !Obvious(s, b, i)
    decreases i - k
  {
    if k < i { NotObviousFrom(s, b, k + 1, i); }
  }

  /** No edge into or out of the block is a goto. */
  method GotosAround(c: CollapseStructure, e: nat) returns (ok: bool)
    requires e < |c.graph.ins| && e < |c.graph.outs|
    ensures ok <==> NoGotosAround(c.S(), e)
  {
    var i := 0;
    while i < |c.graph.ins[e]|
      invariant i <= |c.graph.ins[e]| && forall k :: 0 <= k < i ==> !Goto(c.graph.ins[e][k])
    {
      if Goto(c.graph.ins[e][i]) {
        assert InSlot(c.S().g, e, i);
        return false;
      }
      i := i + 1;
    }
    i := 0;
    while i < |c.graph.outs[e]|
      invariant i <= |c.graph.outs[e]| && forall k :: 0 <= k < i ==> !Goto(c.graph.outs[e][k])
    {
      if Goto(c.graph.outs[e][i]) {
        assert OutSlot(c.S().g, e, i);
        return false;
      }
      i := i + 1;
    }
    return true;
  }

  method CasesWithExit(c: CollapseStructure, bl: nat, exitblock: nat) returns (ok: bool)
    requires c.Valid() && bl in c.graph.list && bl < |c.graph.outs| && Certain(c.S(), bl) &&
               ExitOf(c.S(), bl) == Some(exitblock)
    ensures ok <==> CasesFit(c.S(), bl)
  {
    hide Sound, Narrow, Obvious, NoGotosAround;
    ghost var s := c.S();
    ValidSound(c);
    PointListed(s, bl, FirstObvious(s, bl, 0));
    var clear := GotosAround(c, exitblock);
    if !clear { return false; }
    var i := 0;
    while i < |c.graph.outs[bl]|
      invariant i <= |c.graph.outs[bl]|
      invariant forall j: nat :: j < i ==> exitblock == To(s, bl, j) || CaseFits(s, To(s, bl, j), Some(exitblock))
    {
      PointListed(s, bl, i);
      Entered(s, bl, i);
      var curbl := c.graph.outs[bl][i].point;
      if curbl != exitblock {
        if |c.graph.ins[curbl]| > 1 { return false; }
        if Goto(c.graph.ins[curbl][0]) { return false; }
        if |c.graph.outs[curbl]| > 1 { return false; }
        if |c.graph.outs[curbl]| == 1 {
          if Goto(c.graph.outs[curbl][0]) { return false; }
          if c.graph.outs[curbl][0].point != exitblock { return false; }
        }
        if c.facts[curbl].switchOut { return false; }
      }
      i := i + 1;
    }
    return true;
  }

  method CheckCases(c: CollapseStructure, bl: nat) returns (ok: bool, exit: Option<nat>)
    requires c.Valid() && bl in c.graph.list && IsSwitch(c.S(), bl)
    ensures (ok <==> SwitchFits(c.S(), bl)) && (ok ==> exit == ExitOf(c.S(), bl))
  {
    hide Sound, Narrow, CasesFit;
    var i := FindObvious(c, bl);
    if i < |c.graph.outs[bl]| {
      exit := Some(c.graph.outs[bl][i].point);
      ok := CasesWithExit(c, bl, exit.value);
    } else {
      ok, exit := CasesWithoutExit(c, bl);
    }
  }

  // ---------- collapsing the switch ----------

  ghost predicate AreCases(s: Shape, b: nat, exit: Option<nat>, cases: seq<nat>) {
    && b < |s.g.outs| && |cases| > 0 && cases[0] == b
    && forall n: nat :: n in cases <==> n == b || (exit != Some(n) && Leads(s.g.outs[b], n))
  }

  method GatherCases(c: CollapseStructure, bl: nat, exit: Option<nat>) returns (cases: seq<nat>)
    requires c.Valid() && bl in c.graph.list
    ensures AreCases(c.S(), bl, exit, cases)
  {
    ListedSizes(c.S(), bl);
    cases := [bl];
    var i := 0;
    while i < |c.graph.outs[bl]|
      invariant i <= |c.graph.outs[bl]| && |cases| > 0 && cases[0] == bl
      invariant forall n: nat :: n in cases <==>
                  n == bl || (exit != Some(n) && exists j :: 0 <= j < i && c.graph.outs[bl][j].point == n)
    {
      var curbl := c.graph.outs[bl][i].point;
      if Some(curbl) != exit { cases := cases + [curbl]; }
      i := i + 1;
    }
  }

  ghost function ExitList(exit: Option<nat>): seq<nat> {
    if exit.Some? then [exit.value] else []
  }

  /** All edges of the cases lead to cases or to the exit. */
  lemma CaseEnds(s: Shape, b: nat, cases: seq<nat>)
    requires Sound(s) && b in s.list && SwitchFits(s, b) && AreCases(s, b, ExitOf(s, b), cases)
    ensures EndsIn(s, cases, ExitList(ExitOf(s, b))) && (forall n :: n in cases ==> n in s.list)
    ensures ExitOf(s, b).Some? ==> |s.g.outs[b]| >= 1
  {
    var exit := ExitOf(s, b);
    forall n: nat, j: nat | n in cases && OutSlot(s.g, n, j)
      ensures s.g.outs[n][j].point in cases || s.g.outs[n][j].point in ExitList(exit)
    {
      if n == b {
        SlotLeads(s.g.outs[b], j);
      } else {
        var i: nat :| i < |s.g.outs[b]| && s.g.outs[b][i].point == n;
        assert CaseFits(s, To(s, b, i), exit);
      }
    }
    forall n: nat | n in cases ensures n in s.list {
      if n != b {
        var i: nat :| i < |s.g.outs[b]| && s.g.outs[b][i].point == n;
        PointListed(s, b, i);
      }
    }
  }

  /** Each case is entered only from the switch. */
  lemma CaseEntry(s: Shape, b: nat, cases: seq<nat>)
    requires Sound(s) && b in s.list && SwitchFits(s, b) && AreCases(s, b, ExitOf(s, b), cases)
    requires forall k: nat :: OutSlot(s.g, b, k) ==> !Goto(s.g.outs[b][k])
    ensures SingleEntry(s, cases)
  {
    assert b in cases;
    forall n: nat | n in cases && n != cases[0] ensures EnteredWithin(s, cases, n) {
      var i: nat :| i < |s.g.outs[b]| && s.g.outs[b][i].point == n;
      assert CaseFits(s, To(s, b, i), ExitOf(s, b)) && OutSlot(s.g, b, i);
      EnteredFrom(s, b, i, cases);
    }
    EntryIsFirst(s, cases);
  }

  /** The cases and the switch became one block, which is no switch and leads to the exit if there is one. */
  ghost predicate SwitchBuilt(s: Shape, m: Shape, t: Shape, b: nat, cases: seq<nat>) {
    && SwitchFits(s, b) && AreCases(s, b, ExitOf(s, b), cases)
    && Super(s, m, Members(cases), |ExitList(ExitOf(s, b))|)
    && t.g == m.g && t.list == m.list && |t.facts| == |m.facts| == |s.g.ins| + 1
    && t.facts == m.facts[|s.g.ins| := m.facts[|s.g.ins|].(switchOut := false)]
    && HasOut(t, |s.g.ins|, |ExitList(ExitOf(s, b))|) && SingleEntry(s, cases) && Labelled(s, m, cases)
  }

  lemma SwitchDown(s: Shape, m: Shape, t: Shape, b: nat, cases: seq<nat>)
    requires Sound(s) && Narrow(s) && b in s.list && SwitchFits(s, b) && AreCases(s, b, ExitOf(s, b), cases)
    requires Super(s, m, Members(cases), |ExitList(ExitOf(s, b))|) && t.g == m.g && t.list == m.list &&
               |m.facts| == |s.g.ins| + 1
    requires t.facts == m.facts[|s.g.ins| := m.facts[|s.g.ins|].(switchOut := false)] && SingleEntry(s, cases) &&
               Labelled(s, m, cases)
    ensures Sound(t) && Narrow(t) && Smaller(t, s) && SwitchBuilt(s, m, t, b, cases)
  {
    hide Without, Inherits, CasesFit, SuperGraph, SingleEntry, Labelled;
    var exit := ExitOf(s, b);
    var k := |ExitList(exit)|;
    CaseEnds(s, b, cases);
    EndsOuter(s, cases, ExitList(exit));
    MembersOf(cases);
    SizesOf(s);
    SuperFacts(s, m, Members(cases), k);
    SuperFits(s, m, Members(cases), k, ExitList(exit));
    SuperList(s, Members(cases));
    SoundWith(m, t);
    SwitchSteps(s, t, b, Members(cases));
  }

  lemma SoundWith(m: Shape, t: Shape)
    requires Sound(m) && t.g == m.g && t.list == m.list && |t.facts| == |m.facts|
    ensures Sound(t)
  {
  }

  lemma SwitchSteps(s: Shape, t: Shape, b: nat, comp: set<nat>)
    requires Sound(s) && Narrow(s) && Sound(t) && comp <= Members(s.list) && b in comp &&
               |t.g.outs| == |s.g.outs| + 1 == |t.facts|
    requires b < |s.g.outs| == |s.g.ins| && t.list == Without(s.list, comp) + [|s.g.ins|]
    requires forall y: nat :: y in t.list ==> (y in s.list && y !in comp) || y == |s.g.outs|
    requires forall y: nat :: y in s.list && y !in comp ==> |t.g.outs[y]| <= |s.g.outs[y]| && t.facts[y] == s.facts[y]
    requires |t.g.outs[|s.g.ins|]| <= |s.g.outs[b]| && |t.g.outs[|s.g.ins|]| <= 1 && s.facts[b].switchOut &&
               !t.facts[|s.g.ins|].switchOut
    ensures Narrow(t) && Smaller(t, s)
  {
    hide Without, Sound;
    SizesOf(s);
    NarrowKept(s, t, comp);
    MergeSize(s, t, comp, b);
    MergeSwitches(s, t, comp, b);
  }

  /** newBlockSwitch */
  method NewBlockSwitch(c: CollapseStructure, bl: nat, cases: seq<nat>, exit: Option<nat>) returns (ghost m: Shape)
    requires c.Valid() && bl in c.graph.list && SwitchFits(c.S(), bl) && exit == ExitOf(c.S(), bl) &&
               AreCases(c.S(), bl, exit, cases)
    requires forall k: nat :: OutSlot(c.S().g, bl, k) ==> !Goto(c.graph.outs[bl][k])
    modifies c`facts, c`made, c.graph
    ensures c.Valid() && old(c.made) <= c.made && Smaller(c.S(), old(c.S())) &&
              SwitchBuilt(old(c.S()), m, c.S(), bl, cases)
  {
    hide Sound, Narrow, Super, CasesFit, Members, EndsIn, SingleEntry, Labelled, Recorded;
    ghost var s := c.S();
    ValidSound(c);
    CaseEnds(s, bl, cases);
    CaseEntry(s, bl, cases);
    SizesOf(s);
    var ret := c.NewSuper(cases, if exit.Some? then 1 else 0, false, true);
    m := c.S();
    SuperSizes(s, m, Members(cases), |ExitList(exit)|);
    c.facts := c.facts[ret := c.facts[ret].(switchOut := false)];
    SwitchDown(s, m, c.S(), bl, cases);
  }

  lemma SuperSizes(s: Shape, m: Shape, comp: set<nat>, k: nat)
    requires Super(s, m, comp, k)
    ensures |m.facts| == |s.g.ins| + 1
  {
  }

  // ---------- edges that skip the cases ----------

  predicate IsDefault(e: Edge) {
    DefaultSwitch in e.flags
  }

  /** Way out i goes straight to the exit and is not the default. */
  ghost predicate Skips(s: Shape, b: nat, exit: Option<nat>, i: nat) {
    OutSlot(s.g, b, i) && exit == Some(To(s, b, i)) && !IsDefault(s.g.outs[b][i])
  }

  /** Some edges skip to the exit although the default goes elsewhere. */
  ghost predicate SkipsToMark(s: Shape, b: nat, exit: Option<nat>) {
    && (exists i: nat :: Skips(s, b, exit, i))
    && ((exists i: nat :: OutSlot(s.g, b, i) && exit != Some(To(s, b, i)) && IsDefault(s.g.outs[b][i]))
        || (b < |s.facts| && s.facts[b].multiGoto && s.facts[b].defaultGoto))
  }

  /** Just the first n of the edges that skip are marked goto. */
  ghost predicate SkipsMarked(s: Shape, t: Shape, b: nat, exit: Option<nat>, n: nat) {
    && t.list == s.list && SameDegrees(s.g, t.g)
    && (forall y: nat, j: nat :: OutSlot(s.g, y, j) ==>
          t.g.outs[y][j].point == s.g.outs[y][j].point &&
              (!(y == b && j < n && Skips(s, b, exit, j)) ==> t.g.outs[y][j] == s.g.outs[y][j]))
    && forall j: nat :: j < n && Skips(s, b, exit, j) ==> GotoEdge in t.g.outs[b][j].flags
  }

  method AnySkips(c: CollapseStructure, bl: nat, exitblock: nat) returns (anyskiptoexit: bool, defaultnottoexit: bool)
    requires bl < |c.graph.outs|
    ensures anyskiptoexit <==> exists i: nat :: Skips(c.S(), bl, Some(exitblock), i)
    ensures defaultnottoexit <==>
              exists i: nat :: OutSlot(c.S().g, bl, i) && Some(exitblock) != Some(To(c.S(), bl, i)) &&
                IsDefault(c.graph.outs[bl][i])
  {
    anyskiptoexit, defaultnottoexit := false, false;
    var edgenum := 0;
    while edgenum < |c.graph.outs[bl]|
      invariant edgenum <= |c.graph.outs[bl]|
      invariant anyskiptoexit <==> exists i: nat :: i < edgenum && Skips(c.S(), bl, Some(exitblock), i)
      invariant defaultnottoexit <==>
                  exists i: nat :: i < edgenum && OutSlot(c.S().g, bl, i) && exitblock != To(c.S(), bl, i) &&
                    IsDefault(c.graph.outs[bl][i])
    {
      var e := c.graph.outs[bl][edgenum];
      assert Skips(c.S(), bl, Some(exitblock), edgenum) <==> e.point == exitblock && !IsDefault(e);
      if e.point == exitblock {
        if !IsDefault(e) { anyskiptoexit := true; }
      } else {
        if IsDefault(e) { defaultnottoexit := true; }
      }
      edgenum := edgenum + 1;
    }
  }

  /** checkSwitchSkips: whether there are no edges to mark; if there are, they are marked. */
  method CheckSwitchSkips(c: CollapseStructure, bl: nat, exit: Option<nat>) returns (none: bool)
    requires c.Valid() && bl in c.graph.list && bl < |c.graph.outs| && bl < |c.facts|
    requires forall k: nat :: OutSlot(c.S().g, bl, k) ==> GotoEdge !in c.graph.outs[bl][k].flags
    modifies c`facts, c.graph`ins, c.graph`outs
    ensures c.Valid() && (none <==> !SkipsToMark(old(c.S()), bl, exit))
    ensures if none then c.S() == old(c.S())
            else Smaller(c.S(), old(c.S())) && SkipsMarked(old(c.S()), c.S(), bl, exit, |old(c.graph.outs[bl])|)
  {
    hide Sound, Narrow, SkipsMarked, Smaller;
    ghost var s := c.S();
    ValidSound(c);
    if exit.None? { return true; }
    var anyskiptoexit, defaultnottoexit := AnySkips(c, bl, exit.value);
    if !anyskiptoexit { return true; }
    if !defaultnottoexit && c.facts[bl].multiGoto && c.facts[bl].defaultGoto {
      defaultnottoexit := true;
    }
    if !defaultnottoexit { return true; }
    MarkSkips(c, bl, exit);
    return false;
  }

  method MarkSkips(c: CollapseStructure, bl: nat, exit: Option<nat>)
    requires c.Valid() && bl in c.graph.list && bl < |c.graph.outs|
    requires forall k: nat :: OutSlot(c.S().g, bl, k) ==> GotoEdge !in c.graph.outs[bl][k].flags
    requires exists i: nat :: Skips(c.S(), bl, exit, i)
    modifies c`facts, c.graph`ins, c.graph`outs
    ensures c.Valid() && Smaller(c.S(), old(c.S())) && SkipsMarked(old(c.S()), c.S(), bl, exit, |old(c.graph.outs[bl])|)
  {
    hide Sound, Narrow, SkipsMarked, Marked, Size, Switches, UnmarkedEdges;
    ghost var s := c.S();
    ghost var first: nat :| Skips(s, bl, exit, first);
    ValidSound(c);
    SkipsNone(s, bl, exit);
    var edgenum := 0;
    while edgenum < |c.graph.outs[bl]|
      invariant bl < |c.graph.outs| && |c.graph.outs[bl]| == |s.g.outs[bl]| && edgenum <= |s.g.outs[bl]|
      invariant c.Valid() && Sound(c.S()) && c.graph.list == s.list && SkipsMarked(s, c.S(), bl, exit, edgenum)
      invariant Size(c.S()) == Size(s) && Switches(c.S()) == Switches(s)
      invariant if first < edgenum then UnmarkedEdges(c.S()) < UnmarkedEdges(s)
                  else UnmarkedEdges(c.S()) <= UnmarkedEdges(s)
    {
      ghost var m := c.S();
      EdgeKept(s, m, bl, exit, edgenum);
      var e := c.graph.outs[bl][edgenum];
      if Some(e.point) == exit && !IsDefault(e) {
        c.SetGotoBranch(bl, edgenum);
        MarkedOne(s, m, c.S(), bl, exit, edgenum);
      } else {
        SkipsNext(s, m, bl, exit, edgenum);
      }
      edgenum := edgenum + 1;
    }
  }

  lemma SkipsNone(s: Shape, b: nat, exit: Option<nat>)
    requires b < |s.g.outs|
    ensures SkipsMarked(s, s, b, exit, 0)
  {
  }

  lemma EdgeKept(s: Shape, m: Shape, b: nat, exit: Option<nat>, k: nat)
    requires SkipsMarked(s, m, b, exit, k) && OutSlot(s.g, b, k)
    ensures OutSlot(m.g, b, k) && m.g.outs[b][k] == s.g.outs[b][k]
  {
  }

  lemma SkipsNext(s: Shape, m: Shape, b: nat, exit: Option<nat>, k: nat)
    requires SkipsMarked(s, m, b, exit, k) && !Skips(s, b, exit, k)
    ensures SkipsMarked(s, m, b, exit, k + 1)
  {
  }

  lemma MarkedOne(s: Shape, m: Shape, t: Shape, b: nat, exit: Option<nat>, k: nat)
    requires SkipsMarked(s, m, b, exit, k) && Marked(m, t, b, k) && Skips(s, b, exit, k) &&
               GotoEdge !in s.g.outs[b][k].flags
    ensures Sound(t) && Sound(m) && t.list == s.list && SkipsMarked(s, t, b, exit, k + 1) && SameDegrees(s.g, t.g)
    ensures Size(t) == Size(m) && Switches(t) == Switches(m) && UnmarkedEdges(t) < UnmarkedEdges(m)
  {
    hide Sound, Size, Switches, UnmarkedEdges;
  }

  // ---------- the rule ----------

  ghost predicate SwitchRuleBuilt(s: Shape, m: Shape, t: Shape, b: nat) {
    && SwitchFits(s, b)
    && if SkipsToMark(s, b, ExitOf(s, b)) then SkipsMarked(s, t, b, ExitOf(s, b), |s.g.outs[b]|)
       else exists cases :: SwitchBuilt(s, m, t, b, cases)
  }

  method RuleBlockSwitch(c: CollapseStructure, bl: nat) returns (res: bool, ghost m: Shape)
    requires c.Valid() && bl in c.graph.list && bl < |c.graph.outs|
    requires forall k: nat :: OutSlot(c.S().g, bl, k) ==> !Goto(c.graph.outs[bl][k])
    modifies c`facts, c`made, c.graph
    ensures c.Valid() && old(c.made) <= c.made && (res <==> SwitchFits(old(c.S()), bl))
    ensures if res then Smaller(c.S(), old(c.S())) && SwitchRuleBuilt(old(c.S()), m, c.S(), bl) else c.S() == old(c.S())
  {
    hide Sound, Narrow, Smaller, SkipsMarked, SkipsToMark, SwitchBuilt, CasesFit;
    ghost var s := c.S();
    m := s;
    ValidSound(c);
    ListedSizes(s, bl);
    if !c.facts[bl].switchOut { return false, m; }
    var ok, exitblock := CheckCases(c, bl);
    if !ok { return false, m; }
    var none := CheckSwitchSkips(c, bl, exitblock);
    if !none { return true, m; }
    var cases := GatherCases(c, bl, exitblock);
    m := NewBlockSwitch(c, bl, cases, exitblock);
    return true, m;
  }

  // ---------- cases that fall into the next ----------

  /** Way out i leads to a block that cannot be a case that falls through. */
  ghost predicate NonFallthru(s: Shape, b: nat, i: nat)
    requires OutSlot(s.g, b, i)
  {
    var cur := To(s, b, i);
    (cur < |s.g.ins| && |s.g.ins[cur]| > 2) || (cur < |s.g.outs| && |s.g.outs[cur]| > 1)
  }

  /** Way out i leads to a case whose one way out leads to another case, entered from just the two. */
  ghost predicate Fallthru(s: Shape, b: nat, i: nat)
    requires OutSlot(s.g, b, i)
  {
    var cur := To(s, b, i);
    && !NonFallthru(s, b, i) && HasOut(s, cur, 1)
    && var target, inslot := To(s, cur, 0), s.g.outs[cur][0].rev;
       && target < |s.g.ins| && |s.g.ins[target]| == 2 && target < |s.g.outs| && |s.g.outs[target]| <= 1
       && inslot <= 1 && s.g.ins[target][1 - inslot].point == b
  }

  ghost predicate CaseFallthruFits(s: Shape, b: nat) {
    && IsSwitch(s, b) && b < |s.g.outs|
    && (forall i: nat :: i < |s.g.outs[b]| ==> To(s, b, i) != b)
    && (forall i: nat, j: nat :: i < j < |s.g.outs[b]| ==> !(NonFallthru(s, b, i) && NonFallthru(s, b, j)))
    && exists i: nat :: i < |s.g.outs[b]| && Fallthru(s, b, i)
  }

  method IsFallthru(c: CollapseStructure, bl: nat, i: nat) returns (fall: bool)
    requires c.Valid() && bl in c.graph.list && OutSlot(c.S().g, bl, i) && !NonFallthru(c.S(), bl, i)
    ensures fall <==> Fallthru(c.S(), bl, i)
  {
    PointListed(c.S(), bl, i);
    var curbl := c.graph.outs[bl][i].point;
    if |c.graph.outs[curbl]| != 1 { return false; }
    PointListed(c.S(), curbl, 0);
    var target := c.graph.outs[curbl][0].point;
    if |c.graph.ins[target]| != 2 || |c.graph.outs[target]| > 1 { return false; }
    var inslot := c.graph.outs[curbl][0].rev;
    assert OutPaired(c.S().g, curbl, 0);
    return c.graph.ins[target][1 - inslot].point == bl;
  }

  ghost predicate AreFallthru(s: Shape, b: nat, fallthru: seq<nat>) {
    && b < |s.g.outs|
    && forall f: nat :: f in fallthru <==> exists i: nat :: i < |s.g.outs[b]| && Fallthru(s, b, i) && f == To(s, b, i)
  }

  /** fallthru lists the cases that fall through; it is empty when the rule does not apply. */
  method FindFallthru(c: CollapseStructure, bl: nat) returns (fallthru: seq<nat>)
    requires c.Valid() && bl in c.graph.list && IsSwitch(c.S(), bl)
    ensures fallthru != [] <==> CaseFallthruFits(c.S(), bl)
    ensures fallthru != [] ==> bl < |c.graph.outs|
    ensures fallthru != [] ==> AreFallthru(c.S(), bl, fallthru)
  {
    hide Sound, Narrow, Fallthru;
    ghost var s := c.S();
    ValidSound(c);
    ListedSizes(s, bl);
    fallthru := [];
    var nonfallthru := 0;
    ghost var only: nat := 0;
    var i := 0;
    while i < |c.graph.outs[bl]|
      invariant i <= |c.graph.outs[bl]| && forall j: nat :: j < i ==> To(s, bl, j) != bl
      invariant nonfallthru == 0 || (nonfallthru == 1 && only < i && NonFallthru(s, bl, only))
      invariant forall j: nat :: j < i && NonFallthru(s, bl, j) ==> nonfallthru == 1 && j == only
      invariant forall f: nat :: f in fallthru <==> exists j: nat :: j < i && Fallthru(s, bl, j) && f == To(s, bl, j)
    {
      PointListed(s, bl, i);
      var curbl := c.graph.outs[bl][i].point;
      if curbl == bl { return []; }
      if |c.graph.ins[curbl]| > 2 || |c.graph.outs[curbl]| > 1 {
        FallthruNot(s, bl, i);
        nonfallthru := nonfallthru + 1;
        if nonfallthru > 1 {
          assert only < i && NonFallthru(s, bl, only) && NonFallthru(s, bl, i);
          return [];
        }
        only := i;
      } else {
        var fall := IsFallthru(c, bl, i);
        if fall { fallthru := fallthru + [curbl]; }
      }
      i := i + 1;
    }
    if fallthru != [] {
      assert fallthru[0] in fallthru;
    } else {
      assert forall j: nat :: j < i && Fallthru(s, bl, j) ==> To(s, bl, j) in fallthru;
    }
  }

  lemma FallthruNot(s: Shape, b: nat, i: nat)
    requires OutSlot(s.g, b, i) && NonFallthru(s, b, i)
    ensures !Fallthru(s, b, i)
  {
  }

  /** Just the first way out of each of the given blocks is marked goto. */
  ghost predicate FallsMarked(s: Shape, t: Shape, marked: seq<nat>) {
    && t.list == s.list && SameDegrees(s.g, t.g)
    && forall y: nat, j: nat :: OutSlot(s.g, y, j) ==>
         t.g.outs[y][j].point == s.g.outs[y][j].point &&
         (if j == 0 && y in marked then GotoEdge in t.g.outs[y][j].flags else t.g.outs[y][j] == s.g.outs[y][j])
  }

  lemma FallsOne(s: Shape, m: Shape, t: Shape, marked: seq<nat>, f: nat)
    requires FallsMarked(s, m, marked) && OutSlot(m.g, f, 0) && Marked(m, t, f, 0)
    ensures Sound(t) && Sound(m) && FallsMarked(s, t, marked + [f]) && Size(t) == Size(m) && Switches(t) == Switches(m)
    ensures UnmarkedEdges(t) <= UnmarkedEdges(m)
    ensures OutSlot(s.g, f, 0) && (marked == [] && GotoEdge !in s.g.outs[f][0].flags ==>
              UnmarkedEdges(t) < UnmarkedEdges(m))
  {
    hide Sound, Size, Switches, UnmarkedEdges;
    SizesOf(m);
    SetToGoto(m.g, f, 0);
    forall y: nat, j: nat | OutSlot(s.g, y, j)
      ensures t.g.outs[y][j].point == s.g.outs[y][j].point
      ensures if j == 0 && y in marked + [f] then GotoEdge in t.g.outs[y][j].flags else t.g.outs[y][j] == s.g.outs[y][j]
    {
      assert OutSlot(m.g, y, j) && OutSlot(t.g, y, j);
    }
  }

  lemma SetToGoto(g: Graph, b: nat, k: nat)
    requires |g.ins| == |g.outs| && OutSlot(g, b, k) && OutPaired(g, b, k)
    ensures OutSlot(Relabel(g, b, k, {GotoEdge}, {}), b, k) &&
              GotoEdge in Relabel(g, b, k, {GotoEdge}, {}).outs[b][k].flags
  {
  }

  lemma FallsNone(s: Shape)
    ensures FallsMarked(s, s, [])
  {
  }

  method MarkFalls(c: CollapseStructure, fallthru: seq<nat>)
    requires c.Valid() && fallthru != []
    requires forall f :: f in fallthru ==>
               f in c.graph.list && HasOut(c.S(), f, 1) && GotoEdge !in c.graph.outs[f][0].flags
    modifies c`facts, c.graph`ins, c.graph`outs
    ensures c.Valid() && Smaller(c.S(), old(c.S())) && FallsMarked(old(c.S()), c.S(), fallthru)
  {
    hide Sound, Narrow, FallsMarked, Marked, Size, Switches, UnmarkedEdges;
    ghost var s := c.S();
    ValidSound(c);
    FallsNone(s);
    var i := 0;
    while i < |fallthru|
      invariant i <= |fallthru| && c.Valid() && Sound(c.S()) && c.graph.list == s.list &&
                  FallsMarked(s, c.S(), fallthru[..i])
      invariant Size(c.S()) == Size(s) && Switches(c.S()) == Switches(s)
      invariant if i > 0 then UnmarkedEdges(c.S()) < UnmarkedEdges(s) else UnmarkedEdges(c.S()) <= UnmarkedEdges(s)
    {
      var curbl := fallthru[i];
      assert curbl in fallthru;
      ghost var m := c.S();
      FallsSlot(s, m, fallthru[..i], curbl);
      c.SetGotoBranch(curbl, 0);
      FallsOne(s, m, c.S(), fallthru[..i], curbl);
      assert fallthru[..i + 1] == fallthru[..i] + [curbl];
      FallsList(s, c.S(), fallthru[..i + 1]);
      i := i + 1;
    }
    assert fallthru[..i] == fallthru;
  }

  lemma FallsSlot(s: Shape, m: Shape, marked: seq<nat>, f: nat)
    requires FallsMarked(s, m, marked) && HasOut(s, f, 1)
    ensures OutSlot(m.g, f, 0)
  {
  }

  lemma FallsList(s: Shape, m: Shape, marked: seq<nat>)
    requires FallsMarked(s, m, marked)
    ensures m.list == s.list
  {
  }

  /** The cases that fall through are marked to jump instead. */
  ghost predicate CaseFallthruBuilt(s: Shape, t: Shape, b: nat, fallthru: seq<nat>) {
    CaseFallthruFits(s, b) && FallsMarked(s, t, fallthru) && AreFallthru(s, b, fallthru)
  }

  method RuleCaseFallthru(c: CollapseStructure, bl: nat) returns (res: bool, ghost marked: seq<nat>)
    requires c.Valid() && bl in c.graph.list
    requires forall b: nat, k: nat :: b in c.graph.list && OutSlot(c.S().g, b, k) ==> !Goto(c.graph.outs[b][k])
    modifies c`facts, c.graph`ins, c.graph`outs
    ensures c.Valid() && (res <==> CaseFallthruFits(old(c.S()), bl))
    ensures if res then Smaller(c.S(), old(c.S())) && CaseFallthruBuilt(old(c.S()), c.S(), bl, marked)
              else c.S() == old(c.S())
  {
    hide Sound, Narrow, Smaller, FallsMarked, CaseFallthruFits;
    ghost var s := c.S();
    ValidSound(c);
    ListedSizes(s, bl);
    if !c.facts[bl].switchOut {
      FallthruNeedsSwitch(s, bl);
      return false, [];
    }
    var fallthru := FindFallthru(c, bl);
    if fallthru == [] { return false, []; }
    forall f | f in fallthru ensures f in c.graph.list && HasOut(c.S(), f, 1) && GotoEdge !in c.graph.outs[f][0].flags {
      var i: nat :| i < |c.graph.outs[bl]| && Fallthru(s, bl, i) && f == To(s, bl, i);
      PointListed(s, bl, i);
      assert OutSlot(s.g, f, 0);
    }
    MarkFalls(c, fallthru);
    return true, fallthru;
  }

  lemma FallthruNeedsSwitch(s: Shape, b: nat)
    ensures CaseFallthruFits(s, b) ==> IsSwitch(s, b)
  {
  }
}
