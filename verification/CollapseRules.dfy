/** The ruleBlock methods of CollapseStructure. Each says when it applies, what it builds,
    and that it is a step down. */
module CollapseRules {

  import opened Flow
  import opened Quotient
  import opened Identify
  import opened Shapes
  import opened Structuring

  ghost predicate HasOut(s: Shape, b: nat, n: nat) {
    b < |s.g.outs| && |s.g.outs[b]| == n
  }

  ghost predicate OneIn(s: Shape, b: nat) {
    b < |s.g.ins| && |s.g.ins[b]| == 1
  }

  ghost predicate Plain(s: Shape, b: nat) {
    b < |s.facts| && !s.facts[b].switchOut
  }

  ghost predicate Binary(s: Shape, b: nat) {
    HasOut(s, b, 2) && Plain(s, b)
  }

  ghost predicate NoGotoOut(s: Shape, b: nat)
    requires HasOut(s, b, 2)
  {
    !Goto(s.g.outs[b][0]) && !Goto(s.g.outs[b][1])
  }

  ghost predicate NoSelf(s: Shape, b: nat)
    requires HasOut(s, b, 2)
  {
    s.g.outs[b][0].point != b && s.g.outs[b][1].point != b
  }

  ghost function To(s: Shape, b: nat, k: nat): nat
    requires OutSlot(s.g, b, k)
  {
    s.g.outs[b][k].point
  }

  /** t comes from m, which is s with b perhaps turned, by collapsing the nodes into one block with k ways out. No edge
      leads past the first of the nodes into the others. */
  ghost predicate Built(s: Shape, m: Shape, t: Shape, b: nat, nodes: seq<nat>, k: nat) {
    && Turned(s, m, b) && Super(m, t, Members(nodes), k) && |t.g.outs| == |s.g.outs| + 1 && |t.g.outs[|s.g.outs|]| == k
    && SingleEntry(s, nodes) && Labelled(m, t, nodes)
  }

  /** Just one edge leads to n: it comes from one of the nodes and is no goto. */
  ghost predicate EnteredWithin(s: Shape, nodes: seq<nat>, n: nat) {
    && OneIn(s, n)
    && var e := s.g.ins[n][0];
       e.point in nodes && OutSlot(s.g, e.point, e.rev) && !Goto(s.g.outs[e.point][e.rev])
  }

  lemma EntryIsFirst(s: Shape, nodes: seq<nat>)
    requires Sound(s) && |nodes| > 0 && forall n: nat :: n in nodes && n != nodes[0] ==> EnteredWithin(s, nodes, n)
    ensures SingleEntry(s, nodes)
  {
    forall x: nat, k: nat | OutSlot(s.g, x, k) && s.g.outs[x][k].point in nodes && s.g.outs[x][k].point != nodes[0]
      ensures x in nodes && !Goto(s.g.outs[x][k])
    {
      assert OutPaired(s.g, x, k) && EnteredWithin(s, nodes, s.g.outs[x][k].point);
    }
  }

  lemma OneSource(s: Shape, a: nat, i: nat, b: nat, j: nat)
    requires Sound(s) && OutSlot(s.g, a, i) && OutSlot(s.g, b, j) && To(s, a, i) == To(s, b, j) && OneIn(s, To(s, a, i))
    ensures a == b
  {
    assert OutPaired(s.g, a, i) && OutPaired(s.g, b, j);
  }

  lemma EnteredFrom(s: Shape, b: nat, i: nat, nodes: seq<nat>)
    requires Sound(s) && OutSlot(s.g, b, i) && OneIn(s, To(s, b, i)) && !Goto(s.g.outs[b][i]) && b in nodes
    ensures EnteredWithin(s, nodes, To(s, b, i))
  {
    assert OutPaired(s.g, b, i);
  }

  lemma TurnedEntry(s: Shape, t: Shape, b: nat, nodes: seq<nat>)
    requires Turned(s, t, b) && SingleEntry(s, nodes)
    ensures SingleEntry(t, nodes)
  {
    forall x: nat, k: nat | OutSlot(t.g, x, k) && t.g.outs[x][k].point in nodes && t.g.outs[x][k].point != nodes[0]
      ensures x in nodes && !Goto(t.g.outs[x][k])
    {
      var i: nat := if x == b && t.g.outs[b] != s.g.outs[b] && k < 2 then 1 - k else k;
      assert OutSlot(s.g, x, i) && t.g.outs[x][k] == s.g.outs[x][i];
    }
  }

  lemma TurnedNot(s: Shape, b: nat)
    requires b < |s.g.outs|
    ensures Turned(s, s, b)
  {
  }

  /** A neighbour of a top-level block. */
  lemma PointListed(s: Shape, b: nat, k: nat)
    requires Sound(s) && b in s.list && OutSlot(s.g, b, k)
    ensures To(s, b, k) in s.list && To(s, b, k) < |s.g.ins| == |s.g.outs| == |s.facts|
  {
    MembersOf(s.list);
    SlotLeads(s.g.outs[b], k);
    InsideLeads(s.g.outs[b], Members(s.list), s.g.outs[b][k].point);
  }

  lemma InListed(s: Shape, b: nat, k: nat)
    requires Sound(s) && b in s.list && InSlot(s.g, b, k)
    ensures s.g.ins[b][k].point in s.list && s.g.ins[b][k].point < |s.g.ins| == |s.g.outs| == |s.facts|
    ensures InPaired(s.g, b, k)
  {
    MembersOf(s.list);
    SlotLeads(s.g.ins[b], k);
    InsideLeads(s.g.ins[b], Members(s.list), s.g.ins[b][k].point);
    assert InPaired(s.g, b, k);
  }

  lemma ListedSizes(s: Shape, b: nat)
    requires Sound(s) && b in s.list
    ensures b < |s.g.ins| == |s.g.outs| == |s.facts|
  {
  }

  /** One of the newBlock methods: nodes become a block with k ways out, no more than x has. */
  method BuildBlock(c: CollapseStructure, nodes: seq<nat>, k: nat, complex: bool, ghost s: Shape, ghost turned: nat,
                    ghost x: nat, ghost ends: seq<nat>)
    returns (ret: nat)
    requires c.Valid() && Sound(s) && Turned(s, c.S(), turned) && (forall b :: b in nodes ==> b in c.graph.list)
    requires x in nodes && x < |s.g.outs| && EndsIn(s, nodes, ends) && |ends| <= k <= |s.g.outs[x]| && k <= 2
    requires ((exists y: nat :: y in nodes && y != x) || k < |s.g.outs[x]|) && SingleEntry(s, nodes)
    modifies c`facts, c`made, c.graph
    ensures c.made == old(c.made) + [Composite(old(c.S()), nodes)]
    ensures c.Valid() && ret == |s.g.outs| && Built(s, old(c.S()), c.S(), turned, nodes, k) && ret in c.graph.list
    ensures Size(c.S()) < Size(s) && Smaller(c.S(), s)
  {
    hide Sound, Turned, Narrow, Super, Members, Inside, Size, Switches, UnmarkedEdges, SingleEntry, Labelled, Recorded;
    ghost var m := c.S();
    SizesOf(s);
    SizesOf(m);
    TurnedSizes(s, m, turned);
    TurnedEntry(s, m, turned, nodes);
    ret := c.NewSuper(nodes, k, false, complex);
    MergedDown(s, m, c.S(), turned, nodes, k, x, ends);
    SuperListed(m, c.S(), Members(nodes), k);
  }

  lemma OuterOld(s: Shape, comp: set<nat>, p: nat)
    requires Sound(s) && comp <= Members(s.list) && Outer(s, comp, p)
    ensures p != |s.g.ins|
  {
    GroupInside(s, comp, p);
    MembersOf(s.list);
  }

  /** The one way out of the block built leads to p. */
  ghost predicate LeavesTo(s: Shape, t: Shape, p: nat) {
    HasOut(t, |s.g.outs|, 1) && To(t, |s.g.outs|, 0) == p
  }

  /** A way out of the nodes, if there is just one from the block they became, is that one. */
  lemma OneExit(s: Shape, m: Shape, t: Shape, b: nat, nodes: seq<nat>, x: nat, j: nat)
    requires Built(s, m, t, b, nodes, 1) && x in nodes && OutSlot(s.g, x, j) && To(s, x, j) !in nodes
    ensures LeavesTo(s, t, To(s, x, j))
  {
    hide Paired, Collapsed, SingleEntry, Labelled;
    MembersOf(nodes);
    SuperFacts(m, t, Members(nodes), 1);
    SizesOf(m);
    var p := To(s, x, j);
    var i: nat := if x == b && m.g.outs[b] != s.g.outs[b] && j < 2 then 1 - j else j;
    assert m.g.outs[x][i] == s.g.outs[x][j];
    SlotLeads(m.g.outs[x], i);
    assert Outer(m, Members(nodes), p);
    OuterOld(m, Members(nodes), p);
  }

  lemma SizesOf(s: Shape)
    requires Sound(s)
    ensures |s.g.ins| == |s.g.outs| == |s.facts|
  {
  }

  lemma TurnedSizes(s: Shape, m: Shape, b: nat)
    requires Turned(s, m, b)
    ensures |m.g.ins| == |s.g.ins|
  {
  }

  lemma SuperListed(s: Shape, t: Shape, comp: set<nat>, k: nat)
    requires Super(s, t, comp, k)
    ensures |s.g.ins| in t.list
  {
  }

  /** A block and another that only it enters. */
  lemma PairEntry(s: Shape, b: nat, i: nat)
    requires Sound(s) && OutSlot(s.g, b, i) && OneIn(s, To(s, b, i)) && !Goto(s.g.outs[b][i])
    ensures SingleEntry(s, [b, To(s, b, i)])
  {
    var nodes := [b, To(s, b, i)];
    assert nodes[0] in nodes;
    EnteredFrom(s, b, i, nodes);
    EntryIsFirst(s, nodes);
  }

  // ---------- if ----------

  /** Way out i of b leads to a clause that only b enters, and that only leads where the other way out leads. */
  ghost predicate IfClause(s: Shape, b: nat, i: nat)
    requires HasOut(s, b, 2) && i < 2
  {
    var c := s.g.outs[b][i].point;
    && OneIn(s, c) && HasOut(s, c, 1) && Plain(s, c) && Decision(s.g.outs[b][i]) && !Goto(s.g.outs[c][0])
    && To(s, c, 0) == To(s, b, 1 - i)
  }

  ghost predicate ProperIfFits(s: Shape, b: nat) {
    Binary(s, b) && NoSelf(s, b) && NoGotoOut(s, b) && (IfClause(s, b, 0) || IfClause(s, b, 1))
  }

  /** The first clause that fits, on the true way out of the condition. */
  ghost predicate ProperIfBuilt(s: Shape, m: Shape, t: Shape, b: nat) {
    && ProperIfFits(s, b) && HasOut(m, b, 2)
    && var i := if IfClause(s, b, 0) then 0 else 1;
       To(m, b, 1) == To(s, b, i) && Built(s, m, t, b, [b, To(s, b, i)], 1) && LeavesTo(s, t, To(s, b, 1 - i))
  }

  /** The way out that does not lead to the clause leads to a third block. */
  lemma OtherWay(s: Shape, b: nat, i: nat)
    requires Sound(s) && HasOut(s, b, 2) && i < 2 && NoSelf(s, b) && OneIn(s, To(s, b, i))
    ensures To(s, b, 1 - i) !in [b, To(s, b, i)]
  {
    assert OutPaired(s.g, b, 0) && OutPaired(s.g, b, 1);
  }

  lemma OtherExit(s: Shape, m: Shape, t: Shape, b: nat, c: nat, i: nat)
    requires Built(s, m, t, b, [b, c], 1) && HasOut(s, b, 2) && i < 2 && To(s, b, 1 - i) !in [b, c]
    ensures LeavesTo(s, t, To(s, b, 1 - i))
  {
    hide Built, LeavesTo;
    assert [b, c][0] in [b, c];
    OneExit(s, m, t, b, [b, c], b, 1 - i);
  }

  lemma IfEnds(s: Shape, b: nat, c: nat, i: nat)
    requires HasOut(s, b, 2) && i < 2 && c == To(s, b, i) &&
               (HasOut(s, c, 0) || (HasOut(s, c, 1) && (To(s, c, 0) == To(s, b, 1 - i) || To(s, c, 0) == b)))
    ensures EndsIn(s, [b, c], [To(s, b, 1 - i)])
  {
  }

  lemma IfClauseEnds(s: Shape, b: nat, i: nat)
    requires Sound(s) && HasOut(s, b, 2) && i < 2 && IfClause(s, b, i) && NoSelf(s, b)
    ensures EndsIn(s, [b, To(s, b, i)], [To(s, b, 1 - i)]) && SingleEntry(s, [b, To(s, b, i)])
    ensures To(s, b, 1 - i) !in [b, To(s, b, i)]
  {
    PairEntry(s, b, i);
    OtherWay(s, b, i);
    IfEnds(s, b, To(s, b, i), i);
  }

  /** Neither way out is a goto or leads back; the block is a condition. */
  method IsOpenCondition(c: CollapseStructure, bl: nat) returns (ok: bool)
    requires c.Valid() && bl in c.graph.list
    ensures ok <==> Binary(c.S(), bl) && NoSelf(c.S(), bl) && NoGotoOut(c.S(), bl)
  {
    ListedSizes(c.S(), bl);
    if |c.graph.outs[bl]| != 2 { return false; }
    if c.facts[bl].switchOut { return false; }
    if c.graph.outs[bl][0].point == bl { return false; }
    if c.graph.outs[bl][1].point == bl { return false; }
    if Goto(c.graph.outs[bl][0]) { return false; }
    if Goto(c.graph.outs[bl][1]) { return false; }
    return true;
  }

  method IsIfClause(c: CollapseStructure, bl: nat, i: nat) returns (ok: bool)
    requires c.Valid() && bl in c.graph.list && HasOut(c.S(), bl, 2) && i < 2
    ensures ok <==> IfClause(c.S(), bl, i)
  {
    PointListed(c.S(), bl, i);
    var clauseblock := c.graph.outs[bl][i].point;
    if |c.graph.ins[clauseblock]| != 1 { return false; }
    if |c.graph.outs[clauseblock]| != 1 { return false; }
    if c.facts[clauseblock].switchOut { return false; }
    if !Decision(c.graph.outs[bl][i]) { return false; }
    if Goto(c.graph.outs[clauseblock][0]) { return false; }
    return c.graph.outs[clauseblock][0].point == c.graph.outs[bl][1 - i].point;
  }

  /** Way out i becomes the true one. */
  method Orient(c: CollapseStructure, bl: nat, i: nat)
    requires c.Valid() && bl in c.graph.list && HasOut(c.S(), bl, 2) && i < 2
    modifies c.graph`ins, c.graph`outs
    ensures c.Valid() && Turned(old(c.S()), c.S(), bl) && HasOut(c.S(), bl, 2) &&
              To(c.S(), bl, 1) == old(To(c.S(), bl, i))
  {
    TurnedNot(c.S(), bl);
    if i == 0 { c.NegateCondition(bl); }
  }

  lemma PairOf(b: nat, d: nat)
    requires b != d
    ensures b in [b, d] && d in [b, d] && exists y: nat :: y in [b, d] && y != b
  {
    assert [b, d][0] in [b, d] && [b, d][1] in [b, d];
  }

  /** The condition and its clause, on way out i, become one block with one way out; way out i becomes the true one. */
  method BuildIf(c: CollapseStructure, bl: nat, i: nat) returns (ghost m: Shape)
    requires c.Valid() && bl in c.graph.list && HasOut(c.S(), bl, 2) && i < 2 && NoSelf(c.S(), bl)
    requires EndsIn(c.S(), [bl, To(c.S(), bl, i)], [To(c.S(), bl, 1 - i)]) &&
               SingleEntry(c.S(), [bl, To(c.S(), bl, i)]) && To(c.S(), bl, 1 - i) !in [bl, To(c.S(), bl, i)]
    modifies c`facts, c`made, c.graph
    ensures c.Valid() && old(c.made) <= c.made && Smaller(c.S(), old(c.S())) &&
              Built(old(c.S()), m, c.S(), bl, [bl, old(To(c.S(), bl, i))], 1)
    ensures HasOut(m, bl, 2) && To(m, bl, 1) == old(To(c.S(), bl, i))
    ensures LeavesTo(old(c.S()), c.S(), old(To(c.S(), bl, 1 - i)))
  {
    hide Sound, Narrow, Super, Smaller, Members, EndsIn, Turned, Built, SingleEntry, Labelled, Recorded, LeavesTo;
    ghost var s := c.S();
    ValidSound(c);
    PointListed(s, bl, i);
    var clauseblock := c.graph.outs[bl][i].point;
    PairOf(bl, clauseblock);
    ghost var other := To(s, bl, 1 - i);
    Orient(c, bl, i);
    m := c.S();
    TurnedLists(s, m, bl);
    var ret := BuildBlock(c, [bl, clauseblock], 1, true, s, bl, bl, [other]);
    OtherExit(s, m, c.S(), bl, clauseblock, i);
  }

  lemma ValidSound(c: CollapseStructure)
    requires c.Valid()
    ensures Sound(c.S()) && Narrow(c.S())
  {
  }

  lemma TurnedLists(s: Shape, m: Shape, b: nat)
    requires Turned(s, m, b)
    ensures m.list == s.list && m.facts == s.facts
  {
  }

  /** The first way out that leads to a clause; 2 if there is none. */
  method FindIfClause(c: CollapseStructure, bl: nat) returns (i: nat)
    requires c.Valid() && bl in c.graph.list && HasOut(c.S(), bl, 2)
    ensures i <= 2 && (i < 2 ==> IfClause(c.S(), bl, i)) && forall j :: 0 <= j < i ==> !IfClause(c.S(), bl, j)
  {
    i := 0;
    while i < 2
      invariant i <= 2 && forall j :: 0 <= j < i ==> !IfClause(c.S(), bl, j)
    {
      var fits := IsIfClause(c, bl, i);
      if fits { return i; }
      i := i + 1;
    }
  }

  method RuleBlockProperIf(c: CollapseStructure, bl: nat) returns (res: bool, ghost m: Shape)
    requires c.Valid() && bl in c.graph.list
    modifies c`facts, c`made, c.graph
    ensures c.Valid() && old(c.made) <= c.made && (res <==> ProperIfFits(old(c.S()), bl))
    ensures if res then Smaller(c.S(), old(c.S())) && ProperIfBuilt(old(c.S()), m, c.S(), bl) else c.S() == old(c.S())
  {
    hide Sound, Narrow, Super, Smaller, Members, IfClause, Built, Turned, EndsIn, SingleEntry, Labelled, Recorded;
    ghost var s := c.S();
    ValidSound(c);
    var open := IsOpenCondition(c, bl);
    if !open { return false, s; }
    var i := FindIfClause(c, bl);
    if i == 2 { return false, s; }
    IfClauseEnds(s, bl, i);
    m := BuildIf(c, bl, i);
    return true, m;
  }

  /** Way out i of b leads to a block that only b enters and that has no way out. */
  ghost predicate DeadClause(s: Shape, b: nat, i: nat)
    requires HasOut(s, b, 2) && i < 2
  {
    var c := s.g.outs[b][i].point;
    OneIn(s, c) && HasOut(s, c, 0) && Plain(s, c) && Decision(s.g.outs[b][i])
  }

  ghost predicate IfNoExitFits(s: Shape, b: nat) {
    Binary(s, b) && NoSelf(s, b) && NoGotoOut(s, b) && (DeadClause(s, b, 0) || DeadClause(s, b, 1))
  }

  ghost predicate IfNoExitBuilt(s: Shape, m: Shape, t: Shape, b: nat) {
    && IfNoExitFits(s, b) && HasOut(m, b, 2)
    && var i := if DeadClause(s, b, 0) then 0 else 1;
       To(m, b, 1) == To(s, b, i) && Built(s, m, t, b, [b, To(s, b, i)], 1) && LeavesTo(s, t, To(s, b, 1 - i))
  }

  method IsDeadClause(c: CollapseStructure, bl: nat, i: nat) returns (ok: bool)
    requires c.Valid() && bl in c.graph.list && HasOut(c.S(), bl, 2) && i < 2
    ensures ok <==> DeadClause(c.S(), bl, i)
  {
    PointListed(c.S(), bl, i);
    var clauseblock := c.graph.outs[bl][i].point;
    if |c.graph.ins[clauseblock]| != 1 { return false; }
    if |c.graph.outs[clauseblock]| != 0 { return false; }
    if c.facts[clauseblock].switchOut { return false; }
    return Decision(c.graph.outs[bl][i]);
  }

  lemma DeadClauseEnds(s: Shape, b: nat, i: nat)
    requires Sound(s) && HasOut(s, b, 2) && i < 2 && DeadClause(s, b, i) && NoSelf(s, b)
    ensures EndsIn(s, [b, To(s, b, i)], [To(s, b, 1 - i)]) && SingleEntry(s, [b, To(s, b, i)])
    ensures To(s, b, 1 - i) !in [b, To(s, b, i)]
  {
    PairEntry(s, b, i);
    OtherWay(s, b, i);
    IfEnds(s, b, To(s, b, i), i);
  }

  /** The first way out that leads to a dead end; 2 if there is none. */
  method FindDeadClause(c: CollapseStructure, bl: nat) returns (i: nat)
    requires c.Valid() && bl in c.graph.list && HasOut(c.S(), bl, 2)
    ensures i <= 2 && (i < 2 ==> DeadClause(c.S(), bl, i)) && forall j :: 0 <= j < i ==> !DeadClause(c.S(), bl, j)
  {
    i := 0;
    while i < 2
      invariant i <= 2 && forall j :: 0 <= j < i ==> !DeadClause(c.S(), bl, j)
    {
      var fits := IsDeadClause(c, bl, i);
      if fits { return i; }
      i := i + 1;
    }
  }

  method RuleBlockIfNoExit(c: CollapseStructure, bl: nat) returns (res: bool, ghost m: Shape)
    requires c.Valid() && bl in c.graph.list
    modifies c`facts, c`made, c.graph
    ensures c.Valid() && old(c.made) <= c.made && (res <==> IfNoExitFits(old(c.S()), bl))
    ensures if res then Smaller(c.S(), old(c.S())) && IfNoExitBuilt(old(c.S()), m, c.S(), bl) else c.S() == old(c.S())
  {
    hide Sound, Narrow, Super, Smaller, Members, DeadClause, Built, Turned, EndsIn, SingleEntry, Labelled, Recorded;
    ghost var s := c.S();
    ValidSound(c);
    var open := IsOpenCondition(c, bl);
    if !open { return false, s; }
    var i := FindDeadClause(c, bl);
    if i == 2 { return false, s; }
    DeadClauseEnds(s, bl, i);
    m := BuildIf(c, bl, i);
    return true, m;
  }

  // ---------- if, else ----------

  ghost predicate IfElseFits(s: Shape, b: nat) {
    && Binary(s, b) && Decision(s.g.outs[b][0]) && Decision(s.g.outs[b][1])
    && var fc, tc := To(s, b, 0), To(s, b, 1);
       && OneIn(s, tc) && OneIn(s, fc) && HasOut(s, tc, 1) && HasOut(s, fc, 1) && Plain(s, tc) && Plain(s, fc)
       && To(s, tc, 0) != b && To(s, fc, 0) == To(s, tc, 0) && !Goto(s.g.outs[tc][0]) && !Goto(s.g.outs[fc][0])
  }

  ghost predicate IfElseBuilt(s: Shape, t: Shape, b: nat) {
    IfElseFits(s, b) && Built(s, s, t, b, [b, To(s, b, 1), To(s, b, 0)], 1) && LeavesTo(s, t, To(s, To(s, b, 1), 0))
  }

  /** Only a block with one way out can be a clause: the condition itself is none. */
  lemma IfElseEnds(s: Shape, b: nat)
    requires Sound(s) && IfElseFits(s, b)
    ensures EndsIn(s, [b, To(s, b, 1), To(s, b, 0)], [To(s, To(s, b, 1), 0)]) && To(s, b, 1) != b
    ensures SingleEntry(s, [b, To(s, b, 1), To(s, b, 0)]) && To(s, To(s, b, 1), 0) !in [b, To(s, b, 1), To(s, b, 0)]
  {
    hide Sound;
    var tc, fc := To(s, b, 1), To(s, b, 0);
    var nodes := [b, tc, fc];
    assert nodes[0] in nodes;
    if To(s, tc, 0) == tc { OneSource(s, tc, 0, b, 1); }
    if To(s, tc, 0) == fc { OneSource(s, tc, 0, b, 0); }
    EnteredFrom(s, b, 0, nodes);
    EnteredFrom(s, b, 1, nodes);
    EntryIsFirst(s, nodes);
  }

  method IsIfElse(c: CollapseStructure, bl: nat) returns (ok: bool)
    requires c.Valid() && bl in c.graph.list
    ensures ok <==> IfElseFits(c.S(), bl)
  {
    hide Narrow, Sound;
    ValidSound(c);
    ListedSizes(c.S(), bl);
    if |c.graph.outs[bl]| != 2 { return false; }
    PointListed(c.S(), bl, 0);
    PointListed(c.S(), bl, 1);
    if c.facts[bl].switchOut { return false; }
    if !Decision(c.graph.outs[bl][0]) { return false; }
    if !Decision(c.graph.outs[bl][1]) { return false; }
    var tc, fc := c.graph.outs[bl][1].point, c.graph.outs[bl][0].point;
    if |c.graph.ins[tc]| != 1 { return false; }
    if |c.graph.ins[fc]| != 1 { return false; }
    if |c.graph.outs[tc]| != 1 { return false; }
    if |c.graph.outs[fc]| != 1 { return false; }
    var outblock := c.graph.outs[tc][0].point;
    if outblock == bl { return false; }
    if outblock != c.graph.outs[fc][0].point { return false; }
    if c.facts[tc].switchOut { return false; }
    if c.facts[fc].switchOut { return false; }
    if Goto(c.graph.outs[tc][0]) { return false; }
    if Goto(c.graph.outs[fc][0]) { return false; }
    return true;
  }

  method RuleBlockIfElse(c: CollapseStructure, bl: nat) returns (res: bool)
    requires c.Valid() && bl in c.graph.list
    modifies c`facts, c`made, c.graph
    ensures c.Valid() && old(c.made) <= c.made && (res <==> IfElseFits(old(c.S()), bl))
    ensures if res then Smaller(c.S(), old(c.S())) && IfElseBuilt(old(c.S()), c.S(), bl) else c.S() == old(c.S())
  {
    hide Sound, Narrow, Super, Smaller, Members, Built, Turned, EndsIn, SingleEntry, Labelled, Recorded;
    ghost var s := c.S();
    ValidSound(c);
    res := IsIfElse(c, bl);
    if !res { return; }
    ListedSizes(s, bl);
    PointListed(s, bl, 0);
    PointListed(s, bl, 1);
    IfElseEnds(s, bl);
    var nodes := [bl, c.graph.outs[bl][1].point, c.graph.outs[bl][0].point];
    TurnedNot(s, bl);
    assert nodes[0] in nodes && nodes[1] in nodes;
    var ret := BuildBlock(c, nodes, 1, true, s, bl, bl, [To(s, To(s, bl, 1), 0)]);
    OneExit(s, s, c.S(), bl, nodes, nodes[1], 0);
  }

  // ---------- loops ----------

  /** Way out i of b leads to a clause that only b enters and that only leads back. */
  ghost predicate LoopClause(s: Shape, b: nat, i: nat)
    requires HasOut(s, b, 2) && i < 2
  {
    var c := s.g.outs[b][i].point;
    OneIn(s, c) && HasOut(s, c, 1) && Plain(s, c) && To(s, c, 0) == b
  }

  ghost predicate WhileDoFits(s: Shape, b: nat) {
    && Binary(s, b) && NoSelf(s, b) && b < |s.facts| && !s.facts[b].interiorGotoIn && NoGotoOut(s, b)
    && (LoopClause(s, b, 0) || LoopClause(s, b, 1))
  }

  /** The clause is on the true way out, or on the false one when the condition is too complex. */
  ghost predicate WhileDoBuilt(s: Shape, m: Shape, t: Shape, b: nat) {
    && WhileDoFits(s, b) && HasOut(m, b, 2)
    && var i := if LoopClause(s, b, 0) then 0 else 1;
       To(m, b, if s.facts[b].complex then 0 else 1) == To(s, b, i) && Built(s, m, t, b, [b, To(s, b, i)], 1)
       && LeavesTo(s, t, To(s, b, 1 - i))
  }

  method IsLoopClause(c: CollapseStructure, bl: nat, i: nat) returns (ok: bool)
    requires c.Valid() && bl in c.graph.list && HasOut(c.S(), bl, 2) && i < 2
    ensures ok <==> LoopClause(c.S(), bl, i)
  {
    PointListed(c.S(), bl, i);
    var clauseblock := c.graph.outs[bl][i].point;
    if |c.graph.ins[clauseblock]| != 1 { return false; }
    if |c.graph.outs[clauseblock]| != 1 { return false; }
    if c.facts[clauseblock].switchOut { return false; }
    return c.graph.outs[clauseblock][0].point == bl;
  }

  lemma LoopClauseEnds(s: Shape, b: nat, i: nat)
    requires Sound(s) && HasOut(s, b, 2) && i < 2 && LoopClause(s, b, i) && NoGotoOut(s, b) && NoSelf(s, b)
    ensures EndsIn(s, [b, To(s, b, i)], [To(s, b, 1 - i)]) && SingleEntry(s, [b, To(s, b, i)])
    ensures To(s, b, 1 - i) !in [b, To(s, b, i)]
  {
    PairEntry(s, b, i);
    OtherWay(s, b, i);
    IfEnds(s, b, To(s, b, i), i);
  }

  method FindLoopClause(c: CollapseStructure, bl: nat) returns (i: nat)
    requires c.Valid() && bl in c.graph.list && HasOut(c.S(), bl, 2)
    ensures i <= 2 && (i < 2 ==> LoopClause(c.S(), bl, i)) && forall j :: 0 <= j < i ==> !LoopClause(c.S(), bl, j)
  {
    i := 0;
    while i < 2
      invariant i <= 2 && forall j :: 0 <= j < i ==> !LoopClause(c.S(), bl, j)
    {
      var fits := IsLoopClause(c, bl, i);
      if fits { return i; }
      i := i + 1;
    }
  }

  /** Way out i becomes the false one. */
  method OrientFalse(c: CollapseStructure, bl: nat, i: nat)
    requires c.Valid() && bl in c.graph.list && HasOut(c.S(), bl, 2) && i < 2
    modifies c.graph`ins, c.graph`outs
    ensures c.Valid() && Turned(old(c.S()), c.S(), bl) && HasOut(c.S(), bl, 2) &&
              To(c.S(), bl, 0) == old(To(c.S(), bl, i))
  {
    TurnedNot(c.S(), bl);
    if i != 0 { c.NegateCondition(bl); }
  }

  method BuildWhileDo(c: CollapseStructure, bl: nat, i: nat) returns (ghost m: Shape)
    requires c.Valid() && bl in c.graph.list && bl < |c.facts| && HasOut(c.S(), bl, 2) && i < 2 && NoSelf(c.S(), bl)
    requires EndsIn(c.S(), [bl, To(c.S(), bl, i)], [To(c.S(), bl, 1 - i)]) &&
               SingleEntry(c.S(), [bl, To(c.S(), bl, i)]) && To(c.S(), bl, 1 - i) !in [bl, To(c.S(), bl, i)]
    modifies c`facts, c`made, c.graph
    ensures c.Valid() && old(c.made) <= c.made && Smaller(c.S(), old(c.S())) &&
              Built(old(c.S()), m, c.S(), bl, [bl, old(To(c.S(), bl, i))], 1)
    ensures HasOut(m, bl, 2) && To(m, bl, if old(c.facts[bl].complex) then 0 else 1) == old(To(c.S(), bl, i))
    ensures LeavesTo(old(c.S()), c.S(), old(To(c.S(), bl, 1 - i)))
  {
    hide Sound, Narrow, Super, Smaller, Members, EndsIn, Turned, Built, SingleEntry, Labelled, Recorded;
    ghost var s := c.S();
    ValidSound(c);
    PointListed(s, bl, i);
    var clauseblock := c.graph.outs[bl][i].point;
    PairOf(bl, clauseblock);
    ghost var other := To(s, bl, 1 - i);
    var overflow := c.facts[bl].complex;
    if overflow {
      OrientFalse(c, bl, i);
    } else {
      Orient(c, bl, i);
    }
    m := c.S();
    TurnedLists(s, m, bl);
    var ret := BuildBlock(c, [bl, clauseblock], 1, true, s, bl, bl, [other]);
    OtherExit(s, m, c.S(), bl, clauseblock, i);
  }

  method RuleBlockWhileDo(c: CollapseStructure, bl: nat) returns (res: bool, ghost m: Shape)
    requires c.Valid() && bl in c.graph.list
    modifies c`facts, c`made, c.graph
    ensures c.Valid() && old(c.made) <= c.made && (res <==> WhileDoFits(old(c.S()), bl))
    ensures if res then Smaller(c.S(), old(c.S())) && WhileDoBuilt(old(c.S()), m, c.S(), bl) else c.S() == old(c.S())
  {
    hide Sound, Narrow, Super, Smaller, Members, LoopClause, Built, Turned, EndsIn, SingleEntry, Labelled, Recorded;
    ghost var s := c.S();
    ValidSound(c);
    ListedSizes(s, bl);
    var open := IsOpenCondition(c, bl);
    if !open { return false, s; }
    if c.facts[bl].interiorGotoIn { return false, s; }
    var i := FindLoopClause(c, bl);
    if i == 2 { return false, s; }
    LoopClauseEnds(s, bl, i);
    m := BuildWhileDo(c, bl, i);
    return true, m;
  }

  ghost predicate DoWhileFits(s: Shape, b: nat) {
    Binary(s, b) && NoGotoOut(s, b) && !NoSelf(s, b)
  }

  /** The block loops back on its true way out; the loop leaves where the other one leads. */
  ghost predicate DoWhileBuilt(s: Shape, m: Shape, t: Shape, b: nat) {
    DoWhileFits(s, b) && HasOut(m, b, 2) && To(m, b, 1) == b && Built(s, m, t, b, [b], 1)
    && (To(m, b, 0) != b ==> LeavesTo(s, t, To(m, b, 0)))
  }

  lemma DoWhileEnds(s: Shape, b: nat, i: nat)
    requires HasOut(s, b, 2) && i < 2 && To(s, b, i) == b
    ensures EndsIn(s, [b], [To(s, b, 1 - i)]) && [b][0] in [b] && SingleEntry(s, [b])
  {
  }

  lemma LoopExit(s: Shape, m: Shape, t: Shape, b: nat)
    requires HasOut(s, b, 2) && HasOut(m, b, 2) && Built(s, m, t, b, [b], 1)
    ensures To(m, b, 0) != b ==> LeavesTo(s, t, To(m, b, 0))
  {
    hide Super, SingleEntry, Labelled;
    assert [b][0] in [b];
    if To(m, b, 0) != b { OneExit(s, m, t, b, [b], b, if s.g.outs[b][0] == m.g.outs[b][0] then 0 else 1); }
  }

  method RuleBlockDoWhile(c: CollapseStructure, bl: nat) returns (res: bool, ghost m: Shape)
    requires c.Valid() && bl in c.graph.list
    modifies c`facts, c`made, c.graph
    ensures c.Valid() && old(c.made) <= c.made && (res <==> DoWhileFits(old(c.S()), bl))
    ensures if res then Smaller(c.S(), old(c.S())) && DoWhileBuilt(old(c.S()), m, c.S(), bl) else c.S() == old(c.S())
  {
    hide Sound, Narrow, Super, Smaller, Members, Built, Turned, EndsIn, SingleEntry, Labelled, Recorded;
    ghost var s := c.S();
    ValidSound(c);
    ListedSizes(s, bl);
    if |c.graph.outs[bl]| != 2 { return false, s; }
    if c.facts[bl].switchOut { return false, s; }
    if Goto(c.graph.outs[bl][0]) { return false, s; }
    if Goto(c.graph.outs[bl][1]) { return false, s; }
    var i := if c.graph.outs[bl][0].point == bl then 0 else 1;
    if c.graph.outs[bl][i].point != bl { return false, s; }
    DoWhileEnds(s, bl, i);
    Orient(c, bl, i);
    m := c.S();
    TurnedLists(s, m, bl);
    var ret := BuildBlock(c, [bl], 1, true, s, bl, bl, [To(s, bl, 1 - i)]);
    LoopExit(s, m, c.S(), bl);
    return true, m;
  }

  ghost predicate InfLoopFits(s: Shape, b: nat) {
    HasOut(s, b, 1) && !Goto(s.g.outs[b][0]) && To(s, b, 0) == b
  }

  ghost predicate InfLoopBuilt(s: Shape, t: Shape, b: nat) {
    InfLoopFits(s, b) && Built(s, s, t, b, [b], 0)
  }

  lemma InfLoopEnds(s: Shape, b: nat)
    requires InfLoopFits(s, b)
    ensures EndsIn(s, [b], []) && [b][0] in [b] && SingleEntry(s, [b])
  {
  }

  method RuleBlockInfLoop(c: CollapseStructure, bl: nat) returns (res: bool)
    requires c.Valid() && bl in c.graph.list
    modifies c`facts, c`made, c.graph
    ensures c.Valid() && old(c.made) <= c.made && (res <==> InfLoopFits(old(c.S()), bl))
    ensures if res then Smaller(c.S(), old(c.S())) && InfLoopBuilt(old(c.S()), c.S(), bl) else c.S() == old(c.S())
  {
    hide Sound, Narrow, Super, Smaller, Members, Built, Turned, EndsIn, SingleEntry, Labelled, Recorded;
    ghost var s := c.S();
    ValidSound(c);
    ListedSizes(s, bl);
    if |c.graph.outs[bl]| != 1 { return false; }
    if Goto(c.graph.outs[bl][0]) { return false; }
    if c.graph.outs[bl][0].point != bl { return false; }
    InfLoopEnds(s, bl);
    TurnedNot(s, bl);
    var ret := BuildBlock(c, [bl], 0, true, s, bl, bl, []);
    return true;
  }
}
