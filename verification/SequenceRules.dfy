/** ruleBlockCat and ruleBlockOr: chains of blocks, and pairs of conditions, become one block. */
module SequenceRules {

  import opened Flow
  import opened Quotient
  import opened Identify
  import opened Shapes
  import opened Structuring
  import opened CollapseRules

  // ---------- chains ----------

  /** The one way out of a leads, by a decision edge, to another block that nothing else enters. */
  ghost predicate Linked(s: Shape, a: nat, first: nat) {
    && HasOut(s, a, 1)
    && var o := To(s, a, 0);
       o != first && OneIn(s, o) && Decision(s.g.outs[a][0]) && Plain(s, o)
  }

  /** b starts a chain: the one block that enters it, if there is just one, has another way out. */
  ghost predicate CatFits(s: Shape, b: nat) {
    && Linked(s, b, b) && Plain(s, b)
    && !(OneIn(s, b) && HasOut(s, s.g.ins[b][0].point, 1))
  }

  ghost predicate Chain(s: Shape, nodes: seq<nat>) {
    && |nodes| >= 2 && Distinct(nodes) && Plain(s, nodes[0])
    && forall j :: 0 <= j < |nodes| - 1 ==> Linked(s, nodes[j], nodes[0]) && To(s, nodes[j], 0) == nodes[j + 1]
  }

  /** The chain from b that cannot be made longer. */
  ghost predicate LongestChain(s: Shape, b: nat, nodes: seq<nat>) {
    Chain(s, nodes) && nodes[0] == b && !Linked(s, nodes[|nodes| - 1], b)
  }

  /** The next block of a chain is a new one. */
  lemma ChainGrows(s: Shape, nodes: seq<nat>)
    requires Sound(s) && Chain(s, nodes) && Linked(s, nodes[|nodes| - 1], nodes[0])
    ensures Chain(s, nodes + [To(s, nodes[|nodes| - 1], 0)])
  {
    var last := |nodes| - 1;
    var o := To(s, nodes[last], 0);
    forall j | 0 <= j < |nodes| ensures nodes[j] != o {
      if j > 0 && nodes[j] == o {
        assert Linked(s, nodes[j - 1], nodes[0]) && To(s, nodes[j - 1], 0) == nodes[j];
        OneSource(s, nodes[j - 1], 0, nodes[last], 0);
      }
    }
  }

  lemma ChainEnds(s: Shape, nodes: seq<nat>, ends: seq<nat>)
    requires Chain(s, nodes)
    requires var last := nodes[|nodes| - 1]; forall j: nat :: OutSlot(s.g, last, j) ==> s.g.outs[last][j].point in ends
    ensures EndsIn(s, nodes, ends)
  {
    forall n: nat, j: nat | n in nodes && OutSlot(s.g, n, j)
      ensures s.g.outs[n][j].point in nodes || s.g.outs[n][j].point in ends
    {
      var i :| 0 <= i < |nodes| && nodes[i] == n;
      if i < |nodes| - 1 { assert Linked(s, nodes[i], nodes[0]) && To(s, nodes[i], 0) == nodes[i + 1]; }
    }
  }

  method IsLinked(c: CollapseStructure, a: nat, first: nat) returns (ok: bool)
    requires c.Valid() && a in c.graph.list
    ensures ok <==> Linked(c.S(), a, first)
  {
    ListedSizes(c.S(), a);
    if |c.graph.outs[a]| != 1 { return false; }
    PointListed(c.S(), a, 0);
    var o := c.graph.outs[a][0].point;
    if o == first { return false; }
    if |c.graph.ins[o]| != 1 { return false; }
    if !Decision(c.graph.outs[a][0]) { return false; }
    return !c.facts[o].switchOut;
  }

  /** Follows the chain from bl as long as it goes. */
  method FollowChain(c: CollapseStructure, bl: nat) returns (nodes: seq<nat>)
    requires c.Valid() && bl in c.graph.list && Linked(c.S(), bl, bl) && Plain(c.S(), bl)
    ensures |nodes| >= 2 && LongestChain(c.S(), bl, nodes) && forall b :: b in nodes ==> b in c.graph.list
  {
    hide Sound, Linked, Narrow;
    ValidSound(c);
    ListedSizes(c.S(), bl);
    LinkedTo(c.S(), bl, bl);
    var outblock := c.graph.outs[bl][0].point;
    nodes := [bl, outblock];
    ChainFits(c.S(), nodes);
    var more := IsLinked(c, outblock, bl);
    while more
      invariant Chain(c.S(), nodes) && nodes[0] == bl && nodes[|nodes| - 1] == outblock && |nodes| <= |c.graph.ins|
      invariant forall b :: b in nodes ==> b in c.graph.list
      invariant more <==> Linked(c.S(), outblock, bl)
      decreases |c.graph.ins| - |nodes|, more
    {
      assert nodes[|nodes| - 1] in nodes;
      ChainGrows(c.S(), nodes);
      LinkedTo(c.S(), outblock, bl);
      outblock := c.graph.outs[outblock][0].point;
      nodes := nodes + [outblock];
      ChainFits(c.S(), nodes);
      more := IsLinked(c, outblock, bl);
    }
  }

  lemma LinkedTo(s: Shape, a: nat, first: nat)
    requires Sound(s) && a in s.list && Linked(s, a, first)
    ensures HasOut(s, a, 1) && To(s, a, 0) in s.list && To(s, a, 0) != first
  {
    PointListed(s, a, 0);
  }

  lemma ChainFits(s: Shape, nodes: seq<nat>)
    requires Sound(s) && Distinct(nodes) && forall b :: b in nodes ==> b in s.list
    ensures |nodes| <= |s.g.ins|
  {
    forall b | b in nodes ensures b < |s.g.ins| {
      ListedSizes(s, b);
    }
    DistinctFits(nodes, |s.g.ins|);
  }

  method IsCat(c: CollapseStructure, bl: nat) returns (ok: bool)
    requires c.Valid() && bl in c.graph.list
    ensures ok <==> CatFits(c.S(), bl)
  {
    hide Linked;
    ListedSizes(c.S(), bl);
    if c.facts[bl].switchOut { return false; }
    if |c.graph.ins[bl]| == 1 {
      InListed(c.S(), bl, 0);
      if |c.graph.outs[c.graph.ins[bl][0].point]| == 1 { return false; }
    }
    ok := IsLinked(c, bl, bl);
  }

  /** The chain became one block; two ways out keep their order. */
  ghost predicate CatBuilt(s: Shape, m: Shape, t: Shape, b: nat, nodes: seq<nat>) {
    && CatFits(s, b) && LongestChain(s, b, nodes)
    && var last := nodes[|nodes| - 1];
       && last < |s.g.outs| && Built(s, s, m, b, nodes, |s.g.outs[last]|)
       && KeepsFalse(s, m, t, nodes, last)
  }

  /** If the block built has two ways out, its false one leads where that of x did. */
  ghost predicate KeepsFalse(s: Shape, m: Shape, t: Shape, nodes: seq<nat>, x: nat) {
    if HasOut(s, x, 2) then
      Turned(m, t, |s.g.outs|) && HasOut(t, |s.g.outs|, 2) &&
          To(t, |s.g.outs|, 0) == if To(s, x, 0) in nodes then |s.g.outs| else To(s, x, 0)
    else t == m
  }

  /** The false way out of x is there after collapsing: to an outer block, or back into the new one. */
  lemma FalseThere(s: Shape, m: Shape, nodes: seq<nat>, x: nat)
    requires Super(s, m, Members(nodes), 2) && x in nodes && HasOut(s, x, 2) &&
               EndsIn(s, nodes, [To(s, x, 0), To(s, x, 1)])
    ensures |m.g.outs| == |s.g.outs| + 1 && Leads(m.g.outs[|s.g.outs|], if To(s, x, 0) in nodes then |s.g.outs|
              else To(s, x, 0))
  {
    hide Paired, Collapsed;
    MembersOf(nodes);
    SuperFacts(s, m, Members(nodes), 2);
    SizesOf(s);
    var p, q := To(s, x, 0), To(s, x, 1);
    if p in nodes {
      assert EndsIn(s, nodes, [q]);
      EndsOuter(s, nodes, [q]);
      SelfForced(s, m, Members(nodes), 2, [q]);
    } else {
      SlotLeads(s.g.outs[x], 0);
      assert Outer(s, Members(nodes), p);
      OuterOld(s, Members(nodes), p);
    }
  }

  /** newBlockList */
  method NewBlockList(c: CollapseStructure, nodes: seq<nat>) returns (ghost m: Shape)
    requires c.Valid() && Chain(c.S(), nodes) && |nodes| >= 2 && forall b :: b in nodes ==> b in c.graph.list
    modifies c`facts, c`made, c.graph
    ensures c.Valid() && old(c.made) <= c.made && nodes[|nodes| - 1] < |old(c.graph.outs)|
    ensures Built(old(c.S()), old(c.S()), m, nodes[0], nodes, |old(c.graph.outs[nodes[|nodes| - 1]])|)
    ensures KeepsFalse(old(c.S()), m, c.S(), nodes, nodes[|nodes| - 1]) && Smaller(c.S(), old(c.S()))
  {
    hide Sound, Narrow, Super, Members, Turned, EndsIn, Chain, Size, Switches, UnmarkedEdges, KeepsFalse, SingleEntry,
      Labelled, Recorded;
    ghost var s := c.S();
    ValidSound(c);
    var last := nodes[|nodes| - 1];
    ghost var ends := ChainLast(s, nodes);
    ChainEntry(s, nodes);
    var outforce := |c.graph.outs[last]|;
    var out0 := if outforce == 2 then c.graph.outs[last][0].point else 0;
    var ret := BuildBlock(c, nodes, outforce, true, s, nodes[0], last, ends);
    m := c.S();
    if |c.graph.outs[ret]| == 2 {
      FalseThere(s, m, nodes, last);
      c.ForceFalseEdge(ret, out0, nodes);
      TurnedSize(m, c.S(), ret);
    }
    KeptFalse(s, m, c.S(), nodes, last, ret);
  }

  lemma KeptFalse(s: Shape, m: Shape, t: Shape, nodes: seq<nat>, x: nat, ret: nat)
    requires ret == |s.g.outs| && x < |s.g.outs|
    requires if |s.g.outs[x]| == 2 then Turned(m, t, ret) && HasOut(t, ret, 2) &&
               To(t, ret, 0) == (if To(s, x, 0) in nodes then ret else To(s, x, 0)) else t == m
    ensures KeepsFalse(s, m, t, nodes, x)
  {
  }

  /** Each block of a chain but the first is entered only from the one before. */
  lemma ChainEntry(s: Shape, nodes: seq<nat>)
    requires Sound(s) && Chain(s, nodes)
    ensures SingleEntry(s, nodes)
  {
    forall n: nat | n in nodes && n != nodes[0] ensures EnteredWithin(s, nodes, n) {
      var j :| 0 < j < |nodes| && nodes[j] == n;
      assert Linked(s, nodes[j - 1], nodes[0]) && To(s, nodes[j - 1], 0) == n;
      EnteredFrom(s, nodes[j - 1], 0, nodes);
    }
    EntryIsFirst(s, nodes);
  }

  lemma ChainLast(s: Shape, nodes: seq<nat>) returns (ends: seq<nat>)
    requires Sound(s) && Narrow(s) && Chain(s, nodes) && forall b :: b in nodes ==> b in s.list
    ensures var last := nodes[|nodes| - 1];
      && nodes[0] in nodes && last in nodes && nodes[0] != last && nodes[0] < |s.g.outs| && Turned(s, s, nodes[0])
      && last < |s.g.outs| && |s.g.outs[last]| <= 2 && |ends| == |s.g.outs[last]| && EndsIn(s, nodes, ends)
      && (|s.g.outs[last]| == 2 ==> ends == [To(s, last, 0), To(s, last, 1)])
  {
    var n := |nodes|;
    var last := nodes[n - 1];
    assert nodes[0] in nodes && nodes[n - 1] in nodes;
    ListedSizes(s, last);
    ListedSizes(s, nodes[0]);
    assert Linked(s, nodes[n - 2], nodes[0]) && To(s, nodes[n - 2], 0) == last;
    assert Plain(s, last);
    ends := seq(|s.g.outs[last]|, j requires 0 <= j < |s.g.outs[last]| => s.g.outs[last][j].point);
    forall j: nat | OutSlot(s.g, last, j) ensures s.g.outs[last][j].point in ends {
      assert ends[j] in ends;
    }
    ChainEnds(s, nodes, ends);
  }

  method RuleBlockCat(c: CollapseStructure, bl: nat) returns (res: bool, ghost m: Shape, ghost nodes: seq<nat>)
    requires c.Valid() && bl in c.graph.list
    modifies c`facts, c`made, c.graph
    ensures c.Valid() && old(c.made) <= c.made && (res <==> CatFits(old(c.S()), bl))
    ensures if res then Smaller(c.S(), old(c.S())) && CatBuilt(old(c.S()), m, c.S(), bl, nodes) else c.S() == old(c.S())
  {
    hide Sound, Narrow, Smaller, Built, Chain, Linked, KeepsFalse, Recorded;
    ghost var s := c.S();
    ValidSound(c);
    res := IsCat(c, bl);
    if !res { return false, s, []; }
    var chain := FollowChain(c, bl);
    m := NewBlockList(c, chain);
    return true, m, chain;
  }

  // ---------- conditions ----------

  /** Way out i of b leads to a second condition that only b enters, and that also leads, on its way out j, where the
      other way out of b leads. */
  ghost predicate OrBlock(s: Shape, b: nat, i: nat, j: nat)
    requires HasOut(s, b, 2) && i < 2 && j < 2
  {
    var o, c := To(s, b, i), To(s, b, 1 - i);
    && o != b && OneIn(s, o) && HasOut(s, o, 2) && Plain(s, o) && !s.facts[o].interiorGotoIn && !s.facts[o].complex
    && BackEdge !in s.g.outs[b][i].flags && c != b && c != o
    && To(s, o, j) == c && To(s, o, 1 - j) != b && (j == 1 ==> To(s, o, 0) != c)
  }

  ghost predicate OrFits(s: Shape, b: nat) {
    Binary(s, b) && NoGotoOut(s, b) && exists i: nat, j: nat :: i < 2 && j < 2 && OrBlock(s, b, i, j)
  }

  /** The second condition is on the false way out of the first, and the common clause on its true one. */
  ghost predicate OrBuilt(s: Shape, m1: Shape, m2: Shape, m: Shape, t: Shape, b: nat, i: nat, j: nat) {
    && Binary(s, b) && NoGotoOut(s, b) && i < 2 && j < 2 && OrBlock(s, b, i, j)
    && var o := To(s, b, i);
       && Turned(s, m1, b) && HasOut(m1, b, 2) && To(m1, b, 0) == o
       && HasOut(m2, o, 2) && To(m2, o, 1) == To(s, b, 1 - i) && Built(m1, m2, m, o, [b, o], 2)
       && KeepsFalse(m2, m, t, [b, o], o)
  }

  lemma OrEnds(s: Shape, b: nat, i: nat, j: nat)
    requires Sound(s) && b in s.list && HasOut(s, b, 2) && i < 2 && j < 2 && OrBlock(s, b, i, j) && NoGotoOut(s, b)
    ensures var o := To(s, b, i);
              o in s.list && EndsIn(s, [b, o], [To(s, o, 0), To(s, o, 1)]) && SingleEntry(s, [b, o])
  {
    PointListed(s, b, i);
    PairEntry(s, b, i);
  }

  method IsOrBlock(c: CollapseStructure, bl: nat, i: nat) returns (ok: bool, j: nat)
    requires c.Valid() && bl in c.graph.list && HasOut(c.S(), bl, 2) && i < 2
    ensures ok ==> j < 2 && OrBlock(c.S(), bl, i, j)
    ensures !ok ==> !OrBlock(c.S(), bl, i, 0) && !OrBlock(c.S(), bl, i, 1)
  {
    hide Sound, Narrow;
    ValidSound(c);
    ListedSizes(c.S(), bl);
    PointListed(c.S(), bl, i);
    PointListed(c.S(), bl, 1 - i);
    j := 0;
    var orblock := c.graph.outs[bl][i].point;
    if orblock == bl { return false, j; }
    if |c.graph.ins[orblock]| != 1 { return false, j; }
    if |c.graph.outs[orblock]| != 2 { return false, j; }
    if c.facts[orblock].interiorGotoIn { return false, j; }
    if c.facts[orblock].switchOut { return false, j; }
    if BackEdge in c.graph.outs[bl][i].flags { return false, j; }
    if c.facts[orblock].complex { return false, j; }
    var clauseblock := c.graph.outs[bl][1 - i].point;
    if clauseblock == bl { return false, j; }
    if clauseblock == orblock { return false, j; }
    while j < 2 && clauseblock != c.graph.outs[orblock][j].point
      invariant j <= 2 && forall n :: 0 <= n < j ==> clauseblock != c.graph.outs[orblock][n].point
    {
      j := j + 1;
    }
    if j == 2 { return false, j; }
    if c.graph.outs[orblock][1 - j].point == bl { return false, j; }
    return true, j;
  }

  lemma TurnedRow(s: Shape, t: Shape, b: nat, y: nat)
    requires Turned(s, t, b) && y < |s.g.outs|
    ensures |t.g.outs| == |s.g.outs| && |t.g.outs[y]| == |s.g.outs[y]| && (y != b ==> t.g.outs[y] == s.g.outs[y])
  {
  }

  /** Makes the orientation right and collapses both conditions. */
  method BuildOr(c: CollapseStructure, bl: nat, i: nat, j: nat)
                 returns (ghost m1: Shape, ghost m2: Shape, ghost m: Shape)
    requires c.Valid() && bl in c.graph.list && Binary(c.S(), bl) && NoGotoOut(c.S(), bl) && i < 2 && j < 2 &&
               OrBlock(c.S(), bl, i, j)
    modifies c`facts, c`made, c.graph
    ensures c.Valid() && old(c.made) <= c.made && Smaller(c.S(), old(c.S())) &&
              OrBuilt(old(c.S()), m1, m2, m, c.S(), bl, i, j)
  {
    hide Sound, Narrow, Super, Members, Turned, EndsIn, Size, Switches, UnmarkedEdges, KeepsFalse, Built, SingleEntry,
      Labelled, Recorded;
    ghost var s := c.S();
    ValidSound(c);
    ListedSizes(s, bl);
    OrEnds(s, bl, i, j);
    var orblock := c.graph.outs[bl][i].point;
    ListedSizes(s, orblock);
    ghost var ends := [To(s, orblock, 0), To(s, orblock, 1)];
    OrientFalse(c, bl, i);
    m1 := c.S();
    TurnedRow(s, m1, bl, orblock);
    TurnedRow(s, m1, bl, bl);
    TurnedLists(s, m1, bl);
    TurnedEnds(s, m1, bl, [bl, orblock], ends);
    TurnedEntry(s, m1, bl, [bl, orblock]);
    ValidSound(c);
    TurnedSize(s, m1, bl);
    Orient(c, orblock, j);
    m2 := c.S();
    TurnedLists(m1, m2, orblock);
    TurnedEnds(m1, m2, orblock, [bl, orblock], ends);
    FlippedEnds(m2, [bl, orblock], orblock, ends[0], ends[1], m1);
    TurnedRow(m1, m2, orblock, bl);
    PairOf(bl, orblock);
    var out0 := c.graph.outs[orblock][0].point;
    var ret := BuildBlock(c, [bl, orblock], 2, c.facts[bl].complex, m1, orblock, bl, ends);
    m := c.S();
    SuperOf(m1, m2, m, orblock, [bl, orblock], 2);
    FalseThere(m2, m, [bl, orblock], orblock);
    c.ForceFalseEdge(ret, out0, [bl, orblock]);
    TurnedSize(m, c.S(), ret);
    KeptFalse(m2, m, c.S(), [bl, orblock], orblock, ret);
  }

  lemma SuperOf(s: Shape, m: Shape, t: Shape, b: nat, nodes: seq<nat>, k: nat)
    requires Built(s, m, t, b, nodes, k)
    ensures Super(m, t, Members(nodes), k) && |m.g.outs| == |s.g.outs| && |t.g.outs| == |s.g.outs| + 1 &&
              |t.g.outs[|s.g.outs|]| == k
  {
  }

  /** The two ends of x, whichever way round they are now. */
  lemma FlippedEnds(t: Shape, nodes: seq<nat>, x: nat, p: nat, q: nat, s: Shape)
    requires EndsIn(t, nodes, [p, q]) && Turned(s, t, x) && HasOut(s, x, 2) && To(s, x, 0) == p && To(s, x, 1) == q
    ensures HasOut(t, x, 2) && EndsIn(t, nodes, [To(t, x, 0), To(t, x, 1)])
  {
  }

  method RuleBlockOr(c: CollapseStructure, bl: nat) returns (res: bool)
    requires c.Valid() && bl in c.graph.list
    modifies c`facts, c`made, c.graph
    ensures c.Valid() && old(c.made) <= c.made && (res <==> OrFits(old(c.S()), bl))
    ensures if res then Smaller(c.S(), old(c.S())) else c.S() == old(c.S())
    ensures res ==> exists m1, m2, m, i, j :: OrBuilt(old(c.S()), m1, m2, m, c.S(), bl, i, j)
  {
    hide Sound, Narrow, Smaller, OrBlock, OrBuilt, Recorded;
    ghost var s := c.S();
    ValidSound(c);
    ListedSizes(s, bl);
    if |c.graph.outs[bl]| != 2 { return false; }
    if Goto(c.graph.outs[bl][0]) { return false; }
    if Goto(c.graph.outs[bl][1]) { return false; }
    if c.facts[bl].switchOut { return false; }
    var i, j := FindOrBlock(c, bl);
    if i == 2 { return false; }
    ghost var m1, m2, m := BuildOr(c, bl, i, j);
    return true;
  }

  method FindOrBlock(c: CollapseStructure, bl: nat) returns (i: nat, j: nat)
    requires c.Valid() && bl in c.graph.list && HasOut(c.S(), bl, 2)
    ensures i <= 2 && (i < 2 ==> j < 2 && OrBlock(c.S(), bl, i, j))
    ensures i == 2 ==> forall n: nat, k: nat :: n < 2 && k < 2 ==> !OrBlock(c.S(), bl, n, k)
  {
    hide OrBlock;
    i, j := 0, 0;
    while i < 2
      invariant i <= 2 && forall n: nat, k: nat :: n < i && k < 2 ==> !OrBlock(c.S(), bl, n, k)
    {
      var ok, n := IsOrBlock(c, bl, i);
      if ok { return i, n; }
      i := i + 1;
    }
  }
}
