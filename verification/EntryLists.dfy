/** The list of entry points that findSpanningTree hands on, by what leads to what alone. */
module EntryLists {

  import opened Flow
  import opened Forest
  import opened RootOrder

  /** One of the blocks leads to b. */
  ghost predicate LedTo(outs: Adj, from: seq<nat>, b: nat) {
    exists r :: r in from && Leads(outs, r, b)
  }

  /** Together the blocks lead to all those listed. */
  ghost predicate LedToAll(outs: Adj, from: seq<nat>, list: seq<nat>) {
    forall b :: b in list ==> LedTo(outs, from, b)
  }

  /** The blocks without in-edges, in the order of the list. */
  ghost function NoIns(ins: Adj, list: seq<nat>): seq<nat> {
    if list == [] then []
    else
      var b := list[|list| - 1];
      NoIns(ins, list[..|list| - 1]) + if b < |ins| && ins[b] == [] then [b] else []
  }

  function Swapped(s: seq<nat>, i: nat, j: nat): seq<nat>
    requires i < |s| && j < |s|
  {
    s[j := s[i]][i := s[j]]
  }

  /** The first and the last change places. */
  function EndsSwapped(s: seq<nat>): (t: seq<nat>)
    ensures |t| == |s| && (s != [] ==> t[0] == Last(s) && Last(t) == s[0])
    ensures forall i :: 0 < i < |s| - 1 ==> t[i] == s[i]
  {
    if |s| > 1 then Swapped(s, 0, |s| - 1) else s
  }

  /** The entries to start with: the blocks without in-edges, or the first block if there are none. The first of them
      is the last. */
  ghost function Heads(ins: Adj, list: seq<nat>): (given: seq<nat>)
    requires list != []
    ensures given != []
  {
    if NoIns(ins, list) == [] then [list[0]] else EndsSwapped(NoIns(ins, list))
  }

  /** b is the first block of the list that none of those before leads to. */
  ghost predicate FirstMissed(outs: Adj, list: seq<nat>, before: seq<nat>, b: nat) {
    exists n :: 0 <= n < |list| && list[n] == b && !LedTo(outs, before, b) && forall m :: 0 <= m < n ==>
        LedTo(outs, before, list[m])
  }

  /** The given blocks, then always the first block missed. */
  ghost predicate Continued(outs: Adj, list: seq<nat>, given: seq<nat>, found: seq<nat>) {
    given <= found && forall i :: |given| <= i < |found| ==> FirstMissed(outs, list, found[..i], found[i])
  }

  /** Until all blocks are led to. */
  ghost predicate Completed(outs: Adj, list: seq<nat>, given: seq<nat>, found: seq<nat>) {
    Continued(outs, list, given, found) && LedToAll(outs, found, list)
  }

  /** As long as the blocks kept do not lead to all, the next of the rest is left out if they lead to it. */
  ghost function Pruned(outs: Adj, list: seq<nat>, kept: seq<nat>, rest: seq<nat>): seq<nat>
    decreases |rest|
  {
    if rest == [] || LedToAll(outs, kept, list) then kept + rest
    else if LedTo(outs, kept, rest[0]) then Pruned(outs, list, kept, rest[1..])
    else Pruned(outs, list, kept + [rest[0]], rest[1..])
  }

  /** The entries in the order in which the last attempt takes them: those found, with the last of the given ones moved
      to the end, as far as they are not led to by others. */
  ghost predicate EntryOrder(g: Graph, list: seq<nat>, entries: seq<nat>)
    requires list != []
  {
    var given := Heads(g.ins, list);
    exists found :: Completed(g.outs, list, given, found) && |given| <= |found| &&
        entries == Pruned(g.outs, list, [], Swapped(found, |given| - 1, |found| - 1))
  }

  /** The list of entry points, in which the last entry taken is the first. */
  ghost predicate EntryList(g: Graph, list: seq<nat>, rootlist: seq<nat>) {
    if list == [] then rootlist == []
    else exists entries :: EntryOrder(g, list, entries) && rootlist == EndsSwapped(entries)
  }

  // ---------- what leads to what ----------

  lemma LeadsToItself(outs: Adj, b: nat)
    ensures Leads(outs, b, b)
  {
  }

  lemma LedToMore(outs: Adj, from: seq<nat>, more: seq<nat>, b: nat)
    requires LedTo(outs, from, b) && forall r :: r in from ==> r in more
    ensures LedTo(outs, more, b)
  {
    var r :| r in from && Leads(outs, r, b);
    assert r in more;
  }

  lemma LedToPrefix(outs: Adj, from: seq<nat>, more: seq<nat>, b: nat)
    requires from <= more && LedTo(outs, from, b)
    ensures LedTo(outs, more, b)
  {
    forall r | r in from ensures r in more {
      var i :| 0 <= i < |from| && from[i] == r;
      assert more[i] == r;
    }
    LedToMore(outs, from, more, b);
  }

  lemma LedToOn(outs: Adj, from: seq<nat>, b: nat, c: nat)
    requires LedTo(outs, from, b) && Leads(outs, b, c)
    ensures LedTo(outs, from, c)
  {
    var r :| r in from && Leads(outs, r, b);
    LeadsOn(outs, r, b, c);
  }

  lemma LedToListed(outs: Adj, from: seq<nat>, b: nat)
    requires b in from
    ensures LedTo(outs, from, b)
  {
    LeadsToItself(outs, b);
  }

  // ---------- the entries to start with ----------

  lemma {:induction false} NoInsMembers(ins: Adj, list: seq<nat>)
    ensures forall b :: b in NoIns(ins, list) <==> b in list && b < |ins| && ins[b] == []
  {
    if list != [] {
      var rest := list[..|list| - 1];
      NoInsMembers(ins, rest);
      assert list == rest + [list[|list| - 1]];
    }
  }

  lemma {:induction false} NoInsDistinct(ins: Adj, list: seq<nat>)
    requires Distinct(list)
    ensures Distinct(NoIns(ins, list))
  {
    if list != [] {
      var rest, b := list[..|list| - 1], list[|list| - 1];
      NoInsDistinct(ins, rest);
      NoInsMembers(ins, rest);
      assert b !in rest;
      var none := NoIns(ins, rest);
      assert forall i :: 0 <= i < |none| ==> none[i] in none && none[i] != b;
    }
  }

  /** The first of them is the first such block of the list. */
  lemma {:induction false} NoInsFirst(ins: Adj, list: seq<nat>) returns (n: nat)
    requires NoIns(ins, list) != []
    ensures n < |list| && list[n] == NoIns(ins, list)[0]
    ensures forall m :: 0 <= m < n && list[m] < |ins| ==> ins[list[m]] != []
  {
    var rest := list[..|list| - 1];
    if NoIns(ins, rest) != [] {
      n := NoInsFirst(ins, rest);
      assert forall m :: 0 <= m < n ==> rest[m] == list[m];
    } else {
      n := |rest|;
      NoInsMembers(ins, rest);
      forall m | 0 <= m < n && list[m] < |ins| ensures ins[list[m]] != [] { assert rest[m] in rest; }
    }
  }

  lemma NoInsNone(ins: Adj)
    ensures NoIns(ins, []) == []
  {
  }

  lemma NoInsNext(ins: Adj, list: seq<nat>, b: nat)
    ensures NoIns(ins, list + [b]) == NoIns(ins, list) + if b < |ins| && ins[b] == [] then [b] else []
  {
    assert (list + [b])[..|list|] == list;
  }

  lemma HeadsFrom(ins: Adj, list: seq<nat>)
    requires list != []
    ensures var none := NoIns(ins, list);
      Heads(ins, list) == if none == [] then [list[0]] else if |none| == 1 then none else Swapped(none, 0, |none| - 1)
  {
  }

  lemma SwappedWithItself(s: seq<nat>, i: nat)
    requires i < |s|
    ensures Swapped(s, i, i) == s
  {
  }

  lemma HeadsAre(ins: Adj, list: seq<nat>)
    requires list != []
    ensures Heads(ins, list) != [] && forall b :: b in Heads(ins, list) ==> b in list
    ensures forall b :: b in list && b < |ins| && ins[b] == [] ==> b in Heads(ins, list)
    ensures Distinct(list) ==> Distinct(Heads(ins, list))
    ensures |Heads(ins, list)| == 1 || forall b :: b in Heads(ins, list) ==> b < |ins| && ins[b] == []
  {
    NoInsMembers(ins, list);
    if Distinct(list) { NoInsDistinct(ins, list); }
    var none := NoIns(ins, list);
    EndsSwappedSame(none);
    if Distinct(none) { EndsSwappedDistinct(none); }
  }

  lemma EndsSwappedHas(s: seq<nat>, b: nat)
    requires b in s
    ensures b in EndsSwapped(s)
  {
    var k :| 0 <= k < |s| && s[k] == b;
    assert EndsSwapped(s)[if k == 0 then |s| - 1 else if k == |s| - 1 then 0 else k] == b;
  }

  lemma EndsSwappedFrom(s: seq<nat>, b: nat)
    requires b in EndsSwapped(s)
    ensures b in s
  {
    var k :| 0 <= k < |s| && EndsSwapped(s)[k] == b;
    assert s[if k == 0 then |s| - 1 else if k == |s| - 1 then 0 else k] == b;
  }

  lemma EndsSwappedSame(s: seq<nat>)
    ensures forall b :: b in EndsSwapped(s) <==> b in s
    ensures s != [] ==> EndsSwapped(s) != [] && EndsSwapped(s)[0] == Last(s)
  {
    forall b | b in s ensures b in EndsSwapped(s) { EndsSwappedHas(s, b); }
    forall b | b in EndsSwapped(s) ensures b in s { EndsSwappedFrom(s, b); }
  }

  lemma EndsSwappedDistinct(s: seq<nat>)
    requires Distinct(s)
    ensures Distinct(EndsSwapped(s)) && EndsSwapped(EndsSwapped(s)) == s
  {
    SwappedDistinct(s, 0, if |s| == 0 then 0 else |s| - 1);
  }

  lemma SwappedDistinct(s: seq<nat>, i: nat, j: nat)
    requires Distinct(s) && (s != [] ==> i < |s| && j < |s|)
    ensures s != [] ==> Distinct(Swapped(s, i, j))
  {
  }

  lemma SwappedElements(s: seq<nat>, i: nat, j: nat)
    requires i < |s| && j < |s|
    ensures forall b :: b in Swapped(s, i, j) <==> b in s
  {
    var t := Swapped(s, i, j);
    forall b | b in s ensures b in t {
      var k :| 0 <= k < |s| && s[k] == b;
      assert t[if k == i then j else if k == j then i else k] == b;
    }
    forall b | b in t ensures b in s {
      var k :| 0 <= k < |t| && t[k] == b;
      assert s[if k == i then j else if k == j then i else k] == b;
    }
  }

  // ---------- leaving out ----------

  /** Roots led to by those kept are left out one after the other. */
  lemma {:induction false} PrunedSkips(outs: Adj, list: seq<nat>, kept: seq<nat>, rest: seq<nat>, n: nat)
    requires !LedToAll(outs, kept, list) && n <= |rest| && forall i :: 0 <= i < n ==> LedTo(outs, kept, rest[i])
    ensures Pruned(outs, list, kept, rest) == Pruned(outs, list, kept, rest[n..])
  {
    if n > 0 {
      assert rest[1..][n - 1..] == rest[n..];
      PrunedSkips(outs, list, kept, rest[1..], n - 1);
    }
  }

  lemma {:induction false} PrunedStays(outs: Adj, list: seq<nat>, kept: seq<nat>, rest: seq<nat>)
    requires forall i :: 0 <= i < |rest| ==> !LedTo(outs, kept + rest[..i], rest[i])
    ensures Pruned(outs, list, kept, rest) == kept + rest
    decreases |rest|
  {
    if rest != [] {
      assert kept + rest[..0] == kept;
      forall i | 0 <= i < |rest[1..]| ensures !LedTo(outs, kept + [rest[0]] + rest[1..][..i], rest[1..][i]) {
        assert kept + [rest[0]] + rest[1..][..i] == kept + rest[..i + 1];
      }
      PrunedStays(outs, list, kept + [rest[0]], rest[1..]);
      assert kept + [rest[0]] + rest[1..] == kept + rest;
    }
  }

  /** What is left out is led to by what is kept, so the last of the rest stays. */
  lemma {:induction false} PrunedKeeps(outs: Adj, list: seq<nat>, kept: seq<nat>, rest: seq<nat>)
    requires LedToAll(outs, kept + rest, list)
    ensures var p := Pruned(outs, list, kept, rest);
      LedToAll(outs, p, list) && (rest != [] ==> p != [] && Last(p) == Last(rest))
    decreases |rest|
  {
    hide LedTo;
    if rest == [] {
      assert kept + rest == kept;
    } else if !LedToAll(outs, kept, list) {
      var b, after := rest[0], rest[1..];
      assert rest == [b] + after;
      if LedTo(outs, kept, b) {
        forall c | c in list ensures LedTo(outs, kept + after, c) { LedWithout(outs, kept, b, after, c); }
        assert kept + [] == kept;
        PrunedKeeps(outs, list, kept, after);
      } else {
        assert kept + [b] + after == kept + rest;
        PrunedKeeps(outs, list, kept + [b], after);
      }
    }
  }

  lemma LedWithout(outs: Adj, kept: seq<nat>, b: nat, after: seq<nat>, c: nat)
    requires LedTo(outs, kept, b) && LedTo(outs, kept + ([b] + after), c)
    ensures LedTo(outs, kept + after, c)
  {
    var r :| r in kept + ([b] + after) && Leads(outs, r, c);
    if r in kept || r in after {
      assert r in kept + after;
    } else {
      LedToOn(outs, kept, b, c);
      LedToMore(outs, kept, kept + after, c);
    }
  }

  lemma {:induction false} PrunedFrom(outs: Adj, list: seq<nat>, kept: seq<nat>, rest: seq<nat>)
    ensures var p := Pruned(outs, list, kept, rest);
      && (forall b :: b in p ==> b in kept || b in rest) && (Distinct(kept + rest) ==> Distinct(p))
      && (forall b :: b in kept ==> b in p)
    decreases |rest|
  {
    if rest != [] && !LedToAll(outs, kept, list) {
      var b, after := rest[0], rest[1..];
      assert rest == [b] + after;
      if LedTo(outs, kept, b) {
        PrunedFrom(outs, list, kept, after);
        if Distinct(kept + rest) { DistinctWithout(kept, b, after); }
      } else {
        PrunedFrom(outs, list, kept + [b], after);
        assert kept + [b] + after == kept + rest;
        forall c | c in kept ensures c in Pruned(outs, list, kept, rest) { assert c in kept + [b]; }
      }
    }
  }

  lemma DistinctWithout(kept: seq<nat>, b: nat, after: seq<nat>)
    requires Distinct(kept + ([b] + after))
    ensures Distinct(kept + after)
  {
    var s, t := kept + ([b] + after), kept + after;
    forall i, j | 0 <= i < j < |t| ensures t[i] != t[j] {
      assert t[i] == s[if i < |kept| then i else i + 1] && t[j] == s[if j < |kept| then j else j + 1];
    }
  }

  /** A block that no other one leads to stays. */
  lemma {:induction false} PrunedHas(outs: Adj, list: seq<nat>, kept: seq<nat>, rest: seq<nat>, b: nat)
    requires b in kept || b in rest
    requires forall r :: (r in kept || r in rest) && r != b ==> !Leads(outs, r, b)
    ensures b in Pruned(outs, list, kept, rest)
    decreases |rest|
  {
    if b in kept {
      PrunedFrom(outs, list, kept, rest);
    } else if rest != [] && !LedToAll(outs, kept, list) {
      assert rest == [rest[0]] + rest[1..];
      if LedTo(outs, kept, rest[0]) {
        assert b != rest[0];
        PrunedHas(outs, list, kept, rest[1..], b);
      } else {
        PrunedHas(outs, list, kept + [rest[0]], rest[1..], b);
      }
    }
  }

  // ---------- the list ----------

  /** Nothing but itself leads to one of several heads. */
  lemma HeadsApart(g: Graph, list: seq<nat>, r: nat, b: nat)
    requires Paired(g) && Closed(g.outs, Elements(list)) && r in list && b < |g.ins| && g.ins[b] == [] && r != b
    ensures !Leads(g.outs, r, b)
  {
    InElements(list, r);
    NothingLeadsIn(g, Elements(list), r, b);
  }

  lemma InElements(list: seq<nat>, b: nat)
    requires b in list
    ensures b in Elements(list)
  {
  }

  lemma HeadsStay(g: Graph, list: seq<nat>)
    requires Paired(g) && Closed(g.outs, Elements(list)) && list != [] && Distinct(list)
    ensures Pruned(g.outs, list, [], Heads(g.ins, list)) == Heads(g.ins, list)
  {
    var given := Heads(g.ins, list);
    HeadsAre(g.ins, list);
    forall i | 0 <= i < |given| ensures !LedTo(g.outs, [] + given[..i], given[i]) {
      forall r | r in [] + given[..i] ensures !Leads(g.outs, r, given[i]) {
        assert r in given && given[i] in given;
        HeadsApart(g, list, r, given[i]);
      }
    }
    PrunedStays(g.outs, list, [], given);
  }

  /** The blocks found are different ones of the list, and none leads to one found after the given ones. */
  lemma {:induction false} FoundAre(outs: Adj, list: seq<nat>, given: seq<nat>, found: seq<nat>)
    requires Continued(outs, list, given, found) && Distinct(given) && forall b :: b in given ==> b in list
    ensures Distinct(found) && forall b :: b in found ==> b in list && (b in given || !LedTo(outs, given, b))
    decreases |found|
  {
    if |found| == |given| {
      assert found == given;
    } else {
      var n := |found| - 1;
      var rest := found[..n];
      forall i | |given| <= i < |rest| ensures FirstMissed(outs, list, rest[..i], rest[i]) {
        assert rest[..i] == found[..i];
      }
      FoundAre(outs, list, given, rest);
      assert found == rest + [found[n]] && FirstMissed(outs, list, rest, found[n]);
      if found[n] in rest { LedToListed(outs, rest, found[n]); }
      if LedTo(outs, given, found[n]) { LedToPrefix(outs, given, rest, found[n]); }
    }
  }

  /** Where the entries start: at the first block without in-edges, or at the first block if there are none. */
  ghost function FirstHead(ins: Adj, list: seq<nat>): nat
    requires list != []
  {
    if NoIns(ins, list) == [] then list[0] else NoIns(ins, list)[0]
  }

  /** The order of the last attempt. */
  lemma FoundOrder(g: Graph, list: seq<nat>, given: seq<nat>, found: seq<nat>) returns (order: seq<nat>)
    requires list != [] && Distinct(list) && given == Heads(g.ins, list) && Completed(g.outs, list, given, found)
    ensures |given| <= |found| && order == Swapped(found, |given| - 1, |found| - 1)
    ensures Distinct(order) && LedToAll(g.outs, order, list) && order != [] && Last(order) == Last(given)
    ensures forall b :: b in order ==> b in list && (b in given || !LedTo(g.outs, given, b))
    ensures forall b :: b in given ==> b in order
  {
    hide LedTo, LedToAll, Continued, Heads;
    HeadsAre(g.ins, list);
    FoundAre(g.outs, list, given, found);
    ContinuedPrefix(g.outs, list, given, found);
    order := Swapped(found, |given| - 1, |found| - 1);
    SwappedDistinct(found, |given| - 1, |found| - 1);
    SwappedElements(found, |given| - 1, |found| - 1);
    LedToAllSame(g.outs, found, order, list);
    forall b | b in given ensures b in order { GivenFound(given, found, b); }
  }

  /** What is kept of that order. */
  lemma KeptOfOrder(g: Graph, list: seq<nat>, order: seq<nat>, entries: seq<nat>)
    requires Distinct(order) && LedToAll(g.outs, order, list) && order != []
    requires entries == Pruned(g.outs, list, [], order) && forall b :: b in order ==> b in list
    requires Paired(g) && Closed(g.outs, Elements(list))
    ensures Distinct(entries) && LedToAll(g.outs, entries, list) && entries != [] && Last(entries) == Last(order)
    ensures forall b :: b in entries ==> b in order
    ensures forall b :: b in order && b < |g.ins| && g.ins[b] == [] ==> b in entries
  {
    hide Pruned, LedTo, LedToAll, Closed, Paired, Leads;
    assert [] + order == order;
    PrunedFrom(g.outs, list, [], order);
    PrunedKeeps(g.outs, list, [], order);
    forall b | b in order && b < |g.ins| && g.ins[b] == [] ensures b in entries {
      forall r | r in order && r != b ensures !Leads(g.outs, r, b) { HeadsApart(g, list, r, b); }
      PrunedHas(g.outs, list, [], order, b);
    }
  }

  /** Which blocks are entry points. */
  lemma WhichEntries(g: Graph, list: seq<nat>, rootlist: seq<nat>)
    requires EntryList(g, list, rootlist) && Paired(g) && Closed(g.outs, Elements(list)) && Distinct(list) && list != []
    ensures Distinct(rootlist) && (forall r :: r in rootlist ==> r in list) && LedToAll(g.outs, rootlist, list)
    ensures forall b :: b in list && b < |g.ins| && g.ins[b] == [] ==> b in rootlist
    ensures forall r :: r in rootlist ==> r in Heads(g.ins, list) || !LedTo(g.outs, Heads(g.ins, list), r)
    ensures rootlist != [] && rootlist[0] == FirstHead(g.ins, list)
    ensures LedToAll(g.outs, Heads(g.ins, list), list) ==>
              rootlist == if NoIns(g.ins, list) == [] then [list[0]] else NoIns(g.ins, list)
  {
    hide Pruned, LedTo, LedToAll, Completed, Closed, Paired, Leads, EndsSwapped, Heads, NoIns, FirstHead, Swapped,
      Distinct, Last, Elements;
    var given := Heads(g.ins, list);
    var entries :| EntryOrder(g, list, entries) && rootlist == EndsSwapped(entries);
    var found :| Completed(g.outs, list, given, found) && |given| <= |found| &&
        entries == Pruned(g.outs, list, [], Swapped(found, |given| - 1, |found| - 1));
    HeadsAre(g.ins, list);
    var order := FoundOrder(g, list, given, found);
    KeptOfOrder(g, list, order, entries);
    EndsSwappedDistinct(entries);
    EndsSwappedSame(entries);
    LedToAllSame(g.outs, entries, rootlist, list);
    HeadsEnd(g.ins, list);
    if LedToAll(g.outs, given, list) {
      NothingAdded(g.outs, list, given, found);
      SwappedWithItself(given, |given| - 1);
      HeadsStay(g, list);
      HeadsBack(g.ins, list);
    }
  }

  lemma HeadsEnd(ins: Adj, list: seq<nat>)
    requires list != []
    ensures Last(Heads(ins, list)) == FirstHead(ins, list)
  {
  }

  lemma HeadsBack(ins: Adj, list: seq<nat>)
    requires list != [] && Distinct(list)
    ensures EndsSwapped(Heads(ins, list)) == if NoIns(ins, list) == [] then [list[0]] else NoIns(ins, list)
  {
    NoInsDistinct(ins, list);
    EndsSwappedDistinct(NoIns(ins, list));
  }

  lemma ContinuedPrefix(outs: Adj, list: seq<nat>, given: seq<nat>, found: seq<nat>)
    requires Continued(outs, list, given, found)
    ensures given <= found
  {
  }

  lemma GivenFound(given: seq<nat>, found: seq<nat>, b: nat)
    requires given <= found && b in given
    ensures b in found
  {
    var i :| 0 <= i < |given| && given[i] == b;
    assert found[i] == b;
  }

  lemma LedToAllSame(outs: Adj, a: seq<nat>, b: seq<nat>, list: seq<nat>)
    requires LedToAll(outs, a, list) && forall r :: r in a ==> r in b
    ensures LedToAll(outs, b, list)
  {
    forall c | c in list ensures LedTo(outs, b, c) { LedToMore(outs, a, b, c); }
  }

  lemma NothingAdded(outs: Adj, list: seq<nat>, given: seq<nat>, found: seq<nat>)
    requires Completed(outs, list, given, found) && LedToAll(outs, given, list)
    ensures found == given
  {
    if |found| > |given| { NothingMissed(outs, list, found[..|given|], found[|given|]); }
  }

  /** There is one such list. */
  lemma {:induction false} OneContinuation(outs: Adj, list: seq<nat>, given: seq<nat>, a: seq<nat>, b: seq<nat>)
    requires Completed(outs, list, given, a) && Completed(outs, list, given, b)
    ensures a == b
  {
    if |b| < |a| { OneContinuationFrom(outs, list, given, b, a); } else { OneContinuationFrom(outs, list, given, a, b);
        }
  }

  lemma {:induction false} OneContinuationFrom(outs: Adj, list: seq<nat>, given: seq<nat>, a: seq<nat>, b: seq<nat>)
    requires Completed(outs, list, given, a) && Completed(outs, list, given, b) && |a| <= |b|
    ensures a == b
  {
    hide FirstMissed;
    var n := |given|;
    while n < |a|
      invariant |given| <= n <= |a| && a[..n] == b[..n]
    {
      assert FirstMissed(outs, list, a[..n], a[n]) && FirstMissed(outs, list, b[..n], b[n]);
      OneFirstMissed(outs, list, a[..n], a[n], b[n]);
      assert a[..n + 1] == a[..n] + [a[n]] && b[..n + 1] == b[..n] + [b[n]];
      n := n + 1;
    }
    assert a[..n] == a;
    if n < |b| { NothingMissed(outs, list, b[..n], b[n]); }
  }

  lemma OneFirstMissed(outs: Adj, list: seq<nat>, before: seq<nat>, x: nat, y: nat)
    requires FirstMissed(outs, list, before, x) && FirstMissed(outs, list, before, y)
    ensures x == y
  {
    var i :| 0 <= i < |list| && list[i] == x && !LedTo(outs, before, x) && forall m :: 0 <= m < i ==>
        LedTo(outs, before, list[m]);
    var j :| 0 <= j < |list| && list[j] == y && !LedTo(outs, before, y) && forall m :: 0 <= m < j ==>
        LedTo(outs, before, list[m]);
    assert !(i < j) && !(j < i);
  }

  lemma NothingMissed(outs: Adj, list: seq<nat>, before: seq<nat>, b: nat)
    requires LedToAll(outs, before, list)
    ensures !FirstMissed(outs, list, before, b)
  {
  }

  /** The entry points of a graph are determined by its edges and the order of its blocks. */
  lemma OneEntryList(g: Graph, list: seq<nat>, a: seq<nat>, b: seq<nat>)
    requires EntryList(g, list, a) && EntryList(g, list, b)
    ensures a == b
  {
    hide Completed, Pruned, Heads, EndsSwapped;
    if list != [] {
      var given := Heads(g.ins, list);
      var ea :| EntryOrder(g, list, ea) && a == EndsSwapped(ea);
      var eb :| EntryOrder(g, list, eb) && b == EndsSwapped(eb);
      var fa :| Completed(g.outs, list, given, fa) && |given| <= |fa| &&
          ea == Pruned(g.outs, list, [], Swapped(fa, |given| - 1, |fa| - 1));
      var fb :| Completed(g.outs, list, given, fb) && |given| <= |fb| &&
          eb == Pruned(g.outs, list, [], Swapped(fb, |given| - 1, |fb| - 1));
      OneContinuation(g.outs, list, given, fa, fb);
    }
  }
}
