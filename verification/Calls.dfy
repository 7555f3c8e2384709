/** The call graph: edges kept sorted by callee, cycles snipped by depth-first traces from the seeds, and the
    walk that visits callees before callers using only the parentedge links. */
module Calls {

  import opened Wrappers
  import opened CallTrace
  import opened CallForest

  datatype NodeFlag = Mark | OnlyCycleIn | CurrentCycle | EntryNode

  /** The out-edges of every function are in strictly ascending order of the callee's address, so no function has
      two edges to the same callee. */
  ghost predicate SortedCalls(outs: Rows, addr: seq<nat>) {
    && |addr| == |outs| && Targets(outs)
    && forall u, i, j :: 0 <= u < |outs| && 0 <= i < j < |outs[u]| ==> addr[outs[u][i].target] < addr[outs[u][j].target]
  }

  ghost predicate Calls(outs: Rows, u: nat, v: nat) {
    u < |outs| && exists k :: 0 <= k < |outs[u]| && outs[u][k].target == v
  }

  ghost predicate AddressOrder(graph: seq<nat>, addr: seq<nat>) {
    && |graph| == |addr| && (forall i :: 0 <= i < |graph| ==> graph[i] < |addr|)
    && (forall i, j :: 0 <= i < j < |graph| ==> addr[graph[i]] < addr[graph[j]])
    && forall v: nat :: v < |addr| ==> v in graph
  }

  // ---------- a new edge ----------

  /** Out-row with room made at slot; the slot itself keeps whatever was there. */
  ghost predicate Shifted(row: seq<CallEdge>, row': seq<CallEdge>, slot: nat)
    requires slot <= |row|
  {
    |row'| == |row| + 1 && row'[..slot] == row[..slot] && row'[slot + 1..] == row[slot..]
  }

  /** In-edges whose other half was at slot or later of node now say so. */
  function Renumber(h: CallEdge, node: nat, slot: nat): CallEdge {
    if h.source == node && h.complement >= slot then h.(complement := h.complement + 1) else h
  }

  ghost predicate Renumbered(ins: Rows, ins': Rows, node: nat, slot: nat) {
    && |ins'| == |ins| && (forall v :: 0 <= v < |ins| ==> |ins'[v]| == |ins[v]|)
    && forall v, j :: 0 <= v < |ins| && 0 <= j < |ins[v]| ==> ins'[v][j] == Renumber(ins[v][j], node, slot)
  }

  /** The tables after a new edge from source to target was put at slot. */
  ghost predicate Inserted(ins: Rows, outs: Rows, ins': Rows, outs': Rows, source: nat, target: nat, site: nat,
                           slot: nat)
    requires source < |outs| == |ins| && target < |ins| && slot <= |outs[source]|
  {
    && |outs'| == |outs| && |ins'| == |ins| && Shifted(outs[source], outs'[source], slot)
    && SameCall(outs'[source][slot], CallEdge(source, target, site, |ins[target]|, {}))
    && (forall u :: 0 <= u < |outs| && u != source ==> outs'[u] == outs[u])
    && (forall v :: 0 <= v < |ins| ==> |ins'[v]| == if v == target then |ins[v]| + 1 else |ins[v]|)
    && (forall v, j :: 0 <= v < |ins| && 0 <= j < |ins[v]| ==> ins'[v][j] == Renumber(ins[v][j], source, slot))
    && ins'[target][|ins[target]|] == CallEdge(source, target, site, slot, {})
  }

  lemma ShiftedAt(row: seq<CallEdge>, row': seq<CallEdge>, slot: nat, k: nat)
    requires slot <= |row| && Shifted(row, row', slot) && k < |row'| && k != slot
    ensures row'[k] == if k < slot then row[k] else row[k - 1]
  {
    if k < slot {
      assert row'[..slot][k] == row[..slot][k];
    } else {
      assert row'[slot + 1..][k - slot - 1] == row[slot..][k - slot - 1];
    }
  }

  /** A new edge keeps every complement right. */
  lemma InsertedLinked(ins: Rows, outs: Rows, ins': Rows, outs': Rows, source: nat, target: nat, site: nat, slot: nat)
    requires Linked(ins, outs) && source < |outs| && target < |ins| && slot <= |outs[source]|
    requires Inserted(ins, outs, ins', outs', source, target, site, slot)
    ensures Linked(ins', outs')
  {
    forall u: nat, k: nat | u < |outs'| && k < |outs'[u]| ensures OutLinked(ins', outs', u, k) {
      if u != source || k != slot {
        var k0: nat := if u == source && k > slot then k - 1 else k;
        if u == source { ShiftedAt(outs[u], outs'[u], slot, k); }
        assert OutLinked(ins, outs, u, k0);
      }
    }
    forall v: nat, j: nat | v < |ins'| && j < |ins'[v]| ensures InLinked(ins', outs', v, j) {
      if v != target || j != |ins[target]| {
        assert InLinked(ins, outs, v, j);
        var h := ins'[v][j];
        if h.source == source { ShiftedAt(outs[source], outs'[source], slot, h.complement); }
      }
    }
  }

  /** A new edge put before the first larger callee keeps the order and adds exactly one callee. */
  lemma InsertedSorted(ins: Rows, outs: Rows, ins': Rows, outs': Rows, addr: seq<nat>, source: nat, target: nat,
                       site: nat, slot: nat)
    requires SortedCalls(outs, addr) && |ins| == |outs| && source < |outs| && target < |ins| && slot <= |outs[source]|
    requires Inserted(ins, outs, ins', outs', source, target, site, slot)
    requires forall i :: 0 <= i < slot ==> addr[outs[source][i].target] < addr[target]
    requires slot < |outs[source]| ==> addr[target] < addr[outs[source][slot].target]
    ensures SortedCalls(outs', addr)
    ensures forall u: nat, v: nat :: Calls(outs', u, v) <==> Calls(outs, u, v) || (u == source && v == target)
  {
    var row, row' := outs[source], outs'[source];
    forall i | slot <= i < |row| ensures addr[target] < addr[row[i].target] {
      assert i > slot ==> addr[row[slot].target] < addr[row[i].target];
    }
    forall k: nat | k < |row'|
      ensures row'[k].target == if k < slot then row[k].target else if k == slot then target else row[k - 1].target
    {
      if k != slot { ShiftedAt(row, row', slot, k); }
    }
    forall u, i, j | 0 <= u < |outs'| && 0 <= i < j < |outs'[u]|
      ensures addr[outs'[u][i].target] < addr[outs'[u][j].target]
    {
      if u == source {
        assert row'[i].target == if i < slot then row[i].target else if i == slot then target else row[i - 1].target;
      }
    }
    forall u: nat, v: nat ensures Calls(outs', u, v) <==> Calls(outs, u, v) || (u == source && v == target) {
      if u == source {
        if k :| 0 <= k < |row| && row[k].target == v {
          assert row'[if k < slot then k else k + 1].target == v;
        }
        assert row'[slot].target == target;
      }
    }
  }

  // ---------- flags of halves and functions ----------

  ghost predicate AllCycle(row: seq<CallEdge>) {
    row != [] && forall j :: 0 <= j < |row| ==> Cycle in row[j].flags
  }

  ghost predicate OnlyCycles(ins: Rows, flags: seq<set<NodeFlag>>) {
    |flags| == |ins| && forall v :: 0 <= v < |ins| ==> (OnlyCycleIn in flags[v] <==> AllCycle(ins[v]))
  }

  /** The flags of the functions, by how far the traces have come. */
  ghost predicate FlagState(flags: seq<set<NodeFlag>>, seeds: seq<nat>, w: Walk) {
    && |flags| == |w.start| == |w.pos|
    && forall v: nat :: v < |flags| ==>
         && (Mark in flags[v] <==> Found(w, v) || v in seeds) && (CurrentCycle in flags[v] <==> Active(w, v))
         && (EntryNode in flags[v] <==> v in seeds)
  }

  ghost predicate Clean(ins: Rows, outs: Rows, parent: seq<int>, flags: seq<set<NodeFlag>>) {
    && (forall u, k :: 0 <= u < |outs| && 0 <= k < |outs[u]| ==> outs[u][k].flags == {})
    && (forall v, j :: 0 <= v < |ins| && 0 <= j < |ins[v]| ==> ins[v][j].flags == {})
    && |parent| == |flags| == |outs| && forall v :: 0 <= v < |flags| ==> flags[v] == {}
  }

  // ---------- new seeds ----------

  /** No unmarked function of the list has fewer callers than low, and none before it in address order as few. */
  ghost predicate Fewest(addr: seq<nat>, ins: Rows, flags: seq<set<NodeFlag>>, list: seq<nat>, low: nat)
    requires |addr| == |ins| == |flags|
  {
    && low < |ins| && Mark !in flags[low] && ins[low] != []
    && forall v :: v in list && v < |ins| && Mark !in flags[v] && ins[v] != [] ==>
         |ins[low]| < |ins[v]| || (|ins[low]| == |ins[v]| && addr[low] <= addr[v])
  }

  ghost predicate NewSeeds(graph: seq<nat>, addr: seq<nat>, ins: Rows, flags: seq<set<NodeFlag>>, chosen: seq<nat>)
    requires |addr| == |ins| == |flags|
  {
    && (forall a, b :: 0 <= a < b < |chosen| ==> chosen[a] != chosen[b])
    && (forall s :: s in chosen ==> s < |ins| && Mark !in flags[s])
    && if exists v :: 0 <= v < |ins| && Mark !in flags[v] && ins[v] == []
       then forall s: nat :: s in chosen <==> s < |ins| && Mark !in flags[s] && ins[s] == []
       else if exists v :: 0 <= v < |ins| && Mark !in flags[v]
       then |chosen| == 1 && Fewest(addr, ins, flags, graph, chosen[0])
       else chosen == []
  }

  ghost predicate Seeded(flags: seq<set<NodeFlag>>, flags': seq<set<NodeFlag>>, chosen: seq<nat>) {
    && |flags'| == |flags|
    && forall v: nat :: v < |flags| ==> flags'[v] == flags[v] + if v in chosen then {Mark, EntryNode} else {}
  }

  /** The part of the list looked at so far: its seeds, and the one of the others with the fewest callers. */
  ghost predicate Scanned(addr: seq<nat>, ins: Rows, flags: seq<set<NodeFlag>>, list: seq<nat>, chosen: seq<nat>,
                          low: Option<nat>)
    requires |addr| == |ins| == |flags|
  {
    && (forall s :: s in list ==> s < |ins|)
    && (forall s :: s in chosen <==> s in list && Mark !in flags[s] && ins[s] == [])
    && (forall a, b :: 0 <= a < b < |chosen| ==> chosen[a] != chosen[b])
    && match low
       case None => forall s :: s in list && Mark !in flags[s] ==> ins[s] == []
       case Some(l) => l in list && Fewest(addr, ins, flags, list, l)
  }

  lemma ScanStarts(graph: seq<nat>, addr: seq<nat>, ins: Rows, flags: seq<set<NodeFlag>>)
    requires |addr| == |ins| == |flags|
    ensures graph[..0] == [] && Scanned(addr, ins, flags, [], [], None) && Seeded(flags, flags, [])
  {
  }

  /** The scan has not come to the next function yet. */
  lemma ScanNext(graph: seq<nat>, addr: seq<nat>, ins: Rows, flags: seq<set<NodeFlag>>, i: nat, chosen: seq<nat>,
                 low: Option<nat>)
    requires AddressOrder(graph, addr) && |addr| == |ins| == |flags| && i < |graph|
    requires Scanned(addr, ins, flags, graph[..i], chosen, low)
    ensures graph[i] < |ins| && graph[i] !in chosen && (low.Some? ==> low.value < |ins|)
    ensures graph[..i + 1] == graph[..i] + [graph[i]]
    ensures forall s :: s in graph[..i] ==> s < |addr| && addr[s] < addr[graph[i]]
  {
    forall s | s in graph[..i] ensures s < |addr| && addr[s] < addr[graph[i]] {
      var j :| 0 <= j < i && graph[j] == s;
    }
    assert graph[i] !in graph[..i];
  }

  lemma ScanMarked(addr: seq<nat>, ins: Rows, flags: seq<set<NodeFlag>>, list: seq<nat>, node: nat, chosen: seq<nat>,
                   low: Option<nat>)
    requires |addr| == |ins| == |flags| && node < |ins| && Mark in flags[node] &&
               Scanned(addr, ins, flags, list, chosen, low)
    ensures Scanned(addr, ins, flags, list + [node], chosen, low)
  {
  }

  lemma ScanSeed(addr: seq<nat>, ins: Rows, flags: seq<set<NodeFlag>>, list: seq<nat>, node: nat, chosen: seq<nat>,
                 low: Option<nat>)
    requires |addr| == |ins| == |flags| && node < |ins| && node !in chosen && Mark !in flags[node] && ins[node] == []
    requires Scanned(addr, ins, flags, list, chosen, low)
    ensures Scanned(addr, ins, flags, list + [node], chosen + [node], low)
  {
  }

  lemma ScanLow(addr: seq<nat>, ins: Rows, flags: seq<set<NodeFlag>>, list: seq<nat>, node: nat, chosen: seq<nat>,
                low: Option<nat>)
    requires |addr| == |ins| == |flags| && node < |ins| && Mark !in flags[node] && ins[node] != []
    requires (forall s :: s in list ==> s < |addr| && addr[s] < addr[node])
    requires Scanned(addr, ins, flags, list, chosen, low) && (low.Some? ==> low.value < |ins|)
    ensures Scanned(addr, ins, flags, list + [node], chosen, if low.None? ||
              |ins[node]| < |ins[low.value]| then Some(node) else low)
  {
  }

  lemma ScanOne(graph: seq<nat>, addr: seq<nat>, ins: Rows, flags: seq<set<NodeFlag>>, flags': seq<set<NodeFlag>>,
                i: nat,
                chosen: seq<nat>, low: Option<nat>)
    requires AddressOrder(graph, addr) && |addr| == |ins| == |flags| && i < |graph| && Seeded(flags, flags', chosen)
    requires Scanned(addr, ins, flags, graph[..i], chosen, low)
    ensures graph[i] < |ins| && |flags'| == |flags| && graph[i] !in chosen && flags'[graph[i]] == flags[graph[i]]
    ensures low.Some? ==> low.value < |ins|
    ensures var node, list := graph[i], graph[..i + 1];
      if Mark in flags[node] then Scanned(addr, ins, flags, list, chosen, low)
      else if ins[node] == [] then Scanned(addr, ins, flags, list, chosen + [node], low)
      else Scanned(addr, ins, flags, list, chosen, if low.None? || |ins[node]| < |ins[low.value]| then Some(node)
          else low)
  {
    hide Scanned, AddressOrder;
    ScanNext(graph, addr, ins, flags, i, chosen, low);
    var node, list := graph[i], graph[..i];
    assert flags[node] + {} == flags[node];
    if Mark in flags[node] {
      ScanMarked(addr, ins, flags, list, node, chosen, low);
    } else if ins[node] == [] {
      ScanSeed(addr, ins, flags, list, node, chosen, low);
    } else {
      ScanLow(addr, ins, flags, list, node, chosen, low);
    }
  }

  lemma SeedOne(flags: seq<set<NodeFlag>>, flags': seq<set<NodeFlag>>, chosen: seq<nat>, node: nat)
    requires Seeded(flags, flags', chosen) && node < |flags| && node !in chosen
    ensures |flags'| == |flags| && Seeded(flags, flags'[node := flags'[node] + {Mark, EntryNode}], chosen + [node])
  {
    assert flags[node] + {} == flags[node];
  }

  lemma SomeIn(s: seq<nat>)
    ensures s == [] || exists v :: v in s
  {
    if s != [] { assert s[0] in s; }
  }

  lemma ScanDone(graph: seq<nat>, addr: seq<nat>, ins: Rows, flags: seq<set<NodeFlag>>, chosen: seq<nat>,
                 low: Option<nat>)
    requires AddressOrder(graph, addr) && |addr| == |ins| == |flags| && Scanned(addr, ins, flags, graph, chosen, low)
    ensures low.Some? ==> low.value < |flags|
    ensures NewSeeds(graph, addr, ins, flags, if chosen == [] && low.Some? then [low.value] else chosen)
    ensures low.None? <==> forall v :: 0 <= v < |ins| && Mark !in flags[v] ==> ins[v] == []
  {
    forall v: nat | v < |addr| ensures v in graph {}
    if low.Some? { assert Mark !in flags[low.value] && ins[low.value] != []; }
    if v :| 0 <= v < |ins| && Mark !in flags[v] && ins[v] == [] {
      assert v in chosen;
      assert forall s: nat :: s in chosen <==> s < |ins| && Mark !in flags[s] && ins[s] == [];
    } else {
      SomeIn(chosen);
      if low.None? { assert forall v: nat :: v < |ins| ==> Mark in flags[v]; }
    }
  }

  class CallGraph {
    var graph: seq<nat>               // all functions in address order
    var entryaddr: seq<nat>
    var inedge: Rows
    var outedge: Rows
    var parentedge: seq<int>
    var flags: seq<set<NodeFlag>>
    var seeds: seq<nat>

    ghost predicate Valid()
      reads this
    {
      && Linked(inedge, outedge) && SortedCalls(outedge, entryaddr) && AddressOrder(graph, entryaddr)
      && |parentedge| == |flags| == |outedge|
    }

    /** No trace was made yet. */
    ghost predicate Fresh()
      reads this
    {
      Valid() && seeds == [] && Clean(inedge, outedge, parentedge, flags)
    }

    constructor ()
      ensures Fresh() && graph == []
    {
      graph, entryaddr, inedge, outedge, parentedge, flags, seeds := [], [], [], [], [], [], [];
    }

    /** The function at addr, made on first use. */
    method AddNode(addr: nat) returns (node: nat)
      requires Valid()
      modifies this`graph, this`entryaddr, this`inedge, this`outedge, this`parentedge, this`flags
      ensures Valid() && node < |entryaddr| && entryaddr[node] == addr && (old(Fresh()) ==> Fresh())
      ensures addr in old(entryaddr) ==> entryaddr == old(entryaddr) && outedge == old(outedge) && inedge == old(inedge)
      ensures addr !in old(entryaddr) ==>
                entryaddr == old(entryaddr) + [addr] && outedge == old(outedge) + [[]] && inedge == old(inedge) + [[]]
    {
      var i := 0;
      while i < |graph| && entryaddr[graph[i]] < addr
        invariant 0 <= i <= |graph| && unchanged(this) && forall j :: 0 <= j < i ==> entryaddr[graph[j]] < addr
      {
        i := i + 1;
      }
      if i < |graph| && entryaddr[graph[i]] == addr { return graph[i]; }
      AddressMissing(graph, entryaddr, i, addr);
      AddressInserted(graph, entryaddr, i, addr);
      MoreRowsLinked(inedge, outedge);
      node := |entryaddr|;
      graph := graph[..i] + [node] + graph[i..];
      entryaddr := entryaddr + [addr];
      inedge, outedge, parentedge, flags := inedge + [[]], outedge + [[]], parentedge + [-1], flags + [{}];
    }

    /** Room for an edge at slot of the out-list of node. */
    method InsertBlankEdge(node: nat, slot: nat)
      requires Linked(inedge, outedge) && node < |outedge| && slot <= |outedge[node]|
      modifies this`inedge, this`outedge
      ensures |outedge| == |old(outedge)| && Shifted(old(outedge[node]), outedge[node], slot)
      ensures forall u :: 0 <= u < |outedge| && u != node ==> outedge[u] == old(outedge[u])
      ensures Renumbered(old(inedge), inedge, node, slot)
      ensures outedge[node][slot].flags == if slot < |old(outedge[node])| then old(outedge[node][slot].flags) else {}
    {
      ghost var row, ins := outedge[node], inedge;
      outedge := outedge[node := outedge[node] + [CallEdge(0, 0, 0, 0, {})]];
      NothingBeyond(ins, old(outedge), node);
      if |outedge[node]| > 1 {
        var i := |outedge[node]| - 2;
        while i >= slot
          invariant slot - 1 <= i < |row| && |outedge| == |old(outedge)|
          invariant forall u :: 0 <= u < |outedge| && u != node ==> outedge[u] == old(outedge[u])
          invariant Moved(row, outedge[node], i + 1) && Renumbered(ins, inedge, node, i + 1)
        {
          assert OutLinked(ins, old(outedge), node, i);
          MoveOne(row, outedge[node], i);
          BumpRenumbers(ins, old(outedge), inedge, node, i);
          var newi := i + 1;
          outedge := outedge[node := outedge[node][newi := outedge[node][i]]];
          var edge := outedge[node][newi];
          var nodeout := edge.target;
          inedge := inedge[nodeout := inedge[nodeout][edge.complement :=
            inedge[nodeout][edge.complement].(complement := inedge[nodeout][edge.complement].complement + 1)]];
          i := i - 1;
        }
      }
    }

    /** An edge from source to target, unless there is one; the out-list stays sorted by callee address. */
    method AddEdge(source: nat, target: nat, addr: nat) returns (ghost slot: nat)
      requires Valid() && source < |outedge| && target < |outedge|
      modifies this`inedge, this`outedge
      ensures Valid() && |outedge| == |old(outedge)| && (old(Fresh()) ==> Fresh())
      ensures forall u: nat, v: nat :: Calls(outedge, u, v) <==>
                Calls(old(outedge), u, v) || (u == source && v == target)
      ensures Calls(old(outedge), source, target) ==> outedge == old(outedge) && inedge == old(inedge)
      ensures !Calls(old(outedge), source, target) ==>
                slot <= |old(outedge[source])| &&
                    Inserted(old(inedge), old(outedge), inedge, outedge, source, target, addr, slot)
    {
      slot := 0;
      var i := 0;
      while i < |outedge[source]|
        invariant unchanged(this) && 0 <= i <= |outedge[source]|
        invariant forall j :: 0 <= j < i ==> entryaddr[outedge[source][j].target] < entryaddr[target]
      {
        var outnode := outedge[source][i].target;
        if outnode == target { return; }
        if entryaddr[target] < entryaddr[outnode] { break; }
        DistinctAddresses(graph, entryaddr, target, outnode);
        i := i + 1;
      }
      assert forall k :: i < k < |outedge[source]| ==>
        entryaddr[outedge[source][i].target] < entryaddr[outedge[source][k].target];
      slot := i;
      EdgeAt(source, target, addr, i);
    }

    /** The edge itself, once its slot is known. */
    method EdgeAt(source: nat, target: nat, addr: nat, i: nat)
      requires Valid() && source < |outedge| && target < |outedge| && i <= |outedge[source]|
      requires forall j :: 0 <= j < i ==> entryaddr[outedge[source][j].target] < entryaddr[target]
      requires forall j :: i <= j < |outedge[source]| ==> entryaddr[target] < entryaddr[outedge[source][j].target]
      modifies this`inedge, this`outedge
      ensures Valid() && |outedge| == |old(outedge)| && (old(Fresh()) ==> Fresh())
      ensures Inserted(old(inedge), old(outedge), inedge, outedge, source, target, addr, i)
      ensures forall u: nat, v: nat :: Calls(outedge, u, v) <==>
                Calls(old(outedge), u, v) || (u == source && v == target)
    {
      ghost var ins: Rows, outs: Rows := inedge, outedge;
      InsertBlankEdge(source, i);
      var toi := |inedge[target]|;
      inedge := inedge[target := inedge[target] + [CallEdge(source, target, addr, i, {})]];
      outedge := outedge[source := outedge[source][i := CallEdge(source, target, addr, toi, outedge[source][i].flags)]];
      InsertedLinked(ins, outs, inedge, outedge, source, target, addr, i);
      InsertedSorted(ins, outs, inedge, outedge, entryaddr, source, target, addr, i);
      if old(Fresh()) { InsertedClean(ins, outs, inedge, outedge, source, target, addr, i, parentedge, flags); }
    }

    /** The out-edge at slot i of node closes a cycle. */
    method SnipEdge(node: nat, i: nat)
      requires Linked(inedge, outedge) && node < |outedge| && i < |outedge[node]| && outedge[node][i].flags == {}
      requires InFlags(inedge, outedge) && OnlyCycles(inedge, flags)
      modifies this`inedge, this`outedge, this`flags
      ensures outedge == WithFlags(old(outedge), node, i, SNIPPED) && SameCalls(old(inedge), inedge)
      ensures InFlags(inedge, outedge) && OnlyCycles(inedge, flags)
      ensures SameButOnlyCycle(old(flags), flags)
    {
      ghost var ins, outs := inedge, outedge;
      SnipKeepsInFlags(ins, outs, node, i);
      assert OutLinked(ins, outs, node, i);
      outedge := outedge[node := outedge[node][i := outedge[node][i].(flags :=
          outedge[node][i].flags + {Cycle, DontFollow})]];
      var toi := outedge[node][i].complement;
      var to := outedge[node][i].target;
      assert InLinked(ins, outs, to, toi);
      assert outs[node][i].flags + {Cycle, DontFollow} == SNIPPED && ins[to][toi].flags + {Cycle} == {Cycle};
      inedge := inedge[to := inedge[to][toi := inedge[to][toi].(flags := inedge[to][toi].flags + {Cycle})]];
      assert inedge == WithFlags(ins, to, toi, {Cycle});
      SameWithFlags(ins, to, toi, {Cycle});
      var onlycycle := true;
      var j := 0;
      while j < |inedge[to]|
        invariant 0 <= j <= |inedge[to]| && onlycycle && forall x :: 0 <= x < j ==> Cycle in inedge[to][x].flags
        invariant inedge == WithFlags(ins, to, toi, {Cycle}) && outedge == WithFlags(outs, node, i, SNIPPED) &&
                    flags == old(flags)
      {
        if Cycle !in inedge[to][j].flags {
          onlycycle := false;
          break;
        }
        j := j + 1;
      }
      if onlycycle {
        flags := flags[to := flags[to] + {OnlyCycleIn}];
      }
    }

    /** Everything a trace keeps. */
    ghost predicate Trace(w: Walk, stack: seq<LeafIterator>)
      reads this
    {
      && Linked(inedge, outedge) && Tracing(inedge, outedge, parentedge, seeds, w, stack)
      && InFlags(inedge, outedge) && OnlyCycles(inedge, flags) && FlagState(flags, seeds, w)
    }

    /** Traces everything that can be reached from root over functions not met before; cycles are snipped at the
        edge that closes them. */
    method SnipCycles(root: nat, ghost slot: int, ghost parent0: seq<int>, ghost w0: Walk) returns (ghost w: Walk)
      requires root < |outedge| == |parent0| && parentedge == parent0[root := slot] && !Found(w0, root) && root in seeds
      requires Linked(inedge, outedge) && Tracing(inedge, outedge, parent0, seeds, w0, [])
      requires InFlags(inedge, outedge) && OnlyCycles(inedge, flags) && FlagState(flags, seeds, w0)
      requires forall s :: s in seeds && s != root ==> s < |inedge| && (Found(w0, s) || |inedge[s]| == 0)
      modifies this`inedge, this`outedge, this`flags, this`parentedge
      ensures Trace(w, []) && SameCalls(old(inedge), inedge) && SameCalls(old(outedge), outedge)
      ensures Extends(w0, old(parentedge), w, parentedge) && parentedge[root] == slot
      ensures Done(w, root) && w.start[root] == |w0.order| && w.pos[root] == |w.order| - 1
      ensures forall s :: s in seeds && s != root && Found(w, s) ==> Found(w0, s)
    {
      hide Tracing, Linked, InFlags, OnlyCycles, SameCalls;
      ghost var parent1 := parentedge;
      TraceSizes(inedge, outedge, parent0, seeds, w0, []);
      Begin(inedge, outedge, parent0, seeds, w0, root, slot);
      w := Meet(w0, root);
      MeetFlags(inedge, flags, seeds, w0, root);
      BeginExtends(w0, parent1, root);
      flags := flags[root := flags[root] + {CurrentCycle}];
      var stack := [LeafIterator(root, 0)];
      SameCallsReflexive(inedge);
      SameCallsReflexive(outedge);
      while stack != []
        invariant Trace(w, stack) && SameCalls(old(inedge), inedge) && SameCalls(old(outedge), outedge)
        invariant Extends(w0, parent1, w, parentedge) && parentedge[root] == slot && Found(w, root) &&
                    w.start[root] == |w0.order|
        invariant if stack == [] then Done(w, root) && w.pos[root] == |w.order| - 1 else stack[0].node == root
        invariant forall s :: s in seeds && s != root && Found(w, s) ==> Found(w0, s)
        invariant forall s :: s in seeds && s != root ==> s < |inedge| && (Found(w0, s) || |inedge[s]| == 0)
        decreases Unfound(w), Undone(w), Remaining(outedge, stack)
      {
        var cur := stack[|stack| - 1].node;
        var st := stack[|stack| - 1].outslot;
        TopFrame(inedge, outedge, parentedge, seeds, w, stack);
        if st >= |outedge[cur]| {
          Pop(inedge, outedge, parentedge, seeds, w, stack);
          FinishFlags(inedge, flags, seeds, w, cur);
          FinishProgress(w0, parent1, w, parentedge, cur);
          w := Finish(w, cur);
          flags := flags[cur := flags[cur] - {CurrentCycle}];
          stack := stack[..|stack| - 1];
        } else {
          ghost var ins: Rows, outs: Rows := inedge, outedge;
          w, stack := SnipStep(cur, st, root, parent1, w0, w, stack);
          SameCallsTransitive(old(inedge), ins, inedge);
          SameCallsTransitive(old(outedge), outs, outedge);
          SameSizes(ins, inedge);
        }
      }
    }

    /** One out-edge of the function on top of the stack. */
    method SnipStep(cur: nat, st: nat, ghost root: nat, ghost parent1: seq<int>, ghost w0: Walk, ghost w: Walk,
                    stack: seq<LeafIterator>)
      returns (ghost w': Walk, stack': seq<LeafIterator>)
      requires Trace(w, stack) && stack != [] && stack[|stack| - 1] == LeafIterator(cur, st) && cur < |outedge| &&
                 st < |outedge[cur]|
      requires Extends(w0, parent1, w, parentedge) && root < |parentedge| && Found(w, root)
      requires forall s :: s in seeds && s != root ==> s < |inedge| && (Found(w0, s) || |inedge[s]| == 0)
      modifies this`inedge, this`outedge, this`flags, this`parentedge
      ensures Trace(w', stack') && |stack'| >= |stack| && stack'[0].node == stack[0].node
      ensures SameCalls(old(inedge), inedge) && SameCalls(old(outedge), outedge)
      ensures Extends(w0, parent1, w', parentedge) && root < |parentedge| && parentedge[root] == old(parentedge[root])
      ensures Found(w', root) && w'.start[root] == w.start[root]
      ensures forall s :: s in seeds && s != root && Found(w', s) ==> Found(w, s)
      ensures Unfound(w') < Unfound(w) || (Unfound(w') == Unfound(w) && Undone(w') == Undone(w) &&
                0 <= Remaining(outedge, stack') < Remaining(old(outedge), stack))
    {
      hide Tracing, InFlags, OnlyCycles, Unfound, Undone, FlagState, Extends, SameCalls, Linked;
      ghost var ins: Rows, outs: Rows := inedge, outedge;
      TopFrame(inedge, outedge, parentedge, seeds, w, stack);
      NotWaiting(inedge, outedge, cur, st);
      SameCallsReflexive(inedge);
      SameWithFlags(outs, cur, st, SNIPPED);
      SameWithFlags(outs, cur, st, {DontFollow});
      stack' := stack[|stack| - 1 := LeafIterator(cur, st + 1)];
      w' := Advance(w, cur);
      AdvanceProgress(flags, seeds, w0, parent1, w, parentedge, cur);
      assert Cycle !in outedge[cur][st].flags;     // not snipped before
      var next := outedge[cur][st].target;
      FlagsOf(flags, seeds, w, next);
      if Found(w0, next) { FoundStays(w0, parent1, w, parentedge, next); }
      TraceSizes(inedge, outedge, parentedge, seeds, w, stack);
      if CurrentCycle in flags[next] {
        Pass(inedge, outedge, parentedge, seeds, w, stack, SNIPPED);
        ghost var flags0 := flags;
        SnipEdge(cur, st);
        SnipFlags(flags0, flags, seeds, w');
        TracingSameIns(ins, inedge, outedge, parentedge, seeds, w', stack');
        SameCallsLinked(ins, outs, inedge, outedge);
      } else if Mark in flags[next] {
        Pass(inedge, outedge, parentedge, seeds, w, stack, {DontFollow});
        PassKeepsInFlags(ins, outs, cur, st);
        outedge := outedge[cur := outedge[cur][st := outedge[cur][st].(flags :=
            outedge[cur][st].flags + {DontFollow})]];
        assert {} + {DontFollow} == {DontFollow};
        SameCallsLinked(ins, outs, inedge, outedge);
      } else {
        Descend(inedge, outedge, parentedge, seeds, w, stack);
        FoundLater(w0, parent1, w, parentedge, next);
        MeetFlags(inedge, flags, seeds, w', next);
        MeetProgress(w0, parent1, w', parentedge, next, outedge[cur][st].complement);
        SameCallsReflexive(outedge);
        parentedge := parentedge[next := outedge[cur][st].complement];
        flags := flags[next := flags[next] + {CurrentCycle, Mark}];
        stack' := stack' + [LeafIterator(next, 0)];
        w' := Meet(w', next);
      }
    }

    /** New seeds: every unmarked function without callers; or, where every unmarked function has some, the first
        one with the fewest. */
    method FindNoEntry() returns (allcovered: bool, ghost chosen: seq<nat>)
      requires AddressOrder(graph, entryaddr) && |flags| == |inedge| == |entryaddr|
      requires forall v :: 0 <= v < |flags| && Mark !in flags[v] ==> OnlyCycleIn !in flags[v]
      modifies this`seeds, this`flags
      ensures seeds == old(seeds) + chosen && NewSeeds(graph, entryaddr, inedge, old(flags), chosen)
      ensures Seeded(old(flags), flags, chosen)
      ensures allcovered <==> forall v :: 0 <= v < |inedge| && Mark !in old(flags[v]) ==> inedge[v] == []
      ensures allcovered || chosen != []
    {
      hide Seeded, Scanned, NewSeeds, AddressOrder;
      ScanStarts(graph, entryaddr, inedge, flags);
      chosen := [];
      var lownode: Option<nat> := None;
      allcovered := true;
      var newseeds := false;
      var i := 0;
      while i < |graph|
        invariant 0 <= i <= |graph| && seeds == old(seeds) + chosen && Seeded(old(flags), flags, chosen)
        invariant Scanned(entryaddr, inedge, old(flags), graph[..i], chosen, lownode)
        invariant (newseeds <==> chosen != []) && (allcovered <==> lownode.None?)
      {
        var node := graph[i];
        ScanOne(graph, entryaddr, inedge, old(flags), flags, i, chosen, lownode);
        i := i + 1;
        if Mark in flags[node] { continue; }
        if |inedge[node]| == 0 || OnlyCycleIn in flags[node] {
          SeedOne(old(flags), flags, chosen, node);
          seeds := seeds + [node];
          chosen := chosen + [node];
          flags := flags[node := flags[node] + {Mark, EntryNode}];
          newseeds := true;
        } else {
          allcovered := false;
          if lownode.None? || |inedge[node]| < |inedge[lownode.value]| {
            lownode := Some(node);
          }
        }
      }
      assert graph[..|graph|] == graph;
      ScanDone(graph, entryaddr, inedge, old(flags), chosen, lownode);
      if !newseeds && !allcovered {
        SeedOne(old(flags), flags, chosen, lownode.value);
        assert chosen + [lownode.value] == [lownode.value];
        seeds := seeds + [lownode.value];
        chosen := chosen + [lownode.value];
        flags := flags[lownode.value := flags[lownode.value] + {Mark, EntryNode}];
      }
    }

    /** The destination of the walk from an out-slot of node, or of the seeds. */
    method PushPossible(node: Option<nat>, slot: nat) returns (r: Option<nat>)
      requires node.Some? ==> node.value < |outedge| && slot <= |outedge[node.value]|
      ensures r == Pushed(outedge, seeds, node, slot)
    {
      if node.None? {
        if slot >= |seeds| { return None; }
        return Some(seeds[slot]);
      }
      var u, outslot := node.value, slot;
      while outslot < |outedge[u]|
        invariant slot <= outslot <= |outedge[u]|
        invariant Follow(outedge[u], slot, |outedge[u]|) == Follow(outedge[u], outslot, |outedge[u]|)
      {
        if DontFollow in outedge[u][outslot].flags {
          outslot := outslot + 1;
        } else {
          return Some(outedge[u][outslot].target);
        }
      }
      return None;
    }

    /** Where the edge or the seed that leads to node is. */
    method PopPossible(node: nat) returns (r: Option<nat>, outslot: int)
      requires node < |flags| == |parentedge| == |inedge| &&
                 (EntryNode in flags[node] || 0 <= parentedge[node] < |inedge[node]|)
      ensures EntryNode in flags[node] ==> r == None && outslot == parentedge[node]
      ensures EntryNode !in flags[node] ==>
                r == Some(inedge[node][parentedge[node]].source) && outslot == inedge[node][parentedge[node]].complement
    {
      if EntryNode in flags[node] { return None, parentedge[node]; }
      return Some(inedge[node][parentedge[node]].source), inedge[node][parentedge[node]].complement;
    }

    ghost predicate Walkable(w: Walk)
      reads this
    {
      && Snipped(inedge, outedge, parentedge, seeds, w) && |flags| == |inedge|
      && forall v :: 0 <= v < |flags| ==> (EntryNode in flags[v] <==> v in seeds)
    }

    /** The function after node in the finish order, found without any memory of the walk. */
    method NextLeaf(node: nat, ghost w: Walk) returns (r: Option<nat>)
      requires Walkable(w) && node < |outedge|
      ensures node in w.order && w.order[w.pos[node]] == node
      ensures r == if w.pos[node] + 1 < |w.order| then Some(w.order[w.pos[node] + 1]) else None
    {
      hide Snipped, Heading, Counts;
      Positioned(inedge, outedge, parentedge, seeds, w, node);
      ghost var t := w.pos[node] + 1;
      if node in seeds {
        PopSeed(inedge, outedge, parentedge, seeds, w, node);
      } else {
        PopChild(inedge, outedge, parentedge, seeds, w, node);
      }
      var outslot;
      r, outslot := PopPossible(node);
      outslot := outslot + 1;
      HeadingSlot(inedge, outedge, parentedge, seeds, w, r, outslot, t);
      while true
        invariant outslot >= 0 && Heading(outedge, seeds, w, r, outslot, t) && Height(w, r) >= 0
        decreases Height(w, r)
      {
        PushHeads(inedge, outedge, parentedge, seeds, w, r, outslot, t);
        HeadingSlot(inedge, outedge, parentedge, seeds, w, r, outslot, t);
        var pushnode := PushPossible(r, outslot);
        if pushnode == None { break; }
        r, outslot := pushnode, 0;
      }
    }

    /** Traces from the seeds that wait. */
    method WalkSeeds(first: nat, ghost w0: Walk) returns (walked: nat, ghost w: Walk)
      requires Trace(w0, []) && SeedsPlaced(inedge, parentedge, seeds, w0, first) && first <= |seeds|
      modifies this`inedge, this`outedge, this`flags, this`parentedge
      ensures walked == |seeds| && Trace(w, []) && SeedsPlaced(inedge, parentedge, seeds, w, walked)
      ensures SameCalls(old(inedge), inedge) && SameCalls(old(outedge), outedge) &&
                |parentedge| == |flags| == |inedge| == |outedge|
      ensures Undone(w) <= Undone(w0) && (first < |seeds| ==> Undone(w) < Undone(w0))
      ensures forall v: nat :: Found(w0, v) || v in seeds ==> Done(w, v)
    {
      hide Tracing, Linked, InFlags, OnlyCycles, SameCalls, SeedsPlaced, FlagState, Undone;
      walked, w := first, w0;
      SameCallsReflexive(inedge);
      SameCallsReflexive(outedge);
      while walked < |seeds|
        invariant first <= walked <= |seeds| && Trace(w, []) && SeedsPlaced(inedge, parentedge, seeds, w, walked)
        invariant SameCalls(old(inedge), inedge) && SameCalls(old(outedge), outedge)
        invariant Undone(w) <= Undone(w0) && (first < walked ==> Undone(w) < Undone(w0))
        invariant forall v: nat :: Found(w0, v) ==> Found(w, v)
      {
        ghost var ins: Rows, outs: Rows, parent0 := inedge, outedge, parentedge;
        TraceSizes(ins, outs, parent0, seeds, w, []);
        SeedReady(ins, outs, parent0, seeds, w, walked);
        var rootnode := seeds[walked];
        parentedge := parentedge[rootnode := walked];
        ghost var w1 := w;
        w := SnipCycles(rootnode, walked, parent0, w);
        SameSizes(ins, inedge);
        SeedTraced(ins, inedge, parent0, parentedge, seeds, w1, w, walked);
        SameCallsTransitive(old(inedge), ins, inedge);
        SameCallsTransitive(old(outedge), outs, outedge);
        walked := walked + 1;
      }
      TraceSizes(inedge, outedge, parentedge, seeds, w, []);
      AllSeedsDone(inedge, outedge, parentedge, seeds, w);
      FlagSizes(flags, seeds, w);
    }

    /** Picks new seeds and traces from them. */
    method Round(walked0: nat, ghost w0: Walk) returns (allcovered: bool, walked: nat, ghost w: Walk)
      requires walked0 == |seeds| && Trace(w0, []) && SeedsPlaced(inedge, parentedge, seeds, w0, walked0) &&
                 AddressOrder(graph, entryaddr)
      requires |parentedge| == |flags| == |inedge| == |outedge| == |entryaddr|
      modifies this`inedge, this`outedge, this`flags, this`parentedge, this`seeds
      ensures walked == |seeds| && Trace(w, []) && SeedsPlaced(inedge, parentedge, seeds, w, walked)
      ensures SameCalls(old(inedge), inedge) && SameCalls(old(outedge), outedge)
      ensures |parentedge| == |flags| == |inedge| == |outedge| == |entryaddr|
      ensures allcovered ==> forall v: nat :: v < |outedge| ==> Done(w, v)
      ensures !allcovered ==> Undone(w) < Undone(w0)
    {
      hide Tracing, Linked, InFlags, OnlyCycles, SameCalls, SeedsPlaced, FlagState, Undone, AddressOrder, NewSeeds,
        Seeded;
      UnmetHasNoCycles(inedge, outedge, parentedge, flags, seeds, w0);
      ghost var flags0, seeds0, ins: Rows, outs: Rows, chosen := flags, seeds, inedge, outedge, [];
      allcovered, chosen := FindNoEntry();
      SeedsAdded(graph, entryaddr, inedge, outedge, parentedge, flags0, flags, seeds0, chosen, w0);
      walked, w := WalkSeeds(walked0, w0);
      SameSizes(ins, inedge);
      SameSizes(outs, outedge);
    }

    lemma ValidSizes()
      requires Valid()
      ensures |inedge| == |outedge| == |entryaddr|
    {
    }

    /** Snips all cycles, once. */
    method CycleStructure(ghost w0: Walk) returns (ghost w: Walk)
      requires Valid() && (Fresh() || (seeds != [] && Walkable(w0)))
      modifies this`inedge, this`outedge, this`flags, this`parentedge, this`seeds
      ensures Valid() && Walkable(w) && SameCalls(old(inedge), inedge) && SameCalls(old(outedge), outedge)
      ensures old(seeds) != [] ==> unchanged(this) && w == w0
    {
      hide Tracing, Linked, InFlags, OnlyCycles, SameCalls, SeedsPlaced, FlagState, Undone, SortedCalls, AddressOrder,
        NewSeeds, Seeded;
      ValidSizes();
      SameCallsReflexive(inedge);
      SameCallsReflexive(outedge);
      if seeds != [] { return w0; }
      var walked := 0;
      var allcovered := false;
      w := NothingMet(|outedge|);
      TracesBegin(inedge, outedge, parentedge, flags);
      while !allcovered
        invariant walked == |seeds| && Trace(w, []) && SeedsPlaced(inedge, parentedge, seeds, w, walked)
        invariant SameCalls(old(inedge), inedge) && SameCalls(old(outedge), outedge) &&
                    |parentedge| == |flags| == |inedge| == |outedge| == |entryaddr|
        invariant allcovered ==> forall v: nat :: v < |outedge| ==> Done(w, v)
        decreases !allcovered, Undone(w)
      {
        ghost var ins: Rows, outs: Rows := inedge, outedge;
        allcovered, walked, w := Round(walked, w);
        SameCallsTransitive(old(inedge), ins, inedge);
        SameCallsTransitive(old(outedge), outs, outedge);
      }
      FlagsOfSeeds(flags, seeds, w);
      ClearMarks();
      SameCallsSorted(old(outedge), outedge, entryaddr);
    }

    method ClearMarks()
      requires |flags| == |entryaddr| && AddressOrder(graph, entryaddr)
      modifies this`flags
      ensures |flags| == |old(flags)| && forall v :: 0 <= v < |flags| ==> flags[v] == old(flags[v]) - {Mark}
    {
      var i := 0;
      while i < |graph|
        invariant 0 <= i <= |graph| && |flags| == |old(flags)|
        invariant forall v: nat :: v < |flags| ==> flags[v] == if v in graph[..i] then old(flags)[v] - {Mark}
                    else old(flags)[v]
      {
        assert graph[..i + 1] == graph[..i] + [graph[i]];
        flags := flags[graph[i] := flags[graph[i]] - {Mark}];
        i := i + 1;
      }
      assert graph[..i] == graph;
    }


    /** The first function of the finish order: the first leaf below the first seed. */
    method InitLeafWalk(ghost w0: Walk) returns (r: Option<nat>, ghost w: Walk)
      requires Valid() && (Fresh() || (seeds != [] && Walkable(w0)))
      modifies this`inedge, this`outedge, this`flags, this`parentedge, this`seeds
      ensures Valid() && Walkable(w) && SameCalls(old(inedge), inedge) && SameCalls(old(outedge), outedge)
      ensures r == if |w.order| > 0 then Some(w.order[0]) else None
    {
      w := CycleStructure(w0);
      hide Snipped;
      FirstSeed(inedge, outedge, parentedge, seeds, w);
      if seeds == [] { return None, w; }
      r := FirstLeaf(w);
    }

    method FirstLeaf(ghost w: Walk) returns (r: Option<nat>)
      requires Walkable(w) && seeds != []
      ensures |w.order| > 0 && r == Some(w.order[0])
    {
      hide Snipped, Heading, Counts;
      FirstSeed(inedge, outedge, parentedge, seeds, w);
      var node: nat := seeds[0];
      while true
        invariant Heading(outedge, seeds, w, Some(node), 0, 0) && Height(w, Some(node)) >= 0 && node < |outedge|
        decreases Height(w, Some(node))
      {
        PushHeads(inedge, outedge, parentedge, seeds, w, Some(node), 0, 0);
        var pushnode := PushPossible(Some(node), 0);
        if pushnode == None { break; }
        node := pushnode.value;
      }
      r := Some(node);
    }

    /** All functions, each once, callees before callers unless the call was snipped. */
    method LeafOrder(ghost w0: Walk) returns (visited: seq<nat>)
      requires Valid() && (Fresh() || (seeds != [] && Walkable(w0)))
      modifies this`inedge, this`outedge, this`flags, this`parentedge, this`seeds
      ensures Valid() && SameCalls(old(inedge), inedge) && SameCalls(old(outedge), outedge)
      ensures CalleesBefore(outedge, visited)
    {
      hide Snipped, SameCalls, Linked, SortedCalls, AddressOrder, Clean, CalleesBefore;
      var node;
      ghost var w;
      node, w := InitLeafWalk(w0);
      CalleesFirst(inedge, outedge, parentedge, seeds, w);
      visited := VisitAll(node, w);
    }

    method VisitAll(first: Option<nat>, ghost w: Walk) returns (visited: seq<nat>)
      requires Walkable(w) && first == if |w.order| > 0 then Some(w.order[0]) else None
      ensures visited == w.order
    {
      hide Snipped;
      visited := [];
      var node := first;
      while node != None
        invariant |visited| <= |w.order| && visited == w.order[..|visited|]
        invariant node == if |visited| < |w.order| then Some(w.order[|visited|]) else None
        decreases |w.order| - |visited|
      {
        visited := visited + [node.value];
        PositionOf(inedge, outedge, parentedge, seeds, w, |visited| - 1);
        node := NextLeaf(node.value, w);
      }
    }
  }

  /** The entries of row from slot on were moved up by one; the slot still has what was there. */
  ghost predicate Moved(row: seq<CallEdge>, row': seq<CallEdge>, slot: nat)
    requires slot <= |row|
  {
    Shifted(row, row', slot) && row'[slot].flags == if slot < |row| then row[slot].flags else {}
  }

  lemma MoveOne(row: seq<CallEdge>, row': seq<CallEdge>, i: nat)
    requires i < |row| && Moved(row, row', i + 1)
    ensures row'[i] == row[i] && Moved(row, row'[i + 1 := row'[i]], i)
  {
    assert row'[..i + 1][i] == row[..i + 1][i];
    var moved := row'[i + 1 := row'[i]];
    assert moved[..i] == row[..i] by { assert row'[..i] == row'[..i + 1][..i]; }
    assert moved[i + 1..] == [row[i]] + row'[i + 2..];
  }

  lemma NothingBeyond(ins: Rows, outs: Rows, node: nat)
    requires Linked(ins, outs) && node < |outs|
    ensures Renumbered(ins, ins, node, |outs[node]|)
  {
    forall v: nat, j: nat | v < |ins| && j < |ins[v]| ensures Renumber(ins[v][j], node, |outs[node]|) == ins[v][j] {
      assert InLinked(ins, outs, v, j);
    }
  }

  lemma AddressMissing(graph: seq<nat>, addr: seq<nat>, i: nat, a: nat)
    requires AddressOrder(graph, addr) && i <= |graph| && (forall j :: 0 <= j < i ==> addr[graph[j]] < a)
    requires i < |graph| ==> a < addr[graph[i]]
    ensures a !in addr
  {
    forall v: nat | v < |addr| ensures addr[v] != a {
      assert v in graph;
      var j :| 0 <= j < |graph| && graph[j] == v;
      assert i < j ==> addr[graph[i]] < addr[graph[j]];
    }
  }

  lemma AddressInserted(graph: seq<nat>, addr: seq<nat>, i: nat, a: nat)
    requires AddressOrder(graph, addr) && i <= |graph| && (forall j :: 0 <= j < i ==> addr[graph[j]] < a)
    requires i < |graph| ==> a < addr[graph[i]]
    ensures AddressOrder(graph[..i] + [|addr|] + graph[i..], addr + [a])
  {
    var g', addr' := graph[..i] + [|addr|] + graph[i..], addr + [a];
    assert forall k :: 0 <= k < |g'| ==> g'[k] == if k < i then graph[k] else if k == i then |addr| else graph[k - 1];
    forall v: nat | v < |addr'| ensures v in g' {
      if v < |addr| {
        assert v in graph;
        var j :| 0 <= j < |graph| && graph[j] == v;
        assert g'[if j < i then j else j + 1] == v;
      } else {
        assert g'[i] == v;
      }
    }
    forall x, y | 0 <= x < y < |g'| ensures addr'[g'[x]] < addr'[g'[y]] {
      assert i < |graph| && y > i + 1 ==> addr[graph[i]] < addr[graph[y - 1]];
    }
  }

  // ---------- the traces ----------

  ghost function Unfound(w: Walk): set<nat> {
    set v: nat | v < |w.start| && w.start[v] < 0
  }

  ghost function Undone(w: Walk): set<nat> {
    set v: nat | v < |w.pos| && w.pos[v] < 0
  }

  ghost function Remaining(outs: Rows, stack: seq<LeafIterator>): int {
    if stack == [] || stack[|stack| - 1].node >= |outs| then 0
        else |outs[stack[|stack| - 1].node]| - stack[|stack| - 1].outslot
  }

  /** Flags that differ in onlycyclein at most. */
  ghost predicate SameButOnlyCycle(a: seq<set<NodeFlag>>, b: seq<set<NodeFlag>>) {
    |a| == |b| && forall v, f :: 0 <= v < |a| && f != OnlyCycleIn ==> (f in a[v] <==> f in b[v])
  }

  lemma TraceSizes(ins: Rows, outs: Rows, parent: seq<int>, seeds: seq<nat>, w: Walk, stack: seq<LeafIterator>)
    requires Tracing(ins, outs, parent, seeds, w, stack)
    ensures |w.start| == |w.pos| == |w.next| == |parent| == |outs| == |ins|
    ensures forall v: nat :: v < |outs| && Done(w, v) ==> Found(w, v)
  {
  }

  lemma SameCallsReflexive(a: Rows)
    ensures SameCalls(a, a)
  {
  }

  lemma TracingSameIns(ins: Rows, ins': Rows, outs: Rows, parent: seq<int>, seeds: seq<nat>, w: Walk,
                       stack: seq<LeafIterator>)
    requires Tracing(ins, outs, parent, seeds, w, stack) && SameCalls(ins, ins')
    ensures Tracing(ins', outs, parent, seeds, w, stack)
  {
    hide AllJudged, AllFramed, LaidOut, Stacked;
    forall v: nat | v < |outs| && Found(w, v) && v !in seeds ensures ParentLinked(ins', outs, parent, w, v) {
      assert ParentLinked(ins, outs, parent, w, v) && SameCall(ins[v][parent[v]], ins'[v][parent[v]]);
    }
  }

  lemma FlagsOf(flags: seq<set<NodeFlag>>, seeds: seq<nat>, w: Walk, v: nat)
    requires FlagState(flags, seeds, w) && v < |flags|
    ensures (Mark in flags[v] <==> Found(w, v) || v in seeds) && (CurrentCycle in flags[v] <==> Active(w, v))
  {
  }

  lemma SameSizes(a: Rows, b: Rows)
    requires SameCalls(a, b)
    ensures |a| == |b| && forall v :: 0 <= v < |a| ==> |a[v]| == |b[v]|
  {
  }

  lemma MeetFlags(ins: Rows, flags: seq<set<NodeFlag>>, seeds: seq<nat>, w: Walk, v: nat)
    requires FlagState(flags, seeds, w) && OnlyCycles(ins, flags) && v < |flags| && !Found(w, v) && !Done(w, v)
    ensures FlagState(flags[v := flags[v] + {CurrentCycle, Mark}], seeds, Meet(w, v))
    ensures OnlyCycles(ins, flags[v := flags[v] + {CurrentCycle, Mark}])
    ensures v in seeds ==> flags[v] + {CurrentCycle, Mark} == flags[v] + {CurrentCycle}
  {
  }

  lemma FinishFlags(ins: Rows, flags: seq<set<NodeFlag>>, seeds: seq<nat>, w: Walk, u: nat)
    requires FlagState(flags, seeds, w) && OnlyCycles(ins, flags) && u < |flags| && Active(w, u)
    ensures FlagState(flags[u := flags[u] - {CurrentCycle}], seeds, Finish(w, u))
    ensures OnlyCycles(ins, flags[u := flags[u] - {CurrentCycle}])
  {
  }

  lemma SnipFlags(flags: seq<set<NodeFlag>>, flags': seq<set<NodeFlag>>, seeds: seq<nat>, w: Walk)
    requires FlagState(flags, seeds, w) && SameButOnlyCycle(flags, flags')
    ensures FlagState(flags', seeds, w)
  {
  }

  lemma AdvanceProgress(flags: seq<set<NodeFlag>>, seeds: seq<nat>, w0: Walk, parent0: seq<int>, w: Walk,
                        parent: seq<int>, u: nat)
    requires FlagState(flags, seeds, w) && Extends(w0, parent0, w, parent) && u < |w.next|
    ensures FlagState(flags, seeds, Advance(w, u)) && Extends(w0, parent0, Advance(w, u), parent)
    ensures Unfound(Advance(w, u)) == Unfound(w) && Undone(Advance(w, u)) == Undone(w)
  {
  }

  lemma MeetProgress(w0: Walk, parent0: seq<int>, w: Walk, parent: seq<int>, v: nat, c: int)
    requires Extends(w0, parent0, w, parent) && v < |w.start| && !Found(w, v) && !Found(w0, v)
    ensures Extends(w0, parent0, Meet(w, v), parent[v := c]) && Unfound(Meet(w, v)) < Unfound(w)
  {
    assert v in Unfound(w) && v !in Unfound(Meet(w, v));
  }

  lemma FinishProgress(w0: Walk, parent0: seq<int>, w: Walk, parent: seq<int>, u: nat)
    requires Extends(w0, parent0, w, parent) && u < |w.pos| && !Done(w, u)
    ensures Extends(w0, parent0, Finish(w, u), parent) && Unfound(Finish(w, u)) == Unfound(w) &&
              Undone(Finish(w, u)) < Undone(w)
  {
    assert u in Undone(w) && u !in Undone(Finish(w, u));
  }

  lemma BeginExtends(w: Walk, parent: seq<int>, root: nat)
    requires |w.start| == |w.pos| == |parent| && root < |parent| && !Found(w, root)
    ensures Extends(w, parent, Meet(w, root), parent)
  {
  }

  lemma FoundStays(w0: Walk, parent0: seq<int>, w: Walk, parent: seq<int>, v: nat)
    requires Extends(w0, parent0, w, parent) && Found(w0, v)
    ensures Found(w, v)
  {
  }

  lemma FoundLater(w0: Walk, parent0: seq<int>, w: Walk, parent: seq<int>, v: nat)
    requires Extends(w0, parent0, w, parent) && v < |w.start| && !Found(w, v)
    ensures !Found(w0, v)
  {
  }

  /** The target of an edge is not a seed that waits: those have no in-edges. */
  lemma NotWaiting(ins: Rows, outs: Rows, u: nat, k: nat)
    requires Linked(ins, outs) && u < |outs| && k < |outs[u]|
    ensures outs[u][k].target < |ins| && ins[outs[u][k].target] != []
  {
    assert OutLinked(ins, outs, u, k);
  }

  lemma FirstSeed(ins: Rows, outs: Rows, parent: seq<int>, seeds: seq<nat>, w: Walk)
    requires Snipped(ins, outs, parent, seeds, w)
    ensures seeds == [] ==> |w.order| == 0
    ensures seeds != [] ==>
              seeds[0] < |outs| && Heading(outs, seeds, w, Some(seeds[0]), 0, 0) && Height(w, Some(seeds[0])) >= 0
  {
    hide Stacked, AllJudged, AllFramed, AllParented, LaidOut, Resumes, Counts;
    if seeds != [] {
      assert Done(w, seeds[0]) && w.start[seeds[0]] == 0;
      RootResumes(outs, w, seeds[0]);
    }
  }

  lemma PositionOf(ins: Rows, outs: Rows, parent: seq<int>, seeds: seq<nat>, w: Walk, i: nat)
    requires Snipped(ins, outs, parent, seeds, w) && i < |w.order|
    ensures w.order[i] < |outs| == |w.pos| && w.pos[w.order[i]] == i
  {
  }

  lemma Positioned(ins: Rows, outs: Rows, parent: seq<int>, seeds: seq<nat>, w: Walk, v: nat)
    requires Snipped(ins, outs, parent, seeds, w) && v < |outs|
    ensures |ins| == |parent| == |outs| == |w.pos| && 0 <= w.pos[v] < |w.order| && w.order[w.pos[v]] == v
  {
    assert Done(w, v);
  }

  lemma HeadingSlot(ins: Rows, outs: Rows, parent: seq<int>, seeds: seq<nat>, w: Walk, node: Option<nat>, slot: int,
                    t: int)
    requires Snipped(ins, outs, parent, seeds, w) && Heading(outs, seeds, w, node, slot, t)
    ensures 0 <= slot && 0 <= Height(w, node) && |w.pos| == |outs| &&
              (node.Some? ==> node.value < |outs| && slot <= |outs[node.value]|)
  {
    if node.Some? { assert Done(w, node.value); }
  }

  ghost function NothingMet(n: nat): Walk {
    Walk([], seq(n, i => -1), seq(n, i => -1), seq(n, i => 0))
  }

  lemma TracesBegin(ins: Rows, outs: Rows, parent: seq<int>, flags: seq<set<NodeFlag>>)
    requires Linked(ins, outs) && Clean(ins, outs, parent, flags)
    ensures var w := NothingMet(|outs|);
      && Tracing(ins, outs, parent, [], w, []) && InFlags(ins, outs) && OnlyCycles(ins, flags) &&
         FlagState(flags, [], w)
      && SeedsPlaced(ins, parent, [], w, 0)
  {
    hide Tracing, SeedsPlaced;
    TracingBegins(ins, outs, parent, flags);
    SeedsBegin(ins, outs, parent, flags);
    forall v | 0 <= v < |ins| ensures !AllCycle(ins[v]) {
      assert ins[v] != [] ==> Cycle !in ins[v][0].flags;
    }
  }

  lemma TracingBegins(ins: Rows, outs: Rows, parent: seq<int>, flags: seq<set<NodeFlag>>)
    requires Linked(ins, outs) && Clean(ins, outs, parent, flags)
    ensures Tracing(ins, outs, parent, [], NothingMet(|outs|), [])
  {
    forall u, k | 0 <= u < |outs| && 0 <= k < |outs[u]| ensures outs[u][k].target < |outs| {
      assert OutLinked(ins, outs, u, k);
    }
  }

  lemma SeedsBegin(ins: Rows, outs: Rows, parent: seq<int>, flags: seq<set<NodeFlag>>)
    requires Linked(ins, outs) && Clean(ins, outs, parent, flags)
    ensures SeedsPlaced(ins, parent, [], NothingMet(|outs|), 0)
  {
  }

  /** A function not met has no snipped in-edge. */
  lemma UnmetHasNoCycles(ins: Rows, outs: Rows, parent: seq<int>, flags: seq<set<NodeFlag>>, seeds: seq<nat>, w: Walk)
    requires Linked(ins, outs) && Tracing(ins, outs, parent, seeds, w, []) && InFlags(ins, outs) &&
               OnlyCycles(ins, flags) && FlagState(flags, seeds, w)
    ensures |flags| == |ins| && forall v :: 0 <= v < |flags| && Mark !in flags[v] ==> OnlyCycleIn !in flags[v]
  {
    forall v: nat | v < |flags| && OnlyCycleIn in flags[v] ensures Mark in flags[v] {
      var h := ins[v][0];
      assert InLinked(ins, outs, v, 0) && Cycle in h.flags;
      assert Judged(w, parent, seeds, h.source, h.complement, outs[h.source][h.complement]);
    }
  }

  lemma SeedReady(ins: Rows, outs: Rows, parent: seq<int>, seeds: seq<nat>, w: Walk, walked: nat)
    requires Tracing(ins, outs, parent, seeds, w, []) && SeedsPlaced(ins, parent, seeds, w, walked) && walked < |seeds|
    ensures seeds[walked] < |outs| && !Found(w, seeds[walked])
    ensures forall s :: s in seeds && s != seeds[walked] ==> s < |ins| && (Found(w, s) || ins[s] == [])
  {
    hide AllJudged, AllFramed, AllParented, LaidOut;
  }

  lemma SeedTraced(ins: Rows, ins': Rows, parent0: seq<int>, parent: seq<int>, seeds: seq<nat>, w: Walk, w': Walk,
                   walked: nat)
    requires SeedsPlaced(ins, parent0, seeds, w, walked) && walked < |seeds| && |ins'| == |ins| && forall v ::
               0 <= v < |ins| ==> |ins'[v]| == |ins[v]|
    requires Extends(w, parent0[seeds[walked] := walked], w', parent) && parent[seeds[walked]] == walked
    requires forall v: nat :: v < |w.pos| && Done(w, v) ==> Found(w, v)
    requires var root := seeds[walked]; Done(w', root) && w'.start[root] == |w.order| && w'.pos[root] == |w'.order| - 1
    requires forall s :: s in seeds && s != seeds[walked] && Found(w', s) ==> Found(w, s)
    ensures SeedsPlaced(ins', parent, seeds, w', walked + 1)
    ensures Undone(w') < Undone(w) && forall v: nat :: Found(w, v) ==> Found(w', v)
  {
    var root := seeds[walked];
    forall j | 0 <= j < walked
      ensures Done(w', seeds[j]) && parent[seeds[j]] == j && w'.pos[seeds[j]] == w.pos[seeds[j]] &&
                w'.start[seeds[j]] == w.start[seeds[j]]
    {
      assert Done(w, seeds[j]) && Found(w, seeds[j]) && seeds[j] != root;
    }
    forall j | walked < j < |seeds| ensures !Found(w', seeds[j]) && ins'[seeds[j]] == [] {
      assert seeds[j] != root;
    }
    assert !Done(w, root);
    assert root in Undone(w) && root !in Undone(w');
    forall v | v in Undone(w') ensures v in Undone(w) {}
  }

  lemma AllSeedsDone(ins: Rows, outs: Rows, parent: seq<int>, seeds: seq<nat>, w: Walk)
    requires Tracing(ins, outs, parent, seeds, w, []) && SeedsPlaced(ins, parent, seeds, w, |seeds|)
    ensures forall v: nat :: Found(w, v) || v in seeds ==> Done(w, v)
  {
    hide AllJudged, AllFramed, AllParented, LaidOut;
    forall v: nat | Found(w, v) ensures Done(w, v) {
      assert !OnStack([], v, 0);
    }
  }

  lemma FlagSizes(flags: seq<set<NodeFlag>>, seeds: seq<nat>, w: Walk)
    requires FlagState(flags, seeds, w)
    ensures |flags| == |w.start|
  {
  }

  lemma FlagsOfSeeds(flags: seq<set<NodeFlag>>, seeds: seq<nat>, w: Walk)
    requires FlagState(flags, seeds, w)
    ensures forall v :: 0 <= v < |flags| ==> (EntryNode in flags[v] <==> v in seeds)
  {
  }

  lemma SeedsAdded(graph: seq<nat>, addr: seq<nat>, ins: Rows, outs: Rows, parent: seq<int>, flags: seq<set<NodeFlag>>,
                   flags': seq<set<NodeFlag>>,
                   seeds: seq<nat>, chosen: seq<nat>, w: Walk)
    requires |addr| == |ins| == |flags| && NewSeeds(graph, addr, ins, flags, chosen) && Seeded(flags, flags', chosen)
    requires Tracing(ins, outs, parent, seeds, w, []) && OnlyCycles(ins, flags) && FlagState(flags, seeds, w)
    requires SeedsPlaced(ins, parent, seeds, w, |seeds|)
    ensures Tracing(ins, outs, parent, seeds + chosen, w, []) && OnlyCycles(ins, flags') &&
              FlagState(flags', seeds + chosen, w)
    ensures SeedsPlaced(ins, parent, seeds + chosen, w, |seeds|)
    ensures (forall v :: 0 <= v < |ins| && Mark !in flags[v] ==> ins[v] == []) ==>
              forall v: nat :: v < |ins| ==> Found(w, v) || v in seeds + chosen
  {
    TraceSizes(ins, outs, parent, seeds, w, []);
    hide Tracing;
    SeedsAreNew(graph, addr, ins, flags, seeds, chosen, w);
    MoreSeedsPlaced(ins, parent, seeds, chosen, w);
    hide SeedsPlaced, NewSeeds;
    MoreSeedsTraced(ins, outs, parent, seeds, chosen, w);
    MoreSeedsFlagged(ins, flags, flags', seeds, chosen, w);
  }

  lemma SeedsAreNew(graph: seq<nat>, addr: seq<nat>, ins: Rows, flags: seq<set<NodeFlag>>, seeds: seq<nat>,
                    chosen: seq<nat>, w: Walk)
    requires |addr| == |ins| == |flags| && NewSeeds(graph, addr, ins, flags, chosen) && FlagState(flags, seeds, w)
    ensures forall s :: s in chosen ==> s < |ins| && !Found(w, s) && s !in seeds
    ensures forall a, b :: 0 <= a < b < |chosen| ==> chosen[a] != chosen[b]
    ensures forall j :: 0 <= j < |chosen| ==> chosen[j] < |ins| && (ins[chosen[j]] == [] || j == 0 == |chosen| - 1)
    ensures (forall v :: 0 <= v < |ins| && Mark !in flags[v] ==> ins[v] == []) ==>
              forall v: nat :: v < |ins| ==> Found(w, v) || v in seeds + chosen
  {
    assert forall j :: 0 <= j < |chosen| ==> chosen[j] in chosen;
    if forall v :: 0 <= v < |ins| && Mark !in flags[v] ==> ins[v] == [] {
      forall v: nat | v < |ins| ensures Found(w, v) || v in seeds + chosen {
        if Mark !in flags[v] { assert ins[v] == []; }
      }
    }
  }

  lemma MoreSeedsPlaced(ins: Rows, parent: seq<int>, seeds: seq<nat>, chosen: seq<nat>, w: Walk)
    requires SeedsPlaced(ins, parent, seeds, w, |seeds|)
    requires forall s :: s in chosen ==> s < |ins| && !Found(w, s) && s !in seeds
    requires forall a, b :: 0 <= a < b < |chosen| ==> chosen[a] != chosen[b]
    requires forall j :: 0 <= j < |chosen| ==> chosen[j] < |ins| && (ins[chosen[j]] == [] || j == 0 == |chosen| - 1)
    ensures SeedsPlaced(ins, parent, seeds + chosen, w, |seeds|)
  {
    var seeds' := seeds + chosen;
    forall j | 0 <= j < |seeds'| ensures seeds'[j] == if j < |seeds| then seeds[j] else chosen[j - |seeds|] {}
    forall j | |seeds| <= j < |seeds'| ensures seeds'[j] in chosen {}
  }

  lemma MoreSeedsFlagged(ins: Rows, flags: seq<set<NodeFlag>>, flags': seq<set<NodeFlag>>, seeds: seq<nat>,
                         chosen: seq<nat>, w: Walk)
    requires Seeded(flags, flags', chosen) && OnlyCycles(ins, flags) && FlagState(flags, seeds, w)
    ensures OnlyCycles(ins, flags') && FlagState(flags', seeds + chosen, w)
  {
  }

  lemma MoreSeedsTraced(ins: Rows, outs: Rows, parent: seq<int>, seeds: seq<nat>, chosen: seq<nat>, w: Walk)
    requires Tracing(ins, outs, parent, seeds, w, []) && forall s :: s in chosen ==> !Found(w, s)
    ensures Tracing(ins, outs, parent, seeds + chosen, w, [])
  {
    hide AllFramed, LaidOut, Stacked;
    forall u: nat, k: nat | u < |outs| && k < |outs[u]| ensures Judged(w, parent, seeds + chosen, u, k, outs[u][k]) {
      assert Judged(w, parent, seeds, u, k, outs[u][k]);
    }
  }

  lemma SameCallsSorted(outs: Rows, outs': Rows, addr: seq<nat>)
    requires SortedCalls(outs, addr) && SameCalls(outs, outs')
    ensures SortedCalls(outs', addr)
  {
    forall u, k | 0 <= u < |outs'| && 0 <= k < |outs'[u]| ensures outs'[u][k].target == outs[u][k].target {
      assert SameCall(outs[u][k], outs'[u][k]);
    }
  }

  /** The frame on top of the stack. */
  lemma TopFrame(ins: Rows, outs: Rows, parent: seq<int>, seeds: seq<nat>, w: Walk, stack: seq<LeafIterator>)
    requires Tracing(ins, outs, parent, seeds, w, stack) && stack != []
    ensures |w.start| == |w.pos| == |w.next| == |parent| == |outs| == |ins| && Targets(outs)
    ensures var u := stack[|stack| - 1].node;
      && u < |outs| && Active(w, u) && stack[|stack| - 1].outslot == w.next[u] <= |outs[u]|
      && (w.next[u] < |outs[u]| ==> outs[u][w.next[u]].flags == {} && outs[u][w.next[u]].target < |outs|)
  {
    var u := stack[|stack| - 1].node;
    if w.next[u] < |outs[u]| { assert Judged(w, parent, seeds, u, w.next[u], outs[u][w.next[u]]); }
  }

  lemma SnipKeepsInFlags(ins: Rows, outs: Rows, u: nat, k: nat)
    requires Linked(ins, outs) && InFlags(ins, outs) && u < |outs| && k < |outs[u]|
    ensures var e := outs[u][k];
      && e.target < |ins| && e.complement < |ins[e.target]|
      && InFlags(WithFlags(ins, e.target, e.complement, {Cycle}), WithFlags(outs, u, k, SNIPPED))
  {
    var e := outs[u][k];
    assert OutLinked(ins, outs, u, k);
    var ins': Rows, outs': Rows := WithFlags(ins, e.target, e.complement, {Cycle}), WithFlags(outs, u, k, SNIPPED);
    forall v, j | 0 <= v < |ins| && 0 <= j < |ins[v]|
      ensures (v == e.target && j == e.complement) || ins[v][j].source != u || ins[v][j].complement != k
    {
      assert InLinked(ins, outs, v, j);
    }
  }

  lemma PassKeepsInFlags(ins: Rows, outs: Rows, u: nat, k: nat)
    requires Linked(ins, outs) && InFlags(ins, outs) && u < |outs| && k < |outs[u]| && outs[u][k].flags != SNIPPED
    ensures InFlags(ins, WithFlags(outs, u, k, {DontFollow}))
  {
    forall v, j | 0 <= v < |ins| && 0 <= j < |ins[v]| ensures InLinked(ins, outs, v, j) {}
    assert DontFollow in {DontFollow} && Cycle !in {DontFollow};
  }

  lemma SameWithFlags(rows: Rows, u: nat, k: nat, flags: set<CallFlag>)
    requires u < |rows| && k < |rows[u]|
    ensures SameCalls(rows, WithFlags(rows, u, k, flags))
  {
  }

  lemma DistinctAddresses(graph: seq<nat>, addr: seq<nat>, a: nat, b: nat)
    requires AddressOrder(graph, addr) && a < |addr| && b < |addr| && a != b
    ensures addr[a] != addr[b]
  {
    assert a in graph && b in graph;
    var i :| 0 <= i < |graph| && graph[i] == a;
    var j :| 0 <= j < |graph| && graph[j] == b;
    assert i < j ==> addr[graph[i]] < addr[graph[j]];
    assert j < i ==> addr[graph[j]] < addr[graph[i]];
  }

  lemma MoreRowsLinked(ins: Rows, outs: Rows)
    requires Linked(ins, outs)
    ensures Linked(ins + [[]], outs + [[]])
  {
    forall u: nat, k: nat | u < |outs + [[]]| && k < |(outs + [[]])[u]|
      ensures OutLinked(ins + [[]], outs + [[]], u, k)
    {
      assert OutLinked(ins, outs, u, k);
    }
    forall v: nat, j: nat | v < |ins + [[]]| && j < |(ins + [[]])[v]| ensures InLinked(ins + [[]], outs + [[]], v, j) {
      assert InLinked(ins, outs, v, j);
    }
  }

  /** Moving the out-half at slot i of node renumbers just its own in-half. */
  lemma BumpRenumbers(ins: Rows, outs: Rows, mid: Rows, node: nat, i: nat)
    requires Linked(ins, outs) && node < |outs| && i < |outs[node]| && Renumbered(ins, mid, node, i + 1)
    ensures var e := outs[node][i];
      && e.target < |mid| && e.complement < |mid[e.target]|
      && Renumbered(ins, mid[e.target := mid[e.target][e.complement :=
         mid[e.target][e.complement].(complement := mid[e.target][e.complement].complement + 1)]], node, i)
  {
    var e := outs[node][i];
    assert OutLinked(ins, outs, node, i);
    forall v: nat, j: nat | v < |ins| && j < |ins[v]| && ins[v][j].source == node && ins[v][j].complement == i
      ensures v == e.target && j == e.complement
    {
      assert InLinked(ins, outs, v, j);
    }
  }

  lemma InsertedClean(ins: Rows, outs: Rows, ins': Rows, outs': Rows, source: nat, target: nat, site: nat, slot: nat,
                      parent: seq<int>, flags: seq<set<NodeFlag>>)
    requires Clean(ins, outs, parent, flags) && source < |outs| == |ins| && target < |ins| && slot <= |outs[source]|
    requires Inserted(ins, outs, ins', outs', source, target, site, slot) && outs'[source][slot].flags == {}
    ensures Clean(ins', outs', parent, flags)
  {
    forall u, k | 0 <= u < |outs'| && 0 <= k < |outs'[u]| ensures outs'[u][k].flags == {} {
      if u == source && k != slot { ShiftedAt(outs[u], outs'[u], slot, k); }
    }
  }
}
