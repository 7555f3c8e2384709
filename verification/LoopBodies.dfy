/** Loop bodies found by worklist: findBase and extendToContainer trace back from the tails of a loop,
    extend adds the blocks that can only be entered from the body. */
module LoopBodies {

  import opened Wrappers
  import opened Flow

  // ---------- tracing back ----------

  /** There is a non-goto edge from a into b. */
  ghost predicate Steps(ins: Adj, a: nat, b: nat) {
    b < |ins| && exists k: nat :: k < |ins[b]| && ins[b][k].point == a && !Goto(ins[b][k])
  }

  /** p runs from b to a tail along non-goto edges and does not touch head. */
  ghost predicate Trail(ins: Adj, head: nat, tails: seq<nat>, p: seq<nat>, b: nat) {
    && |p| > 0 && p[0] == b && p[|p| - 1] in tails && head !in p
    && forall k :: 0 < k < |p| ==> Steps(ins, p[k - 1], p[k])
  }

  /** The body of a loop: its head, and every block with a trail to a tail. */
  ghost predicate InBase(ins: Adj, head: nat, tails: seq<nat>, b: nat) {
    b == head || exists p :: Trail(ins, head, tails, p, b)
  }

  /** Every non-goto edge into b comes from the kept blocks or the list. */
  ghost predicate Gathered(ins: Adj, kept: set<nat>, body: seq<nat>, b: nat) {
    forall a: nat :: Steps(ins, a, b) ==> a in kept || a in body
  }

  /** The block at position j was found from an earlier one that is traced. */
  ghost predicate FoundFrom(ins: Adj, body: seq<nat>, start: nat, j: nat)
    requires j < |body|
  {
    exists i: nat :: start <= i < j && Steps(ins, body[j], body[i])
  }

  /** The list as tracing leaves it: grown from body0 by the sources of edges into its blocks, start on. */
  ghost predicate Traced(ins: Adj, kept: set<nat>, body0: seq<nat>, start: nat, body: seq<nat>) {
    && start <= |body0| && body0 <= body && Distinct(body)
    && (forall b :: b in body ==> b < |ins| && b !in kept)
    && (forall j: nat :: |body0| <= j < |body| ==> FoundFrom(ins, body, start, j))
  }

  ghost predicate MarksAre(mark: seq<bool>, kept: set<nat>, body: seq<nat>) {
    forall b: nat :: b < |mark| ==> (mark[b] <==> b in kept || b in body)
  }

  /** A trail one block longer. */
  lemma LongerTrail(ins: Adj, head: nat, tails: seq<nat>, a: nat, b: nat)
    requires a != head && b != head && Steps(ins, a, b) && InBase(ins, head, tails, b)
    ensures InBase(ins, head, tails, a)
  {
    var p :| Trail(ins, head, tails, p, b);
    var q := [a] + p;
    forall k | 0 < k < |q| ensures Steps(ins, q[k - 1], q[k]) {
      if k > 1 { assert Steps(ins, p[k - 2], p[k - 1]); }
    }
    assert Trail(ins, head, tails, q, a);
  }

  lemma TailInBase(ins: Adj, head: nat, tails: seq<nat>, b: nat)
    requires b in tails
    ensures InBase(ins, head, tails, b)
  {
    if b != head { assert Trail(ins, head, tails, [b], b); }
  }

  /** A set with the tails in it that is entered only from itself, or at the head, has every trail inside. */
  lemma {:induction false} TrailStaysInside(ins: Adj, head: nat, tails: seq<nat>, inside: iset<nat>, p: seq<nat>,
                                            b: nat)
    requires forall t :: t in tails ==> t in inside
    requires forall x: nat, y: nat :: y in inside && y != head && Steps(ins, x, y) ==> x in inside
    requires Trail(ins, head, tails, p, b)
    ensures b in inside
    decreases |p|
  {
    if |p| > 1 {
      assert forall k :: 0 < k < |p| - 1 ==> p[1..][k - 1] == p[k] && p[1..][k] == p[k + 1];
      TrailStaysInside(ins, head, tails, inside, p[1..], p[1]);
      assert Steps(ins, p[0], p[1]);
    }
  }

  /** A block found by tracing has an edge to an earlier one. */
  lemma TracedFrom(ins: Adj, head: nat, kept: set<nat>, body0: seq<nat>, start: nat, body: seq<nat>, j: nat)
                   returns (i: nat)
    requires Traced(ins, kept, body0, start, body) && |body0| <= j < |body|
    requires head in kept || (start == 1 && head == body0[0])
    ensures start <= i < j && Steps(ins, body[j], body[i]) && body[i] != head && body[j] != head
  {
    hide Steps;
    assert FoundFrom(ins, body, start, j);
    i :| start <= i < j && Steps(ins, body[j], body[i]);
    assert body[i] in body && body[j] in body;
    if start == 1 { assert body[0] == body0[0]; }
  }

  /** What tracing found belongs to the base, when what it started from does. */
  lemma {:induction false} TracedInBase(ins: Adj, head: nat, tails: seq<nat>, kept: set<nat>, body0: seq<nat>,
                                        start: nat, body: seq<nat>, j: nat)
    requires Traced(ins, kept, body0, start, body) && j < |body|
    requires head in kept || (start == 1 && head == body0[0])
    requires forall i :: 0 <= i < |body0| ==> InBase(ins, head, tails, body0[i])
    ensures InBase(ins, head, tails, body[j])
    decreases j
  {
    if j < |body0| {
      assert body[j] == body0[j];
    } else {
      assert start <= |body0| <= |body|;
      hide Steps, InBase, FoundFrom, Traced;
      var i := TracedFrom(ins, head, kept, body0, start, body, j);
      TracedInBase(ins, head, tails, kept, body0, start, body, i);
      LongerTrail(ins, head, tails, body[j], body[i]);
    }
  }

  lemma MarkTold(mark: seq<bool>, kept: set<nat>, body: seq<nat>, bl: nat)
    requires MarksAre(mark, kept, body) && bl < |mark|
    ensures mark[bl] <==> bl in kept || bl in body
  {
  }

  lemma MarkedOne(mark: seq<bool>, kept: set<nat>, body: seq<nat>, bl: nat)
    requires MarksAre(mark, kept, body) && bl < |mark|
    ensures MarksAre(mark[bl := true], kept, body + [bl])
  {
  }

  lemma TracedOne(ins: Adj, kept: set<nat>, body0: seq<nat>, start: nat, body: seq<nat>, bl: nat, i: nat)
    requires Traced(ins, kept, body0, start, body) && start <= i < |body|
    requires bl < |ins| && bl !in kept && bl !in body && Steps(ins, bl, body[i])
    ensures Traced(ins, kept, body0, start, body + [bl])
  {
    var longer := body + [bl];
    forall j: nat | |body0| <= j < |longer| ensures FoundFrom(ins, longer, start, j) {
      if j < |body| {
        assert FoundFrom(ins, body, start, j);
        var n: nat :| start <= n < j && Steps(ins, body[j], body[n]);
        assert longer[n] == body[n];
      } else {
        assert longer[i] == body[i];
      }
    }
  }

  /** The worklist loop: traces back from the blocks of the list, from position start on. */
  method TraceBack(g: BlockGraph, body0: seq<nat>, start: nat, ghost kept: set<nat>) returns (body: seq<nat>)
    requires Paired(g.G()) && g.Sized()
    requires Traced(g.ins, kept, body0, start, body0) && MarksAre(g.mark, kept, body0)
    modifies g`mark
    ensures g.Sized() && Traced(g.ins, kept, body0, start, body) && MarksAre(g.mark, kept, body)
    ensures forall j: nat :: start <= j < |body| ==> Gathered(g.ins, kept, body, body[j])
  {
    body := body0;
    var i := start;
    DistinctFits(body, |g.ins|);
    while i < |body|
      invariant start <= i <= |body| <= |g.ins|
      invariant g.Sized() && Traced(g.ins, kept, body0, start, body) && MarksAre(g.mark, kept, body)
      invariant forall j: nat :: start <= j < i ==> Gathered(g.ins, kept, body, body[j])
      decreases |g.ins| - i
    {
      body := TraceIn(g, body0, start, body, i, kept);
      i := i + 1;
      DistinctFits(body, |g.ins|);
    }
  }

  /** The sources of the first k non-goto edges are kept or listed. */
  ghost predicate ListedTo(row: seq<Edge>, kept: set<nat>, body: seq<nat>, k: nat) {
    forall n: nat :: n < k && n < |row| && !Goto(row[n]) ==> row[n].point in kept || row[n].point in body
  }

  lemma ListedNone(row: seq<Edge>, kept: set<nat>, body: seq<nat>)
    ensures ListedTo(row, kept, body, 0)
  {
  }

  lemma ListedOne(row: seq<Edge>, kept: set<nat>, found: seq<nat>, body: seq<nat>, k: nat)
    requires ListedTo(row, kept, found, k) && found <= body && k < |row|
    requires Goto(row[k]) || row[k].point in kept || row[k].point in body
    ensures ListedTo(row, kept, body, k + 1)
  {
  }

  lemma PointIn(g: Graph, b: nat, i: nat)
    requires Paired(g) && InSlot(g, b, i)
    ensures g.ins[b][i].point < |g.ins|
  {
    assert InPaired(g, b, i);
  }

  /** What was gathered for the shorter list still is. */
  lemma GatheredIn(ins: Adj, kept: set<nat>, found: seq<nat>, body: seq<nat>, i: nat)
    requires found <= body && i < |found| && found[i] < |ins|
    requires ListedTo(ins[found[i]], kept, body, |ins[found[i]]|)
    ensures Gathered(ins, kept, body, body[i])
    ensures forall j: nat :: j < i && Gathered(ins, kept, found, found[j]) ==> Gathered(ins, kept, body, body[j])
  {
    forall j: nat | j < i && Gathered(ins, kept, found, found[j]) ensures Gathered(ins, kept, body, body[j]) {
      forall a: nat | Steps(ins, a, body[j]) ensures a in kept || a in body {
        assert body[j] == found[j];
      }
    }
  }

  /** The sources of the non-goto edges into body[i] that have no mark are marked and listed. */
  method TraceIn(g: BlockGraph, ghost body0: seq<nat>, ghost start: nat, found: seq<nat>, i: nat, ghost kept: set<nat>)
                 returns (body: seq<nat>)
    requires Paired(g.G()) && g.Sized()
    requires Traced(g.ins, kept, body0, start, found) && MarksAre(g.mark, kept, found) && start <= i < |found|
    modifies g`mark
    ensures g.Sized() && Traced(g.ins, kept, body0, start, body) && MarksAre(g.mark, kept, body)
    ensures found <= body && Gathered(g.ins, kept, body, body[i])
    ensures forall j: nat :: j < i && Gathered(g.ins, kept, found, found[j]) ==> Gathered(g.ins, kept, body, body[j])
  {
    body := found;
    var curblock := body[i];
    assert curblock in found;
    assert curblock < |g.ins|;
    hide Traced, MarksAre, Gathered, ListedTo, Paired;
    var k := 0;
    ListedNone(g.ins[curblock], kept, body);
    while k < |g.ins[curblock]|
      invariant k <= |g.ins[curblock]| && found <= body
      invariant g.Sized() && Traced(g.ins, kept, body0, start, body) && MarksAre(g.mark, kept, body)
      invariant ListedTo(g.ins[curblock], kept, body, k)
    {
      var e := g.ins[curblock][k];
      ghost var was := body;
      if !Goto(e) {
        var bl := e.point;
        PointIn(g.G(), curblock, k);
        MarkTold(g.mark, kept, body, bl);
        if !g.mark[bl] {
          assert Steps(g.ins, bl, curblock);
          TracedOne(g.ins, kept, body0, start, body, bl, i);
          MarkedOne(g.mark, kept, body, bl);
          g.mark := g.mark[bl := true];
          body := body + [bl];
        }
      }
      ListedOne(g.ins[curblock], kept, was, body, k);
      k := k + 1;
    }
    GatheredIn(g.ins, kept, found, body, i);
  }

  // ---------- extending ----------

  /** x is not the exit, it has edges coming in, and every one is a non-goto edge from the list. */
  ghost predicate Joins(g: Graph, exit: Option<nat>, body: seq<nat>, x: nat) {
    && x < |g.ins| && |g.ins[x]| > 0 && exit != Some(x)
    && forall i: nat :: i < |g.ins[x]| ==> Enters(g, body, x, i)
  }

  /** The edge at in-slot i of x is a non-goto edge from the list. */
  ghost predicate Enters(g: Graph, body: seq<nat>, x: nat, i: nat)
    requires InSlot(g, x, i)
  {
    var e := g.ins[x][i];
    e.point in body && OutSlot(g, e.point, e.rev) && !Goto(g.outs[e.point][e.rev])
  }

  /** Nothing more joins. */
  ghost predicate ClosedUnderJoins(g: Graph, exit: Option<nat>, body: seq<nat>) {
    forall x: nat :: Joins(g, exit, body, x) ==> x in body
  }

  /** The list body0 with every later block joining those before it. */
  ghost predicate Grown(g: Graph, exit: Option<nat>, body0: seq<nat>, body: seq<nat>) {
    && body0 <= body && Distinct(body) && (forall b :: b in body ==> b < |g.ins|)
    && forall j: nat :: |body0| <= j < |body| ==> Joins(g, exit, body[..j], body[j])
  }

  /** Whatever contains body0 and is closed contains all that was grown. */
  lemma {:induction false} GrownIsLeast(g: Graph, exit: Option<nat>, body0: seq<nat>, body: seq<nat>, other: seq<nat>,
                                        j: nat)
    requires Grown(g, exit, body0, body) && j <= |body|
    requires (forall b :: b in body0 ==> b in other) && ClosedUnderJoins(g, exit, other)
    ensures forall i :: 0 <= i < j ==> body[i] in other
    decreases j
  {
    if j == 0 {
    } else {
      GrownIsLeast(g, exit, body0, body, other, j - 1);
      if j - 1 < |body0| {
        assert body[j - 1] == body0[j - 1];
      } else {
        var x := body[j - 1];
        forall i: nat | i < |g.ins[x]| ensures Enters(g, other, x, i) {
          assert Enters(g, body[..j - 1], x, i);
        }
        assert Joins(g, exit, other, x);
      }
    }
  }

  /** Out-slot slot of b was looked at: b stands in the list before position i, or at i with slot < k. */
  ghost predicate Taken(body: seq<nat>, i: nat, k: nat, b: nat, slot: nat) {
    exists n: nat :: n < |body| && body[n] == b && (n < i || (n == i && slot < k))
  }

  /** The edge at in-slot s of x is a non-goto edge that was looked at. */
  ghost predicate Met(g: Graph, body: seq<nat>, i: nat, k: nat, x: nat, s: nat) {
    InSlot(g, x, s) && Enters(g, body, x, s) && Taken(body, i, k, g.ins[x][s].point, g.ins[x][s].rev)
  }

  /** seen[x] holds the in-slots of x that were counted: for a block outside, exactly those met. */
  ghost predicate Counted(g: Graph, exit: Option<nat>, body: seq<nat>, i: nat, k: nat, seen: seq<set<nat>>,
                          visit: seq<int>) {
    && |seen| == |g.ins| && |visit| == |g.ins|
    && (forall x: nat :: x < |g.ins| ==> visit[x] == |seen[x]|)
    && (forall x: nat, s: nat :: x < |g.ins| && s in seen[x] ==> Met(g, body, i, k, x, s))
    && (forall x: nat, s: nat :: Met(g, body, i, k, x, s) && x !in body && exit != Some(x) ==> s in seen[x])
    && forall x: nat :: x < |g.ins| && x !in body && |g.ins[x]| > 0 ==> |seen[x]| != |g.ins[x]|
  }

  lemma {:induction false} FullSet(s: set<nat>, n: nat)
    requires forall x :: x in s ==> x < n
    ensures |s| <= n && (|s| == n <==> forall x: nat :: x < n ==> x in s)
    decreases n
  {
    if n == 0 {
      assert forall x :: x !in s;
    } else {
      var r := s - {n - 1};
      FullSet(r, n - 1);
      if n - 1 in s {
        assert s == r + {n - 1};
      } else {
        assert s == r;
      }
    }
  }

  /** Looking at out-slot k of body[i] meets its other half, if it is not a goto edge, and nothing else. */
  lemma MetOne(g: Graph, body: seq<nat>, i: nat, k: nat, x: nat, s: nat)
    requires Paired(g) && Distinct(body) && i < |body| && OutSlot(g, body[i], k)
    ensures var e := g.outs[body[i]][k];
      Met(g, body, i, k + 1, x, s) <==> Met(g, body, i, k, x, s) || (x == e.point && s == e.rev && !Goto(e))
    ensures !Met(g, body, i, k, g.outs[body[i]][k].point, g.outs[body[i]][k].rev)
  {
    var e := g.outs[body[i]][k];
    assert OutPaired(g, body[i], k);
    if InSlot(g, x, s) {
      assert InPaired(g, x, s);
      var b, slot := g.ins[x][s].point, g.ins[x][s].rev;
      if Taken(body, i, k + 1, b, slot) && !Taken(body, i, k, b, slot) { assert b == body[i] && slot == k; }
      if Taken(body, i, k, b, slot) {
        var n: nat :| n < |body| && body[n] == b && (n < i || (n == i && slot < k));
        assert Taken(body, i, k + 1, b, slot);
      }
      if x == e.point && s == e.rev { assert Taken(body, i, k + 1, b, slot); }
    }
  }

  lemma CountSkipped(g: Graph, exit: Option<nat>, body: seq<nat>, i: nat, k: nat, seen: seq<set<nat>>, visit: seq<int>)
    requires Paired(g) && Distinct(body) && i < |body| && OutSlot(g, body[i], k) &&
               Counted(g, exit, body, i, k, seen, visit)
    requires var e := g.outs[body[i]][k]; Goto(e) || e.point in body || exit == Some(e.point)
    ensures Counted(g, exit, body, i, k + 1, seen, visit)
  {
    forall x: nat, s: nat | x < |g.ins| && s in seen[x] ensures Met(g, body, i, k + 1, x, s) {
      MetOne(g, body, i, k, x, s);
    }
    forall x: nat, s: nat | Met(g, body, i, k + 1, x, s) && x !in body && exit != Some(x) ensures s in seen[x] {
      MetOne(g, body, i, k, x, s);
    }
  }

  /** One more in-edge of e.point counted; the block is listed when it was the last one. */
  lemma CountOne(g: Graph, exit: Option<nat>, body0: seq<nat>, body: seq<nat>, i: nat, k: nat, seen: seq<set<nat>>,
                 visit: seq<int>)
    returns (more: seq<set<nat>>)
    requires Paired(g) && i < |body| && OutSlot(g, body[i], k)
    requires Grown(g, exit, body0, body) && Counted(g, exit, body, i, k, seen, visit)
    requires var e := g.outs[body[i]][k]; !Goto(e) && e.point !in body && exit != Some(e.point)
    ensures var x := g.outs[body[i]][k].point;
      && x < |g.ins| && |visit| == |g.ins|
      && if visit[x] + 1 == |g.ins[x]|
         then Grown(g, exit, body0, body + [x]) &&
             Counted(g, exit, body + [x], i, k + 1, more, visit[x := visit[x] + 1])
         else Counted(g, exit, body, i, k + 1, more, visit[x := visit[x] + 1])
  {
    hide Joins, Met, Goto;
    var e := g.outs[body[i]][k];
    var x := e.point;
    assert OutPaired(g, body[i], k);
    MetOne(g, body, i, k, x, e.rev);
    assert e.rev !in seen[x];
    more := seen[x := seen[x] + {e.rev}];
    CountedNext(g, exit, body, i, k, seen, more);
    if visit[x] + 1 == |g.ins[x]| {
      FullJoins(g, exit, body, i, k + 1, more[x], x);
      GrownOne(g, exit, body0, body, x);
      CountedLonger(g, exit, body, i, k + 1, more, x);
    }
  }

  /** Every edge into x was met. */
  lemma FullJoins(g: Graph, exit: Option<nat>, body: seq<nat>, i: nat, k: nat, slots: set<nat>, x: nat)
    requires x < |g.ins| && |slots| == |g.ins[x]| > 0 && exit != Some(x)
    requires forall s: nat :: s in slots ==> Met(g, body, i, k, x, s)
    ensures Joins(g, exit, body, x)
  {
    FullSet(slots, |g.ins[x]|);
    forall s: nat | s < |g.ins[x]| ensures Enters(g, body, x, s) {
      assert s in slots;
    }
  }

  lemma CountedNext(g: Graph, exit: Option<nat>, body: seq<nat>, i: nat, k: nat, seen: seq<set<nat>>,
                    more: seq<set<nat>>)
    requires Paired(g) && Distinct(body) && i < |body| && OutSlot(g, body[i], k) && |seen| == |g.ins|
    requires forall x: nat, s: nat :: x < |g.ins| && s in seen[x] ==> Met(g, body, i, k, x, s)
    requires forall x: nat, s: nat :: Met(g, body, i, k, x, s) && x !in body && exit != Some(x) ==> s in seen[x]
    requires var e := g.outs[body[i]][k];
               !Goto(e) && e.point < |seen| && more == seen[e.point := seen[e.point] + {e.rev}]
    ensures forall x: nat, s: nat :: x < |g.ins| && s in more[x] ==> Met(g, body, i, k + 1, x, s)
    ensures forall x: nat, s: nat :: Met(g, body, i, k + 1, x, s) && x !in body && exit != Some(x) ==> s in more[x]
  {
    forall x: nat, s: nat | x < |g.ins| && s in more[x] ensures Met(g, body, i, k + 1, x, s) {
      MetOne(g, body, i, k, x, s);
    }
    forall x: nat, s: nat | Met(g, body, i, k + 1, x, s) && x !in body && exit != Some(x) ensures s in more[x] {
      MetOne(g, body, i, k, x, s);
    }
  }

  lemma GrownOne(g: Graph, exit: Option<nat>, body0: seq<nat>, body: seq<nat>, x: nat)
    requires Grown(g, exit, body0, body) && x !in body && Joins(g, exit, body, x)
    ensures Grown(g, exit, body0, body + [x])
  {
    var longer := body + [x];
    forall j: nat | |body0| <= j < |longer| ensures Joins(g, exit, longer[..j], longer[j]) {
      assert longer[..j] == body[..j];
    }
  }

  /** A block put at the end of the list has met nothing yet. */
  lemma CountedLonger(g: Graph, exit: Option<nat>, body: seq<nat>, i: nat, k: nat, seen: seq<set<nat>>, x: nat)
    requires i < |body|
    requires |seen| == |g.ins|
    requires forall y: nat, s: nat :: y < |g.ins| && s in seen[y] ==> Met(g, body, i, k, y, s)
    requires forall y: nat, s: nat :: Met(g, body, i, k, y, s) && y !in body && exit != Some(y) ==> s in seen[y]
    ensures forall y: nat, s: nat :: y < |g.ins| && s in seen[y] ==> Met(g, body + [x], i, k, y, s)
    ensures forall y: nat, s: nat :: Met(g, body + [x], i, k, y, s) && y !in body + [x] && exit != Some(y) ==>
              s in seen[y]
  {
    forall y: nat, s: nat ensures Met(g, body + [x], i, k, y, s) <==> Met(g, body, i, k, y, s) {
      if InSlot(g, y, s) {
        var b, slot := g.ins[y][s].point, g.ins[y][s].rev;
        if Taken(body + [x], i, k, b, slot) {
          var n: nat :| n < |body + [x]| && (body + [x])[n] == b && (n < i || (n == i && slot < k));
          assert body[n] == b;
          assert Taken(body, i, k, b, slot);
        }
        if Taken(body, i, k, b, slot) {
          var n: nat :| n < |body| && body[n] == b && (n < i || (n == i && slot < k));
          assert (body + [x])[n] == b;
        }
      }
    }
  }

  /** All out-slots of body[i] were looked at. */
  lemma CountedAdvance(g: Graph, exit: Option<nat>, body: seq<nat>, i: nat, seen: seq<set<nat>>, visit: seq<int>)
    requires Distinct(body) && i < |body| && body[i] < |g.outs| &&
               Counted(g, exit, body, i, |g.outs[body[i]]|, seen, visit)
    ensures Counted(g, exit, body, i + 1, 0, seen, visit)
  {
    forall x: nat, s: nat ensures Met(g, body, i + 1, 0, x, s) <==> Met(g, body, i, |g.outs[body[i]]|, x, s) {
      if InSlot(g, x, s) {
        var b, slot := g.ins[x][s].point, g.ins[x][s].rev;
        if Enters(g, body, x, s) && Taken(body, i + 1, 0, b, slot) {
          var n: nat :| n < |body| && body[n] == b && (n < i + 1 || (n == i + 1 && slot < 0));
          assert n <= i;
          assert Taken(body, i, |g.outs[body[i]]|, b, slot);
        }
        if Taken(body, i, |g.outs[body[i]]|, b, slot) {
          var n: nat :| n < |body| && body[n] == b && (n < i || (n == i && slot < |g.outs[body[i]]|));
          assert n < i + 1;
        }
      }
    }
  }

  /** When the whole list was looked at, nothing more joins. */
  lemma CountedAll(g: Graph, exit: Option<nat>, body: seq<nat>, seen: seq<set<nat>>, visit: seq<int>)
    requires Counted(g, exit, body, |body|, 0, seen, visit)
    ensures ClosedUnderJoins(g, exit, body)
  {
    forall x: nat | Joins(g, exit, body, x) ensures x in body {
      if x !in body {
        forall s: nat | s < |g.ins[x]| ensures s in seen[x] {
          assert Enters(g, body, x, s);
          var n: nat :| n < |body| && body[n] == g.ins[x][s].point;
          assert Taken(body, |body|, 0, g.ins[x][s].point, g.ins[x][s].rev);
          assert Met(g, body, |body|, 0, x, s);
        }
        forall s | s in seen[x] ensures s < |g.ins[x]| {
          assert Met(g, body, |body|, 0, x, s);
        }
        FullSet(seen[x], |g.ins[x]|);
      }
    }
  }

  /** Tails and head are in the graph. */
  ghost predicate LoopIn(n: nat, head: nat, tails: seq<nat>) {
    head < n && forall t :: t in tails ==> t < n
  }

  /** The tails that have no mark yet are marked and listed. */
  method ListTails(g: BlockGraph, tails: seq<nat>, found: seq<nat>, ghost kept: set<nat>) returns (body: seq<nat>)
    requires g.Sized() && (forall t :: t in tails ==> t < |g.ins|)
    requires Distinct(found) && MarksAre(g.mark, kept, found)
    requires forall b :: b in found ==> b < |g.ins| && b !in kept
    modifies g`mark
    ensures g.Sized() && Distinct(body) && MarksAre(g.mark, kept, body) && found <= body
    ensures forall b :: b in body ==> b < |g.ins| && b !in kept
    ensures forall b: nat :: b in body ==> b in found || b in tails
    ensures forall b: nat :: b in tails ==> b in kept || b in body
  {
    body := found;
    var j := 0;
    while j < |tails|
      invariant j <= |tails| && g.Sized() && found <= body
      invariant Distinct(body) && MarksAre(g.mark, kept, body)
      invariant forall b :: b in body ==> b < |g.ins| && b !in kept
      invariant forall b: nat :: b in body ==> b in found || b in tails
      invariant forall i :: 0 <= i < j ==> tails[i] in kept || tails[i] in body
    {
      var tail := tails[j];
      assert tail in tails;
      if !g.mark[tail] {
        g.mark := g.mark[tail := true];
        body := body + [tail];
      }
      j := j + 1;
    }
  }

  /** Every block with a count is on the list of trials. */
  ghost predicate Tried(visit: seq<int>, trial: seq<nat>) {
    && (forall x: nat :: x < |visit| && visit[x] != 0 ==> x in trial)
    && forall n :: 0 <= n < |trial| ==> trial[n] < |visit|
  }

  lemma TriedOne(visit: seq<int>, trial: seq<nat>, x: nat)
    requires Tried(visit, trial) && x < |visit|
    ensures Tried(visit[x := visit[x] + 1], if visit[x] == 0 then trial + [x] else trial)
  {
  }

  method ClearCounts(g: BlockGraph, trial: seq<nat>)
    requires g.Sized() && Tried(g.visitCount, trial)
    modifies g`visitCount
    ensures g.Sized() && forall x :: 0 <= x < |g.visitCount| ==> g.visitCount[x] == 0
  {
    var i := 0;
    while i < |trial|
      invariant i <= |trial| && g.Sized() && Tried(g.visitCount, trial)
      invariant forall n :: 0 <= n < i ==> g.visitCount[trial[n]] == 0
    {
      assert trial[i] in trial;
      g.visitCount := g.visitCount[trial[i] := 0];
      i := i + 1;
    }
  }

  lemma GrownIn(g: Graph, exit: Option<nat>, body0: seq<nat>, body: seq<nat>, i: nat)
    requires Grown(g, exit, body0, body) && i < |body|
    ensures body[i] < |g.ins| && Distinct(body)
  {
    assert body[i] in body;
  }

  class LoopBody {
    var head: nat
    var tails: seq<nat>
    var uniqueCount: nat
    var exitBlock: Option<nat>

    /** Collects and marks the base of the loop: the head first, then the tails. */
    method FindBase(g: BlockGraph) returns (body: seq<nat>)
      requires Paired(g.G()) && g.Sized() && LoopIn(|g.ins|, head, tails)
      requires forall b :: 0 <= b < |g.mark| ==> !g.mark[b]
      modifies g`mark, this`uniqueCount
      ensures g.Sized() && MarksAre(g.mark, {}, body)
      ensures Distinct(body) && 0 < uniqueCount <= |body| && body[0] == head
      ensures forall b: nat :: b in body[..uniqueCount] <==> b == head || b in tails
      ensures forall b: nat :: b in body <==> InBase(g.ins, head, tails, b)
    {
      g.mark := g.mark[head := true];
      body := [head];
      body := ListTails(g, tails, body, {});
      uniqueCount := |body|;
      ghost var first := body;
      body := TraceBack(g, body, 1, {});
      assert body[..uniqueCount] == first;
      BaseFound(g.ins, head, tails, first, body);
    }

    /** Given this loop's body as marks, collects and marks the rest of the body of the loop around it. */
    method ExtendToContainer(g: BlockGraph, container: LoopBody, ghost kept: set<nat>) returns (body: seq<nat>)
      requires Paired(g.G()) && g.Sized() && LoopIn(|g.ins|, head, tails) &&
                 LoopIn(|g.ins|, container.head, container.tails)
      requires MarksAre(g.mark, kept, []) && head in kept
      requires forall x: nat, y: nat :: y in kept && y != head && Steps(g.ins, x, y) ==> x in kept
      requires InBase(g.ins, container.head, container.tails, head)
      modifies g`mark
      ensures g.Sized() && MarksAre(g.mark, kept, body) && Distinct(body)
      ensures forall b: nat :: b < |g.ins| && b !in kept ==>
                (b in body <==> InBase(g.ins, container.head, container.tails, b))
      ensures forall b :: b in body ==> b < |g.ins| && b !in kept
    {
      var i := 0;
      body := [];
      if !g.mark[container.head] {
        g.mark := g.mark[container.head := true];
        body := [container.head];
        i := 1;
      }
      ghost var top := body;
      body := ListTails(g, container.tails, body, kept);
      forall b: nat | b in body ensures InBase(g.ins, container.head, container.tails, b) {
        if b !in top { TailInBase(g.ins, container.head, container.tails, b); }
      }
      if head != container.head {
        body := EnterContained(g, container.head, container.tails, body, kept);
      }
      ghost var first := body;
      body := TraceBack(g, body, i, kept);
      ContainerFound(g.ins, head, container.head, container.tails, kept, first, i, body);
    }

    /** The sources of the non-goto edges into the head of this loop are listed for the one around it. */
    method EnterContained(g: BlockGraph, ghost outer: nat, ghost outerTails: seq<nat>, found: seq<nat>,
                          ghost kept: set<nat>) returns (body: seq<nat>)
      requires Paired(g.G()) && g.Sized() && head < |g.ins| && head != outer && (outer in kept || outer in found)
      requires InBase(g.ins, outer, outerTails, head)
      requires Distinct(found) && MarksAre(g.mark, kept, found)
      requires forall b :: b in found ==> b < |g.ins| && b !in kept
      requires forall b: nat :: b in found ==> InBase(g.ins, outer, outerTails, b)
      modifies g`mark
      ensures g.Sized() && Distinct(body) && MarksAre(g.mark, kept, body) && found <= body
      ensures forall b :: b in body ==> b < |g.ins| && b !in kept
      ensures forall b: nat :: b in body ==> InBase(g.ins, outer, outerTails, b)
      ensures Gathered(g.ins, kept, body, head)
    {
      body := found;
      var k := 0;
      while k < |g.ins[head]|
        invariant k <= |g.ins[head]| && found <= body && g.Sized()
        invariant Distinct(body) && MarksAre(g.mark, kept, body)
        invariant forall b :: b in body ==> b < |g.ins| && b !in kept
        invariant forall b: nat :: b in body ==> InBase(g.ins, outer, outerTails, b)
        invariant forall n: nat :: n < k && !Goto(g.ins[head][n]) ==>
                    g.ins[head][n].point in kept || g.ins[head][n].point in body
      {
        var e := g.ins[head][k];
        if !Goto(e) {
          var bl := e.point;
          assert InPaired(g.G(), head, k);
          if !g.mark[bl] {
            assert Steps(g.ins, bl, head);
            LongerTrail(g.ins, outer, outerTails, bl, head);
            g.mark := g.mark[bl := true];
            body := body + [bl];
          }
        }
        k := k + 1;
      }
    }

    /** Adds every block that can only be entered from the body, the exit block excepted. */
    method Extend(g: BlockGraph, found: seq<nat>) returns (body: seq<nat>)
      requires Paired(g.G()) && g.Sized()
      requires Distinct(found) && (forall b :: b in found ==> b < |g.ins|) && MarksAre(g.mark, {}, found)
      requires forall b :: 0 <= b < |g.ins| ==> g.visitCount[b] == 0
      modifies g`mark, g`visitCount
      ensures g.Sized() && g.visitCount == old(g.visitCount) && MarksAre(g.mark, {}, body)
      ensures found <= body && Distinct(body) && ClosedUnderJoins(g.G(), exitBlock, body)
      ensures forall other: seq<nat> ::
                (forall b :: b in found ==> b in other) && ClosedUnderJoins(g.G(), exitBlock, other) ==>
                  forall b :: b in body ==> b in other
    {
      var trial := [];
      body := found;
      var i := 0;
      ghost var seen: seq<set<nat>> := seq(|g.ins|, x => {});
      DistinctFits(body, |g.ins|);
      while i < |body|
        invariant i <= |body| <= |g.ins| && g.Sized() && MarksAre(g.mark, {}, body)
        invariant Grown(g.G(), exitBlock, found, body)
        invariant Counted(g.G(), exitBlock, body, i, 0, seen, g.visitCount)
        invariant Tried(g.visitCount, trial)
        decreases |g.ins| - i
      {
        body, trial, seen := ExtendOut(g, found, body, trial, i, seen);
        i := i + 1;
        DistinctFits(body, |g.ins|);
      }
      CountedAll(g.G(), exitBlock, body, seen, g.visitCount);
      forall other: seq<nat> | (forall b :: b in found ==> b in other) && ClosedUnderJoins(g.G(), exitBlock, other)
        ensures forall b :: b in body ==> b in other
      {
        GrownIsLeast(g.G(), exitBlock, found, body, other, |body|);
      }
      ClearCounts(g, trial);
    }

    /** The out-edges of body[i] are looked at. */
    method ExtendOut(g: BlockGraph, ghost body0: seq<nat>, found: seq<nat>, tried: seq<nat>, i: nat,
                     ghost seen0: seq<set<nat>>)
      returns (body: seq<nat>, trial: seq<nat>, ghost seen: seq<set<nat>>)
      requires Paired(g.G()) && g.Sized() && MarksAre(g.mark, {}, found) && i < |found|
      requires Grown(g.G(), exitBlock, body0, found) && Tried(g.visitCount, tried)
      requires Counted(g.G(), exitBlock, found, i, 0, seen0, g.visitCount)
      modifies g`mark, g`visitCount
      ensures g.Sized() && MarksAre(g.mark, {}, body) && i < |body|
      ensures Grown(g.G(), exitBlock, body0, body) && Tried(g.visitCount, trial)
      ensures Counted(g.G(), exitBlock, body, i + 1, 0, seen, g.visitCount)
    {
      hide Grown, Counted, Tried;
      body, trial, seen := found, tried, seen0;
      var bl := body[i];
      var j := 0;
      GrownIn(g.G(), exitBlock, body0, body, i);
      while j < |g.outs[bl]|
        invariant j <= |g.outs[bl]| && g.Sized() && MarksAre(g.mark, {}, body)
        invariant i < |body| && body[i] == bl && Grown(g.G(), exitBlock, body0, body) && Tried(g.visitCount, trial)
        invariant Counted(g.G(), exitBlock, body, i, j, seen, g.visitCount)
      {
        var e := g.outs[bl][j];
        assert OutPaired(g.G(), bl, j);
        GrownIn(g.G(), exitBlock, body0, body, i);
        if Goto(e) || g.mark[e.point] || exitBlock == Some(e.point) {
          CountSkipped(g.G(), exitBlock, body, i, j, seen, g.visitCount);
        } else {
          seen := CountOne(g.G(), exitBlock, body0, body, i, j, seen, g.visitCount);
          var count := g.visitCount[e.point];
          TriedOne(g.visitCount, trial, e.point);
          if count == 0 {
            trial := trial + [e.point];
          }
          count := count + 1;
          g.visitCount := g.visitCount[e.point := count];
          if count == |g.ins[e.point]| {
            g.mark := g.mark[e.point := true];
            body := body + [e.point];
          }
        }
        j := j + 1;
      }
      GrownIn(g.G(), exitBlock, body0, body, i);
      CountedAdvance(g.G(), exitBlock, body, i, seen, g.visitCount);
    }
  }

  /** findBase: a finished trace from head and tails is exactly the base. */
  lemma BaseFound(ins: Adj, head: nat, tails: seq<nat>, first: seq<nat>, body: seq<nat>)
    requires |first| > 0 && first[0] == head && Traced(ins, {}, first, 1, body)
    requires forall b: nat :: b in first <==> b == head || b in tails
    requires forall j: nat :: 1 <= j < |body| ==> Gathered(ins, {}, body, body[j])
    ensures forall b: nat :: b in body <==> InBase(ins, head, tails, b)
  {
    forall i | 0 <= i < |first| ensures InBase(ins, head, tails, first[i]) {
      if first[i] != head { TailInBase(ins, head, tails, first[i]); }
    }
    forall b: nat | b in body ensures InBase(ins, head, tails, b) {
      var j: nat :| j < |body| && body[j] == b;
      TracedInBase(ins, head, tails, {}, first, 1, body, j);
    }
    var inside := iset b: nat | b in body;
    assert body[0] == head;
    forall t | t in tails ensures t in inside {
      assert t in first;
      var i: nat :| i < |first| && first[i] == t;
      assert body[i] == t;
    }
    forall x: nat, y: nat | y in inside && y != head && Steps(ins, x, y) ensures x in inside {
      var j: nat :| j < |body| && body[j] == y;
      assert Gathered(ins, {}, body, body[j]);
    }
    forall b: nat | InBase(ins, head, tails, b) ensures b in body {
      if b != head {
        var p :| Trail(ins, head, tails, p, b);
        TrailStaysInside(ins, head, tails, inside, p, b);
      }
    }
  }

  lemma ContainerFound(ins: Adj, inner: nat, head: nat, tails: seq<nat>, kept: set<nat>, first: seq<nat>, start: nat,
                       body: seq<nat>)
    requires Traced(ins, kept, first, start, body) && inner in kept
    requires forall x: nat, y: nat :: y in kept && y != inner && Steps(ins, x, y) ==> x in kept
    requires (start == 0 && head in kept) || (start == 1 && head == first[0])
    requires forall t: nat :: t in tails ==> t in kept || t in first
    requires forall b: nat :: b in first ==> InBase(ins, head, tails, b)
    requires inner != head ==> Gathered(ins, kept, first, inner)
    requires forall j: nat :: start <= j < |body| ==> Gathered(ins, kept, body, body[j])
    ensures forall b: nat :: b !in kept ==> (b in body <==> InBase(ins, head, tails, b))
  {
    forall b: nat | b in body ensures InBase(ins, head, tails, b) {
      var j: nat :| j < |body| && body[j] == b;
      TracedInBase(ins, head, tails, kept, first, start, body, j);
    }
    assert forall b :: b in first ==> b in body by {
      forall b | b in first ensures b in body {
        var i :| 0 <= i < |first| && first[i] == b;
        assert body[i] == b;
      }
    }
    var inside := iset b: nat | b in kept || b in body;
    forall x: nat, y: nat | y in inside && y != head && Steps(ins, x, y) ensures x in inside {
      if y in kept {
      } else {
        var j: nat :| j < |body| && body[j] == y;
        assert start == 1 ==> body[0] == first[0];
        assert Gathered(ins, kept, body, body[j]);
      }
    }
    forall b: nat | InBase(ins, head, tails, b) && b !in kept ensures b in body {
      if b == head {
        assert body[0] == first[0];
      } else {
        var p :| Trail(ins, head, tails, p, b);
        TrailStaysInside(ins, head, tails, inside, p, b);
      }
    }
  }
}
