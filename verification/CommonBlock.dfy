/** Queries on the dominator tree that climb immed_dom links: dominates and both forms of findCommonBlock. */
module CommonBlock {

  import opened Wrappers
  import opened Flow
  import opened Dominance
  import opened Dominators
  import opened EntryPoints

  type Parents = seq<Option<nat>>

  /** Blocks linked upwards by immed_dom, every block having a larger index than the one above it. */
  ghost predicate Rising(nodes: set<nat>, up: Parents, index: seq<int>) {
    && (forall b :: b in nodes ==> b < |up| && b < |index| && index[b] >= 0)
    && forall b {:trigger up[b]} :: b in nodes && up[b].Some? ==> up[b].value in nodes && index[up[b].value] < index[b]
  }

  /** a is b, or above b. */
  ghost predicate Over(nodes: set<nat>, up: Parents, index: seq<int>, a: nat, b: nat)
    requires Rising(nodes, up, index) && b in nodes
    decreases index[b]
  {
    a == b || (up[b].Some? && Over(nodes, up, index, a, up[b].value))
  }

  lemma {:induction false} OverRises(nodes: set<nat>, up: Parents, index: seq<int>, a: nat, b: nat)
    requires Rising(nodes, up, index) && b in nodes && Over(nodes, up, index, a, b)
    ensures a in nodes && (a == b || index[a] < index[b])
    decreases index[b]
  {
    if a != b { OverRises(nodes, up, index, a, up[b].value); }
  }

  lemma {:induction false} OverTransitive(nodes: set<nat>, up: Parents, index: seq<int>, a: nat, b: nat, c: nat)
    requires Rising(nodes, up, index) && c in nodes && b in nodes && Over(nodes, up, index, a, b) &&
               Over(nodes, up, index, b, c)
    ensures Over(nodes, up, index, a, c)
    decreases index[c]
  {
    if b != c { OverTransitive(nodes, up, index, a, b, up[c].value); }
  }

  /** Two blocks above the same one are one above the other. */
  lemma {:induction false} OverTotal(nodes: set<nat>, up: Parents, index: seq<int>, a: nat, b: nat, c: nat)
    requires Rising(nodes, up, index) && c in nodes && Over(nodes, up, index, a, c) && Over(nodes, up, index, b, c)
    ensures a in nodes && b in nodes && (Over(nodes, up, index, a, b) || Over(nodes, up, index, b, a))
    decreases index[c]
  {
    OverRises(nodes, up, index, a, c);
    OverRises(nodes, up, index, b, c);
    if a != c && b != c { OverTotal(nodes, up, index, a, b, up[c].value); }
  }

  /** a is strictly below b on the way up from c; everything, when b is no block at all. */
  ghost predicate Under(nodes: set<nat>, up: Parents, index: seq<int>, x: nat, c: nat, b: Option<nat>)
    requires Rising(nodes, up, index) && c in nodes && (b.Some? ==> b.value in nodes)
  {
    Over(nodes, up, index, x, c) && (b.Some? ==> !Over(nodes, up, index, x, b.value))
  }

  /** One step up adds just the block left. */
  lemma UnderStep(nodes: set<nat>, up: Parents, index: seq<int>, c: nat, b: nat, x: nat)
    requires Rising(nodes, up, index) && c in nodes && b in nodes && Over(nodes, up, index, b, c)
    ensures Under(nodes, up, index, x, c, up[b]) <==> Under(nodes, up, index, x, c, Some(b)) || x == b
  {
    if up[b].Some? {
      if Over(nodes, up, index, b, up[b].value) { OverRises(nodes, up, index, b, up[b].value); }
    }
    if Over(nodes, up, index, x, c) {
      OverTotal(nodes, up, index, x, b, c);
      if Over(nodes, up, index, x, b) && x != b { assert Over(nodes, up, index, x, up[b].value); }
    }
  }

  lemma OverStep(nodes: set<nat>, up: Parents, index: seq<int>, c: nat, b: nat)
    requires Rising(nodes, up, index) && c in nodes && b in nodes && Over(nodes, up, index, b, c) && up[b].Some?
    ensures Over(nodes, up, index, up[b].value, c)
  {
    OverTransitive(nodes, up, index, up[b].value, b, c);
  }

  // ---------- dominates ----------

  /** this dominates subBlock when it is above it; smaller indices are never above. */
  method DominatesQuery(nodes: set<nat>, up: Parents, index: seq<int>, upper: nat, subBlock: nat) returns (res: bool)
    requires Rising(nodes, up, index) && upper in nodes && subBlock in nodes
    ensures res <==> Over(nodes, up, index, upper, subBlock)
  {
    var cur := Some(subBlock);
    while cur.Some? && index[upper] <= index[cur.value]
      invariant cur.Some? ==> cur.value in nodes
      invariant Over(nodes, up, index, upper, subBlock) <==> cur.Some? && Over(nodes, up, index, upper, cur.value)
      decreases if cur.Some? then index[cur.value] + 1 else 0
    {
      if cur.value == upper { return true; }
      cur := up[cur.value];
    }
    if cur.Some? && Over(nodes, up, index, upper, cur.value) { OverRises(nodes, up, index, upper, cur.value); }
    return false;
  }

  // ---------- the pair form ----------

  /** r is above both, and below every block above both. */
  ghost predicate Nearest(nodes: set<nat>, up: Parents, index: seq<int>, a: nat, b: nat, r: nat)
    requires Rising(nodes, up, index) && a in nodes && b in nodes
  {
    && r in nodes && Over(nodes, up, index, r, a) && Over(nodes, up, index, r, b)
    && forall x: nat :: Over(nodes, up, index, x, a) && Over(nodes, up, index, x, b) ==> Over(nodes, up, index, x, r)
  }

  ghost predicate IsNearest(nodes: set<nat>, up: Parents, index: seq<int>, a: nat, b: nat, r: Option<nat>)
    requires Rising(nodes, up, index) && a in nodes && b in nodes
  {
    match r
    case Some(c) => Nearest(nodes, up, index, a, b, c)
    case None => forall x: nat :: !(Over(nodes, up, index, x, a) && Over(nodes, up, index, x, b))
  }

  ghost predicate At(nodes: set<nat>, up: Parents, index: seq<int>, c: nat, b: Option<nat>)
    requires Rising(nodes, up, index) && c in nodes
  {
    b.Some? ==> b.value in nodes && Over(nodes, up, index, b.value, c)
  }

  /** The marks are on the parts already climbed, from both sides, and the two parts have nothing in common. */
  ghost predicate Climbed(nodes: set<nat>, up: Parents, index: seq<int>, mark: seq<bool>, a: nat, b: nat,
                          x: Option<nat>, y: Option<nat>) {
    && Rising(nodes, up, index) && a in nodes && b in nodes && At(nodes, up, index, a, x) && At(nodes, up, index, b, y)
    && (forall n :: n in nodes ==>
       n < |mark| && (mark[n] <==> Under(nodes, up, index, n, a, x) || Under(nodes, up, index, n, b, y)))
    && forall n :: n in nodes ==> !(Under(nodes, up, index, n, a, x) && Under(nodes, up, index, n, b, y))
  }

  lemma ClimbedFlip(nodes: set<nat>, up: Parents, index: seq<int>, mark: seq<bool>, a: nat, b: nat, x: Option<nat>,
                    y: Option<nat>)
    requires Climbed(nodes, up, index, mark, a, b, x, y)
    ensures Climbed(nodes, up, index, mark, b, a, y, x)
  {
  }

  /** The block reached on one side was climbed on the other: it is the nearest common one. */
  lemma MeetingIsNearest(nodes: set<nat>, up: Parents, index: seq<int>, mark: seq<bool>, a: nat, b: nat, x: nat,
                         y: Option<nat>)
    requires Climbed(nodes, up, index, mark, a, b, Some(x), y) && mark[x]
    ensures Nearest(nodes, up, index, a, b, x)
  {
    assert Over(nodes, up, index, x, x);
    assert Under(nodes, up, index, x, b, y);
    forall z: nat | Over(nodes, up, index, z, a) && Over(nodes, up, index, z, b) ensures Over(nodes, up, index, z, x) {
      OverRises(nodes, up, index, z, a);
      OverTotal(nodes, up, index, z, x, a);
      if !Over(nodes, up, index, z, x) {
        if y.Some? && Over(nodes, up, index, z, y.value) { OverTransitive(nodes, up, index, x, z, y.value); }
        assert Under(nodes, up, index, z, a, Some(x)) && Under(nodes, up, index, z, b, y);
      }
    }
  }

  /** One step up on the first side, its block marked. */
  lemma ClimbOne(nodes: set<nat>, up: Parents, index: seq<int>, mark: seq<bool>, a: nat, b: nat, x: nat, y: Option<nat>)
    requires Climbed(nodes, up, index, mark, a, b, Some(x), y) && !mark[x]
    ensures Climbed(nodes, up, index, mark[x := true], a, b, up[x], y)
  {
    if up[x].Some? { OverStep(nodes, up, index, a, x); }
    forall n | n in nodes
      ensures Under(nodes, up, index, n, a, up[x]) <==> Under(nodes, up, index, n, a, Some(x)) || n == x
    {
      UnderStep(nodes, up, index, a, x, n);
    }
  }

  /** One side is climbed to the top. The other goes on until it meets a mark. */
  method ClimbAlone(nodes: set<nat>, up: Parents, index: seq<int>, mark: seq<bool>, ghost a: nat, ghost b: nat,
                    start: Option<nat>)
    returns (common: Option<nat>)
    requires Climbed(nodes, up, index, mark, a, b, start, None)
    ensures IsNearest(nodes, up, index, a, b, common)
  {
    var x := start;
    while x.Some?
      invariant At(nodes, up, index, a, x) && (x.Some? ==> start.Some? && Over(nodes, up, index, x.value, start.value))
      invariant forall n :: n in nodes && Under(nodes, up, index, n, a, x) ==> !Over(nodes, up, index, n, b)
      decreases if x.Some? then index[x.value] + 1 else 0
    {
      assert Over(nodes, up, index, x.value, x.value);
      assert mark[x.value] <==> Over(nodes, up, index, x.value, b);
      if mark[x.value] {
        forall z: nat | Over(nodes, up, index, z, a) && Over(nodes, up, index, z, b)
          ensures Over(nodes, up, index, z, x.value)
        {
          OverRises(nodes, up, index, z, a);
          assert !Under(nodes, up, index, z, a, x);
        }
        return x;
      }
      if up[x.value].Some? {
        OverStep(nodes, up, index, a, x.value);
        OverStep(nodes, up, index, start.value, x.value);
      }
      forall n | n in nodes && Under(nodes, up, index, n, a, up[x.value]) ensures !Over(nodes, up, index, n, b) {
        UnderStep(nodes, up, index, a, x.value, n);
      }
      x := up[x.value];
    }
    forall z: nat ensures !(Over(nodes, up, index, z, a) && Over(nodes, up, index, z, b)) {
      if Over(nodes, up, index, z, a) {
        OverRises(nodes, up, index, z, a);
        assert Under(nodes, up, index, z, a, None);
      }
    }
    return None;
  }

  /** The marked blocks above b form an unbroken way up from b. */
  ghost predicate FromBelow(nodes: set<nat>, up: Parents, index: seq<int>, mark: seq<bool>, b: nat)
    requires Rising(nodes, up, index) && b in nodes && forall n :: n in nodes ==> n < |mark|
  {
    && (forall n :: n in nodes && mark[n] ==> Over(nodes, up, index, n, b))
    && forall n, m ::
         n in nodes && m in nodes && mark[n] && Over(nodes, up, index, m, b) && Over(nodes, up, index, n, m) ==> mark[m]
  }

  /** Clears marks upwards from b until one is missing. */
  method ClearUp(nodes: set<nat>, up: Parents, index: seq<int>, mark0: seq<bool>, b: nat)
                 returns (mark: seq<bool>, x: Option<nat>)
    requires Rising(nodes, up, index) && b in nodes && forall n :: n in nodes ==> n < |mark0|
    ensures |mark| == |mark0| && At(nodes, up, index, b, x) && (x.Some? ==> !mark0[x.value])
    ensures forall n :: n in nodes ==> mark[n] == (mark0[n] && !Under(nodes, up, index, n, b, x))
    ensures forall n :: n in nodes && Under(nodes, up, index, n, b, x) ==> mark0[n]
    ensures forall n :: 0 <= n < |mark0| && n !in nodes ==> mark[n] == mark0[n]
  {
    mark, x := mark0, Some(b);
    while x.Some?
      invariant |mark| == |mark0| && At(nodes, up, index, b, x)
      invariant forall n :: n in nodes ==> mark[n] == (mark0[n] && !Under(nodes, up, index, n, b, x))
      invariant forall n :: n in nodes && Under(nodes, up, index, n, b, x) ==> mark0[n]
      invariant forall n :: 0 <= n < |mark0| && n !in nodes ==> mark[n] == mark0[n]
      decreases if x.Some? then index[x.value] + 1 else 0
    {
      assert !Under(nodes, up, index, x.value, b, x);
      if !mark[x.value] { break; }
      if up[x.value].Some? { OverStep(nodes, up, index, b, x.value); }
      forall n | n in nodes
        ensures Under(nodes, up, index, n, b, up[x.value]) <==> Under(nodes, up, index, n, b, x) || n == x.value
      {
        UnderStep(nodes, up, index, b, x.value, n);
      }
      mark := mark[x.value := false];
      x := up[x.value];
    }
  }

  lemma UnderBelow(nodes: set<nat>, up: Parents, index: seq<int>, c: nat, b: Option<nat>, n: nat, z: nat)
    requires Rising(nodes, up, index) && c in nodes && (b.Some? ==> b.value in nodes) && z in nodes
    requires Under(nodes, up, index, n, c, b) && Over(nodes, up, index, z, c) && Over(nodes, up, index, n, z)
    ensures Under(nodes, up, index, z, c, b)
  {
    if b.Some? && Over(nodes, up, index, z, b.value) { OverTransitive(nodes, up, index, n, z, b.value); }
  }

  /** What the first pass leaves is an unbroken way up from the other side. */
  lemma LeftFromBelow(nodes: set<nat>, up: Parents, index: seq<int>, mark: seq<bool>, left: seq<bool>, a: nat, b: nat,
                      x: Option<nat>, y: Option<nat>, z: Option<nat>)
    requires Climbed(nodes, up, index, mark, a, b, x, y) && |left| == |mark| && At(nodes, up, index, a, z) &&
               (z.Some? ==> !mark[z.value])
    requires forall n :: n in nodes ==> left[n] == (mark[n] && !Under(nodes, up, index, n, a, z))
    ensures FromBelow(nodes, up, index, left, b)
  {
    forall n | n in nodes && left[n] ensures Over(nodes, up, index, n, b) && Under(nodes, up, index, n, b, y) {
      if Under(nodes, up, index, n, a, x) {
        // n was climbed from a, so it was cleared unless z stopped the pass below it, and z would then be marked
        if z.Some? {
          assert Over(nodes, up, index, n, z.value);
          UnderBelow(nodes, up, index, a, x, n, z.value);
        }
      }
    }
    forall n, m | n in nodes && m in nodes && left[n] && Over(nodes, up, index, m, b) && Over(nodes, up, index, n, m)
      ensures left[m]
    {
      if y.Some? && Over(nodes, up, index, m, y.value) { OverTransitive(nodes, up, index, n, m, y.value); }
      assert Under(nodes, up, index, m, b, y);
      if Under(nodes, up, index, m, a, z) {
        OverTransitive(nodes, up, index, n, m, a);
        if z.Some? {
          assert Over(nodes, up, index, n, z.value);
          StopBetween(nodes, up, index, a, b, m, z.value, n);
          UnderBelow(nodes, up, index, b, y, n, z.value);
        }
      }
    }
  }

  /** z, on the way up from a, lies between m and n, which are both on the way up from b: so does z. */
  lemma StopBetween(nodes: set<nat>, up: Parents, index: seq<int>, a: nat, b: nat, m: nat, z: nat, n: nat)
    requires Rising(nodes, up, index) && a in nodes && b in nodes && z in nodes && m in nodes
    requires Over(nodes, up, index, m, a) && Over(nodes, up, index, z, a) && !Over(nodes, up, index, m, z) &&
               Over(nodes, up, index, m, b)
    ensures Over(nodes, up, index, z, b)
  {
    OverTotal(nodes, up, index, m, z, a);
    OverTransitive(nodes, up, index, z, m, b);
  }

  /** Climbs from both blocks in turn until one side meets the other's marks. */
  method FindCommonPair(nodes: set<nat>, up: Parents, index: seq<int>, mark0: seq<bool>, bl1: nat, bl2: nat)
                        returns (common: Option<nat>, mark: seq<bool>)
    requires Rising(nodes, up, index) && bl1 in nodes && bl2 in nodes &&
               (forall n :: n in nodes ==> n < |mark0| && !mark0[n])
    ensures IsNearest(nodes, up, index, bl1, bl2, common) && mark == mark0
  {
    hide Over, Nearest;
    mark := mark0;
    var b1, b2 := Some(bl1), Some(bl2);
    ClimbStarts(nodes, up, index, mark, bl1, bl2);
    common := None;
    while true
      invariant |mark| == |mark0| && Climbed(nodes, up, index, mark, bl1, bl2, b1, b2) && common == None
      invariant forall n :: 0 <= n < |mark0| && n !in nodes ==> mark[n] == mark0[n]
      decreases if b1.Some? then index[b1.value] + 1 else 0, if b2.Some? then index[b2.value] + 1 else 0
    {
      if b2 == None {
        common := ClimbAlone(nodes, up, index, mark, bl1, bl2, b1);
        break;
      }
      if b1 == None {
        ClimbedFlip(nodes, up, index, mark, bl1, bl2, b1, b2);
        common := ClimbAlone(nodes, up, index, mark, bl2, bl1, b2);
        NearestFlip(nodes, up, index, bl1, bl2, common);
        break;
      }
      if mark[b1.value] {
        MeetingIsNearest(nodes, up, index, mark, bl1, bl2, b1.value, b2);
        common := b1;
        break;
      }
      ClimbOne(nodes, up, index, mark, bl1, bl2, b1.value, b2);
      mark := mark[b1.value := true];
      b1 := up[b1.value];
      ClimbedFlip(nodes, up, index, mark, bl1, bl2, b1, b2);
      if mark[b2.value] {
        MeetingIsNearest(nodes, up, index, mark, bl2, bl1, b2.value, b1);
        NearestFlip(nodes, up, index, bl1, bl2, b2);
        common := b2;
        break;
      }
      ClimbOne(nodes, up, index, mark, bl2, bl1, b2.value, b1);
      mark := mark[b2.value := true];
      b2 := up[b2.value];
      ClimbedFlip(nodes, up, index, mark, bl2, bl1, b2, b1);
    }
    ghost var climbed := mark;
    var x;
    mark, x := ClearUp(nodes, up, index, mark, bl1);
    LeftFromBelow(nodes, up, index, climbed, mark, bl1, bl2, b1, b2, x);
    ghost var left := mark;
    mark, x := ClearUp(nodes, up, index, mark, bl2);
    NothingLeft(nodes, up, index, left, mark, bl2, x);
    assert mark == mark0;
  }

  lemma ClimbStarts(nodes: set<nat>, up: Parents, index: seq<int>, mark: seq<bool>, a: nat, b: nat)
    requires Rising(nodes, up, index) && a in nodes && b in nodes && (forall n :: n in nodes ==> n < |mark| && !mark[n])
    ensures Climbed(nodes, up, index, mark, a, b, Some(a), Some(b))
  {
  }

  lemma NearestFlip(nodes: set<nat>, up: Parents, index: seq<int>, a: nat, b: nat, r: Option<nat>)
    requires Rising(nodes, up, index) && a in nodes && b in nodes && IsNearest(nodes, up, index, b, a, r)
    ensures IsNearest(nodes, up, index, a, b, r)
  {
  }

  lemma NothingLeft(nodes: set<nat>, up: Parents, index: seq<int>, left: seq<bool>, mark: seq<bool>, b: nat,
                    x: Option<nat>)
    requires Rising(nodes, up, index) && b in nodes && |mark| == |left| && (forall n :: n in nodes ==> n < |left|)
    requires FromBelow(nodes, up, index, left, b) && At(nodes, up, index, b, x) && (x.Some? ==> !left[x.value])
    requires forall n :: n in nodes ==> mark[n] == (left[n] && !Under(nodes, up, index, n, b, x))
    ensures forall n :: n in nodes ==> !mark[n]
  {
  }

  // ---------- the set form ----------

  ghost predicate InNodes(nodes: set<nat>, blocks: seq<nat>) {
    forall i :: 0 <= i < |blocks| ==> blocks[i] in nodes
  }

  lemma PrefixInNodes(nodes: set<nat>, blocks: seq<nat>)
    requires InNodes(nodes, blocks)
    ensures forall i :: 0 <= i <= |blocks| ==> InNodes(nodes, blocks[..i])
  {
  }

  ghost predicate AllOver(nodes: set<nat>, up: Parents, index: seq<int>, blocks: seq<nat>, x: nat)
    requires Rising(nodes, up, index) && InNodes(nodes, blocks)
  {
    forall i :: 0 <= i < |blocks| ==> Over(nodes, up, index, x, blocks[i])
  }

  lemma AllOverMore(nodes: set<nat>, up: Parents, index: seq<int>, blocks: seq<nat>, b: nat, x: nat)
    requires Rising(nodes, up, index) && b in nodes && InNodes(nodes, blocks)
    ensures AllOver(nodes, up, index, blocks + [b], x) <==>
              AllOver(nodes, up, index, blocks, x) && Over(nodes, up, index, x, b)
  {
    var more := blocks + [b];
    assert more[|blocks|] == b && forall i :: 0 <= i < |blocks| ==> more[i] == blocks[i];
    if AllOver(nodes, up, index, more, x) {
      assert Over(nodes, up, index, x, more[|blocks|]);
      forall i | 0 <= i < |blocks| ensures Over(nodes, up, index, x, blocks[i]) {
        assert Over(nodes, up, index, x, more[i]);
      }
    }
  }

  lemma AllOverTransitive(nodes: set<nat>, up: Parents, index: seq<int>, blocks: seq<nat>, x: nat, y: nat)
    requires Rising(nodes, up, index) && y in nodes && InNodes(nodes, blocks)
    requires AllOver(nodes, up, index, blocks, y) && Over(nodes, up, index, x, y)
    ensures AllOver(nodes, up, index, blocks, x)
  {
    forall i | 0 <= i < |blocks| ensures Over(nodes, up, index, x, blocks[i]) {
      OverTransitive(nodes, up, index, x, y, blocks[i]);
    }
  }

  /** r is above all of the blocks, and below every block above all of them. */
  ghost predicate NearestOfAll(nodes: set<nat>, up: Parents, index: seq<int>, blocks: seq<nat>, r: nat)
    requires Rising(nodes, up, index) && InNodes(nodes, blocks)
  {
    && r in nodes && AllOver(nodes, up, index, blocks, r)
    && forall x: nat :: AllOver(nodes, up, index, blocks, x) ==> Over(nodes, up, index, x, r)
  }

  ghost predicate SomeOver(nodes: set<nat>, up: Parents, index: seq<int>, blocks: seq<nat>, x: nat)
    requires Rising(nodes, up, index) && InNodes(nodes, blocks)
  {
    exists i :: 0 <= i < |blocks| && Over(nodes, up, index, x, blocks[i])
  }

  lemma SomeOverMore(nodes: set<nat>, up: Parents, index: seq<int>, blocks: seq<nat>, b: nat, x: nat)
    requires Rising(nodes, up, index) && InNodes(nodes, blocks) && b in nodes
    ensures SomeOver(nodes, up, index, blocks + [b], x) <==>
              SomeOver(nodes, up, index, blocks, x) || Over(nodes, up, index, x, b)
  {
    var more := blocks + [b];
    assert more[|blocks|] == b;
    if SomeOver(nodes, up, index, blocks, x) {
      var i :| 0 <= i < |blocks| && Over(nodes, up, index, x, blocks[i]);
      assert more[i] == blocks[i];
    }
  }

  /** Exactly the blocks above one of the given blocks are marked, and they are all in the list. */
  ghost predicate MarkedAbove(nodes: set<nat>, up: Parents, index: seq<int>, blocks: seq<nat>, mark: seq<bool>,
                              marked: seq<nat>)
    requires Rising(nodes, up, index) && InNodes(nodes, blocks)
  {
    && (forall n :: n in nodes ==> n < |mark| && (mark[n] <==> SomeOver(nodes, up, index, blocks, n)))
    && forall n :: n in nodes ==> (mark[n] <==> n in marked)
  }

  /** Marks the way up from b until a mark is met. */
  method MarkUp(nodes: set<nat>, up: Parents, index: seq<int>, mark0: seq<bool>, marked0: seq<nat>, ghost root: nat,
                b: nat)
    returns (mark: seq<bool>, marked: seq<nat>, m: nat)
    requires Rising(nodes, up, index) && b in nodes &&
               (forall n :: n in nodes ==> n < |mark0| && (mark0[n] <==> n in marked0))
    requires root in nodes && mark0[root] && Over(nodes, up, index, root, b)
    ensures |mark| == |mark0| && m in nodes && Over(nodes, up, index, m, b) && mark0[m]
    ensures forall n :: n in nodes && Over(nodes, up, index, n, b) && mark0[n] ==> Over(nodes, up, index, n, m)
    ensures forall n :: n in nodes ==>
              (mark[n] <==> mark0[n] || Under(nodes, up, index, n, b, Some(m))) && (mark[n] <==> n in marked)
    ensures forall n :: 0 <= n < |mark0| && n !in nodes ==> mark[n] == mark0[n]
    ensures forall n :: n in marked ==> n in marked0 || n in nodes
  {
    mark, marked, m := mark0, marked0, b;
    while !mark[m]
      invariant |mark| == |mark0| && m in nodes && Over(nodes, up, index, m, b) && Over(nodes, up, index, root, m)
      invariant forall n :: n in nodes && Over(nodes, up, index, n, b) && mark0[n] ==> Over(nodes, up, index, n, m)
      invariant forall n :: n in nodes ==>
                  (mark[n] <==> mark0[n] || Under(nodes, up, index, n, b, Some(m))) && (mark[n] <==> n in marked)
      invariant forall n :: 0 <= n < |mark0| && n !in nodes ==> mark[n] == mark0[n]
      invariant forall n :: n in marked ==> n in marked0 || n in nodes
      decreases index[m]
    {
      assert m != root;
      OverStep(nodes, up, index, b, m);
      forall n | n in nodes
        ensures Under(nodes, up, index, n, b, up[m]) <==> Under(nodes, up, index, n, b, Some(m)) || n == m
      {
        UnderStep(nodes, up, index, b, m, n);
      }
      mark := mark[m := true];
      marked := marked + [m];
      m := up[m].value;
    }
    assert !Under(nodes, up, index, m, b, Some(m));
  }

  /** The higher of the old nearest block and the meeting point is above all, and below every block above all. */
  lemma NewNearest(nodes: set<nat>, up: Parents, index: seq<int>, blocks: seq<nat>, mark: seq<bool>, marked: seq<nat>,
                   r: nat, b: nat, m: nat, r': nat)
    requires Rising(nodes, up, index) && blocks != [] && b in nodes && InNodes(nodes, blocks)
    requires NearestOfAll(nodes, up, index, blocks, r) && MarkedAbove(nodes, up, index, blocks, mark, marked)
    requires m in nodes && Over(nodes, up, index, m, b) && r' in nodes && (r' == m || r' == r)
    requires Over(nodes, up, index, r', r) && Over(nodes, up, index, r', m)
    requires forall n :: n in nodes && Over(nodes, up, index, n, b) && mark[n] ==> Over(nodes, up, index, n, m)
    ensures NearestOfAll(nodes, up, index, blocks + [b], r')
  {
    OverTransitive(nodes, up, index, r', m, b);
    AllOverTransitive(nodes, up, index, blocks, r', r);
    AllOverMore(nodes, up, index, blocks, b, r');
    forall x: nat | AllOver(nodes, up, index, blocks + [b], x) ensures Over(nodes, up, index, x, r') {
      AllOverMore(nodes, up, index, blocks, b, x);
      AllOverIsMarked(nodes, up, index, blocks, mark, marked, x);
    }
  }

  /** The chain of one more block joins the others at m: m is the new nearest block, or the old one still is. */
  lemma OneMoreBlock(nodes: set<nat>, up: Parents, index: seq<int>, blocks: seq<nat>, mark: seq<bool>, marked: seq<nat>,
                     r: nat, b: nat, m: nat)
    requires Rising(nodes, up, index) && blocks != [] && b in nodes && InNodes(nodes, blocks)
    requires NearestOfAll(nodes, up, index, blocks, r) && MarkedAbove(nodes, up, index, blocks, mark, marked)
    requires m in nodes && mark[m] && Over(nodes, up, index, m, b)
    requires forall n :: n in nodes && Over(nodes, up, index, n, b) && mark[n] ==> Over(nodes, up, index, n, m)
    ensures NearestOfAll(nodes, up, index, blocks + [b], if index[m] < index[r] then m else r)
  {
    HigherOfTwo(nodes, up, index, blocks, mark, marked, r, m);
    NewNearest(nodes, up, index, blocks, mark, marked, r, b, m, if index[m] < index[r] then m else r);
  }

  lemma HigherOfTwo(nodes: set<nat>, up: Parents, index: seq<int>, blocks: seq<nat>, mark: seq<bool>, marked: seq<nat>,
                    r: nat, m: nat)
    requires Rising(nodes, up, index) && blocks != [] && InNodes(nodes, blocks)
    requires NearestOfAll(nodes, up, index, blocks, r) && MarkedAbove(nodes, up, index, blocks, mark, marked) &&
               m in nodes && mark[m]
    ensures var r' := if index[m] < index[r] then m else r;
              Over(nodes, up, index, r', r) && Over(nodes, up, index, r', m)
  {
    var j :| 0 <= j < |blocks| && Over(nodes, up, index, m, blocks[j]);
    assert Over(nodes, up, index, r, blocks[j]);
    OverTotal(nodes, up, index, m, r, blocks[j]);
    if Over(nodes, up, index, m, r) { OverRises(nodes, up, index, m, r); } else { OverRises(nodes, up, index, r, m); }
  }

  lemma AllOverIsMarked(nodes: set<nat>, up: Parents, index: seq<int>, blocks: seq<nat>, mark: seq<bool>,
                        marked: seq<nat>, x: nat)
    requires Rising(nodes, up, index) && blocks != [] && InNodes(nodes, blocks)
    requires MarkedAbove(nodes, up, index, blocks, mark, marked) && AllOver(nodes, up, index, blocks, x)
    ensures x in nodes && mark[x]
  {
    assert Over(nodes, up, index, x, blocks[0]);
    OverRises(nodes, up, index, x, blocks[0]);
  }

  lemma MarkedMore(nodes: set<nat>, up: Parents, index: seq<int>, blocks: seq<nat>, mark: seq<bool>, marked: seq<nat>,
                   mark': seq<bool>, marked': seq<nat>, b: nat, m: nat)
    requires Rising(nodes, up, index) && b in nodes && m in nodes && Over(nodes, up, index, m, b) &&
               InNodes(nodes, blocks)
    requires MarkedAbove(nodes, up, index, blocks, mark, marked) && mark[m] && |mark'| == |mark| &&
               InNodes(nodes, blocks + [b])
    requires forall n :: n in nodes ==>
               (mark'[n] <==> mark[n] || Under(nodes, up, index, n, b, Some(m))) && (mark'[n] <==> n in marked')
    ensures MarkedAbove(nodes, up, index, blocks + [b], mark', marked')
  {
    assert SomeOver(nodes, up, index, blocks, m);
    hide Over, SomeOver, InNodes, Rising;
    forall n | n in nodes ensures mark'[n] <==> SomeOver(nodes, up, index, blocks + [b], n) {
      UnderOneMore(nodes, up, index, blocks, b, m, n);
    }
  }

  lemma UnderOneMore(nodes: set<nat>, up: Parents, index: seq<int>, blocks: seq<nat>, b: nat, m: nat, n: nat)
    requires Rising(nodes, up, index) && InNodes(nodes, blocks) && b in nodes && m in nodes &&
               SomeOver(nodes, up, index, blocks, m)
    ensures InNodes(nodes, blocks + [b])
    ensures SomeOver(nodes, up, index, blocks + [b], n) <==>
              SomeOver(nodes, up, index, blocks, n) || Under(nodes, up, index, n, b, Some(m))
  {
    SomeOverMore(nodes, up, index, blocks, b, n);
    var j :| 0 <= j < |blocks| && Over(nodes, up, index, m, blocks[j]);
    if Over(nodes, up, index, n, m) { OverTransitive(nodes, up, index, n, m, blocks[j]); }
  }

  /** One more block of the set: if it first meets the old ways higher than ever before, that is the new best. */
  method JoinNext(nodes: set<nat>, up: Parents, index: seq<int>, mark0: seq<bool>, marked0: seq<nat>,
                  blockSet: seq<nat>, i: nat, res0: nat, ghost root: nat)
    returns (mark: seq<bool>, marked: seq<nat>, res: nat)
    requires Rising(nodes, up, index) && 0 < i < |blockSet| &&
               (forall k :: 0 <= k < |blockSet| ==> blockSet[k] in nodes && Over(nodes, up, index, root, blockSet[k]))
    requires MarkedAbove(nodes, up, index, blockSet[..i], mark0, marked0) &&
               NearestOfAll(nodes, up, index, blockSet[..i], res0) && res0 in nodes
    requires forall n :: n in marked0 ==> n in nodes
    ensures |mark| == |mark0| && res in nodes
    ensures MarkedAbove(nodes, up, index, blockSet[..i + 1], mark, marked) &&
              NearestOfAll(nodes, up, index, blockSet[..i + 1], res)
    ensures (forall n :: 0 <= n < |mark0| && n !in nodes ==> mark[n] == mark0[n]) && forall n :: n in marked ==>
              n in nodes
  {
    assert InNodes(nodes, blockSet);
    PrefixInNodes(nodes, blockSet);
    assert blockSet[i] in nodes;
    hide Over, MarkedAbove, NearestOfAll, AllOver, Under, InNodes;
    assert blockSet[..i + 1] == blockSet[..i] + [blockSet[i]];
    RootIsMarked(nodes, up, index, blockSet, i, mark0, marked0, root);
    var bl;
    mark, marked, bl := MarkUp(nodes, up, index, mark0, marked0, root, blockSet[i]);
    OneMoreBlock(nodes, up, index, blockSet[..i], mark0, marked0, res0, blockSet[i], bl);
    assert InNodes(nodes, blockSet[..i] + [blockSet[i]]);
    MarkedMore(nodes, up, index, blockSet[..i], mark0, marked0, mark, marked, blockSet[i], bl);
    res := if index[bl] < index[res0] then bl else res0;
  }

  /** The nearest block above all of a non-empty set, found as the highest first meeting with the ways
      already marked. */
  method FindCommonSet(nodes: set<nat>, up: Parents, index: seq<int>, mark0: seq<bool>, blockSet: seq<nat>,
                       ghost root: nat) returns (res: nat, mark: seq<bool>)
    requires Rising(nodes, up, index) && (forall n :: n in nodes ==> n < |mark0| && !mark0[n])
    requires blockSet != [] && forall i :: 0 <= i < |blockSet| ==>
               blockSet[i] in nodes && Over(nodes, up, index, root, blockSet[i])
    ensures NearestOfAll(nodes, up, index, blockSet, res) && mark == mark0
  {
    res := blockSet[0];
    var bestIndex := index[res];
    OverRises(nodes, up, index, root, res);
    var marked: seq<nat>;
    mark, marked := MarkFirst(nodes, up, index, mark0, res);
    assert forall n :: n in nodes ==> n < |mark| && n < |index|;
    assert InNodes(nodes, blockSet);
    PrefixInNodes(nodes, blockSet);
    hide Over, MarkedAbove, NearestOfAll, AllOver, Under, Rising, InNodes;
    assert blockSet[..1] == [blockSet[0]];
    var i := 1;
    while i < |blockSet|
      invariant 1 <= i <= |blockSet| && InNodes(nodes, blockSet[..i]) && |mark| == |mark0| && res in nodes &&
                  bestIndex == index[res]
      invariant MarkedAbove(nodes, up, index, blockSet[..i], mark, marked) &&
                  NearestOfAll(nodes, up, index, blockSet[..i], res)
      invariant forall n :: 0 <= n < |mark0| && n !in nodes ==> mark[n] == mark0[n]
      invariant forall n :: n in marked ==> n in nodes
    {
      if bestIndex == 0 {
        TopIsNearest(nodes, up, index, blockSet, i, res, root);
        break;
      }
      mark, marked, res := JoinNext(nodes, up, index, mark, marked, blockSet, i, res, root);
      bestIndex := index[res];
      i := i + 1;
    }
    assert i == |blockSet| ==> blockSet[..i] == blockSet;
    ListIsMarks(nodes, up, index, blockSet[..i], mark, marked);
    mark := ClearAll(nodes, mark, marked);
    MarksRestored(nodes, mark0, mark);
  }

  lemma MarksRestored(nodes: set<nat>, mark0: seq<bool>, mark: seq<bool>)
    requires |mark| == |mark0| && (forall n :: n in nodes ==> n < |mark0| && !mark0[n] && !mark[n])
    requires forall n :: 0 <= n < |mark0| && n !in nodes ==> mark[n] == mark0[n]
    ensures mark == mark0
  {
  }

  lemma RootIsMarked(nodes: set<nat>, up: Parents, index: seq<int>, blockSet: seq<nat>, i: nat, mark: seq<bool>,
                     marked: seq<nat>, root: nat)
    requires Rising(nodes, up, index) && 0 < i < |blockSet| && forall k :: 0 <= k < |blockSet| ==>
               blockSet[k] in nodes && Over(nodes, up, index, root, blockSet[k])
    requires MarkedAbove(nodes, up, index, blockSet[..i], mark, marked)
    ensures root in nodes && mark[root] && forall n :: n in nodes ==> n < |mark| && (mark[n] <==> n in marked)
  {
    OverRises(nodes, up, index, root, blockSet[0]);
    assert blockSet[..i][0] == blockSet[0];
  }

  lemma ListIsMarks(nodes: set<nat>, up: Parents, index: seq<int>, blocks: seq<nat>, mark: seq<bool>, marked: seq<nat>)
    requires Rising(nodes, up, index) && InNodes(nodes, blocks) && MarkedAbove(nodes, up, index, blocks, mark, marked)
    ensures forall n :: n in nodes ==> n < |mark| && (mark[n] <==> n in marked)
  {
  }

  /** Nothing is above a block of index 0, and the root is above it: it is the root, above all. */
  lemma TopIsNearest(nodes: set<nat>, up: Parents, index: seq<int>, blockSet: seq<nat>, i: nat, res: nat, root: nat)
    requires Rising(nodes, up, index) && 0 < i <= |blockSet| && forall k :: 0 <= k < |blockSet| ==>
               blockSet[k] in nodes && Over(nodes, up, index, root, blockSet[k])
    requires NearestOfAll(nodes, up, index, blockSet[..i], res) && index[res] == 0
    ensures NearestOfAll(nodes, up, index, blockSet, res)
  {
    assert blockSet[..i][0] == blockSet[0];
    assert forall k :: 0 <= k < i ==> blockSet[..i][k] == blockSet[k];
    assert AllOver(nodes, up, index, blockSet[..i], root);
    assert Over(nodes, up, index, root, res);
    OverRises(nodes, up, index, root, res);
    forall x: nat | AllOver(nodes, up, index, blockSet, x) ensures Over(nodes, up, index, x, res) {
      assert forall k :: 0 <= k < i ==> Over(nodes, up, index, x, blockSet[k]);
      assert AllOver(nodes, up, index, blockSet[..i], x);
    }
  }

  method MarkFirst(nodes: set<nat>, up: Parents, index: seq<int>, mark0: seq<bool>, b: nat)
                   returns (mark: seq<bool>, marked: seq<nat>)
    requires Rising(nodes, up, index) && b in nodes && (forall n :: n in nodes ==> n < |mark0| && !mark0[n])
    ensures |mark| == |mark0| && MarkedAbove(nodes, up, index, [b], mark, marked) &&
              NearestOfAll(nodes, up, index, [b], b)
    ensures (forall n :: 0 <= n < |mark0| && n !in nodes ==> mark[n] == mark0[n]) && forall n :: n in marked ==>
              n in nodes
  {
    mark, marked := mark0, [];
    var bl := Some(b);
    while bl.Some?
      invariant |mark| == |mark0| && At(nodes, up, index, b, bl)
      invariant forall n :: n in nodes ==>
                  (mark[n] <==> Under(nodes, up, index, n, b, bl)) && (mark[n] <==> n in marked)
      invariant (forall n :: 0 <= n < |mark0| && n !in nodes ==> mark[n] == mark0[n]) && forall n :: n in marked ==>
                  n in nodes
      decreases if bl.Some? then index[bl.value] + 1 else 0
    {
      if up[bl.value].Some? { OverStep(nodes, up, index, b, bl.value); }
      forall n | n in nodes
        ensures Under(nodes, up, index, n, b, up[bl.value]) <==> Under(nodes, up, index, n, b, bl) || n == bl.value
      {
        UnderStep(nodes, up, index, b, bl.value, n);
      }
      mark := mark[bl.value := true];
      marked := marked + [bl.value];
      bl := up[bl.value];
    }
    assert [b][0] == b;
  }

  method ClearAll(nodes: set<nat>, mark0: seq<bool>, marked: seq<nat>) returns (mark: seq<bool>)
    requires (forall n :: n in nodes ==> n < |mark0| && (mark0[n] <==> n in marked)) && forall n :: n in marked ==>
               n in nodes
    ensures |mark| == |mark0| && (forall n :: n in nodes ==> !mark[n]) && forall n ::
              0 <= n < |mark0| && n !in nodes ==> mark[n] == mark0[n]
  {
    mark := mark0;
    var i := 0;
    while i < |marked|
      invariant 0 <= i <= |marked| && |mark| == |mark0| && forall n :: 0 <= n < |mark0| ==>
                  (mark[n] <==> mark0[n] && n !in marked[..i])
    {
      assert marked[i] in nodes && marked[..i + 1] == marked[..i] + [marked[i]];
      mark := mark[marked[i] := false];
      i := i + 1;
    }
    assert marked[..i] == marked;
  }

  // ---------- above in the tree is dominance ----------

  lemma TreeRises(ins: Adj, list: seq<nat>, index: seq<int>, immedDom: seq<Option<nat>>, nodes: set<nat>)
    requires SingleEntry(ins, list, index) && DominatorTree(ins, list, index, immedDom) && forall b :: b in nodes <==>
               b in list
    ensures Rising(nodes, immedDom, index)
  {
    forall b | b in nodes
      ensures b < |immedDom| && b < |index| && index[b] >= 0
      ensures immedDom[b].Some? ==> immedDom[b].value in nodes && index[immedDom[b].value] < index[b]
    {
      var i :| 0 <= i < |list| && list[i] == b;
      if i > 0 { StrictDominatorIsSmaller(PredsOf(ins, list, index), index[immedDom[b].value], i); }
    }
  }

  lemma StrictDominatorIsSmaller(preds: Preds, d: nat, b: nat)
    requires RpoIndexed(preds) && b < |preds| && Dominates(preds, d, b) && d != b
    ensures d < b
  {
    var p := DescendingPath(preds, b);
  }

  lemma DominatesTransitive(preds: Preds, a: nat, b: nat, c: nat)
    requires Dominates(preds, a, b) && Dominates(preds, b, c)
    ensures Dominates(preds, a, c)
  {
    forall p | IsPath(preds, p, c) ensures a in p {
      var k :| 0 <= k < |p| && p[k] == b;
      assert IsPath(preds, p[..k + 1], b);
      assert a in p[..k + 1];
    }
  }

  /** Climbing immed_dom links reaches exactly the blocks that lie on every path from the entry. */
  lemma {:induction false} OverIsDominance(ins: Adj, list: seq<nat>, index: seq<int>, immedDom: seq<Option<nat>>,
                                           nodes: set<nat>, a: nat, b: nat)
    requires SingleEntry(ins, list, index) && DominatorTree(ins, list, index, immedDom) &&
               (forall b :: b in nodes <==> b in list)
    requires a in nodes && b in nodes
    ensures Rising(nodes, immedDom, index)
    ensures Over(nodes, immedDom, index, a, b) <==> Dominates(PredsOf(ins, list, index), index[a], index[b])
    decreases if b < |index| then index[b] else 0
  {
    TreeRises(ins, list, index, immedDom, nodes);
    var preds := PredsOf(ins, list, index);
    var i :| 0 <= i < |list| && list[i] == b;
    var k :| 0 <= k < |list| && list[k] == a;
    assert index[b] == i && index[a] == k;
    if a == b {
      assert Dominates(preds, i, i);
    } else if i == 0 {
      assert IsPath(preds, [0], 0);
      assert immedDom[b].None?;
    } else {
      var d := immedDom[b].value;
      OverIsDominance(ins, list, index, immedDom, nodes, a, d);
      assert ImmediateDominator(preds, index[d], i);
      if Dominates(preds, k, index[d]) { DominatesTransitive(preds, k, index[d], i); }
    }
  }

  /** The block at position d lies on every path to every block of the set. */
  ghost predicate DominatesAll(preds: Preds, index: seq<int>, blocks: seq<nat>, d: nat) {
    forall i :: 0 <= i < |blocks| ==>
      blocks[i] < |index| && index[blocks[i]] >= 0 && Dominates(preds, d, index[blocks[i]])
  }

  /** r lies on every path to every block of the set, and every block that does lies on every path to r. */
  ghost predicate NearestDominator(preds: Preds, index: seq<int>, nodes: set<nat>, blocks: seq<nat>, r: nat) {
    && r in nodes && r < |index| && index[r] >= 0 && DominatesAll(preds, index, blocks, index[r])
    && forall x: nat :: x in nodes && x < |index| && index[x] >= 0 && DominatesAll(preds, index, blocks, index[x]) ==>
         Dominates(preds, index[x], index[r])
  }

  /** A block is above all blocks of the set exactly when it lies on every path to each of them. */
  lemma AllOverIsDominance(ins: Adj, list: seq<nat>, index: seq<int>, immedDom: seq<Option<nat>>, nodes: set<nat>,
                           blocks: seq<nat>, x: nat)
    requires SingleEntry(ins, list, index) && DominatorTree(ins, list, index, immedDom)
    requires (forall b :: b in nodes <==> b in list) && InNodes(nodes, blocks) && x in nodes
    ensures Rising(nodes, immedDom, index)
    ensures AllOver(nodes, immedDom, index, blocks, x) <==>
              DominatesAll(PredsOf(ins, list, index), index, blocks, index[x])
  {
    TreeRises(ins, list, index, immedDom, nodes);
    forall i | 0 <= i < |blocks|
      ensures Over(nodes, immedDom, index, x, blocks[i]) <==>
              Dominates(PredsOf(ins, list, index), index[x], index[blocks[i]])
    {
      OverIsDominance(ins, list, index, immedDom, nodes, x, blocks[i]);
    }
  }

  /** The set form returns the nearest block that lies on every path to every block of the set. */
  lemma CommonOfAllIsNearestDominator(ins: Adj, list: seq<nat>, index: seq<int>, immedDom: seq<Option<nat>>,
                                      nodes: set<nat>, blocks: seq<nat>, r: nat)
    requires SingleEntry(ins, list, index) && DominatorTree(ins, list, index, immedDom)
    requires (forall b :: b in nodes <==> b in list) && InNodes(nodes, blocks) && blocks != []
    ensures Rising(nodes, immedDom, index)
    ensures NearestOfAll(nodes, immedDom, index, blocks, r) <==>
              NearestDominator(PredsOf(ins, list, index), index, nodes, blocks, r)
  {
    TreeRises(ins, list, index, immedDom, nodes);
    var preds := PredsOf(ins, list, index);
    forall x: nat | x in nodes
      ensures AllOver(nodes, immedDom, index, blocks, x) <==> DominatesAll(preds, index, blocks, index[x])
      ensures r in nodes ==> (Over(nodes, immedDom, index, x, r) <==> Dominates(preds, index[x], index[r]))
    {
      AllOverIsDominance(ins, list, index, immedDom, nodes, blocks, x);
      if r in nodes { OverIsDominance(ins, list, index, immedDom, nodes, x, r); }
    }
    forall x: nat | AllOver(nodes, immedDom, index, blocks, x) ensures x in nodes {
      OverRises(nodes, immedDom, index, x, blocks[0]);
    }
  }

  /** What the pair form returns is the nearest block that lies on every path to either block. */
  lemma CommonIsNearestDominator(ins: Adj, list: seq<nat>, index: seq<int>, immedDom: seq<Option<nat>>, nodes: set<nat>,
                                 a: nat, b: nat, r: nat)
    requires SingleEntry(ins, list, index) && DominatorTree(ins, list, index, immedDom) &&
               (forall b :: b in nodes <==> b in list)
    requires a in nodes && b in nodes
    ensures Rising(nodes, immedDom, index)
    ensures Nearest(nodes, immedDom, index, a, b, r) <==>
              NearestDominator(PredsOf(ins, list, index), index, nodes, [a, b], r)
  {
    CommonOfAllIsNearestDominator(ins, list, index, immedDom, nodes, [a, b], r);
    forall x: nat ensures AllOver(nodes, immedDom, index, [a, b], x) <==>
        Over(nodes, immedDom, index, x, a) && Over(nodes, immedDom, index, x, b) {
      assert [a, b][0] == a && [a, b][1] == b;
    }
  }
}
