/** A container of addresses kept as a sorted list of disjoint ranges. Offsets are 64-bit; where the
    arithmetic of the queries can wrap, it does so here. */
module RangeLists {

  import opened Wrappers

  const SPAN: nat := 0x1_0000_0000_0000_0000

  /** The bytes first to last of an address space. */
  datatype Range = Range(space: nat, first: nat, last: nat)

  datatype Address = Invalid | At(space: nat, offset: nat)

  /** 64-bit wrap-around. */
  function Wrap(n: nat): nat {
    n % SPAN
  }

  lemma WrapSmall(n: nat)
    ensures n < SPAN ==> Wrap(n) == n
    ensures Wrap(SPAN) == 0
  {
  }

  predicate Proper(r: Range) {
    r.first <= r.last < SPAN
  }

  /** The sorting order of ranges: by space, then by first byte. */
  predicate Less(a: Range, b: Range) {
    a.space < b.space || (a.space == b.space && a.first < b.first)
  }

  predicate Apart(a: Range, b: Range) {
    a.space < b.space || (a.space == b.space && a.last < b.first)
  }

  ghost predicate Ordered(tree: seq<Range>) {
    && (forall i :: 0 <= i < |tree| ==> Proper(tree[i]))
    && forall i, j :: 0 <= i < j < |tree| ==> Apart(tree[i], tree[j])
  }

  ghost predicate Holds(r: Range, space: nat, x: nat) {
    r.space == space && r.first <= x <= r.last
  }

  /** Address x of the space is in the container. */
  ghost predicate Covers(tree: seq<Range>, space: nat, x: nat) {
    exists i :: 0 <= i < |tree| && Holds(tree[i], space, x)
  }

  /** std::set::upper_bound: the first element greater than the key. */
  function UpperBound(tree: seq<Range>, key: Range): (n: nat)
    ensures n <= |tree|
    ensures n < |tree| ==> Less(key, tree[n])
    ensures forall i :: 0 <= i < n ==> !Less(key, tree[i])
  {
    if |tree| == 0 || Less(key, tree[0]) then 0 else 1 + UpperBound(tree[1..], key)
  }

  /** std::set::insert: put in place, unless an element of the same order is there. */
  function Insert(tree: seq<Range>, r: Range): seq<Range> {
    if |tree| == 0 || Less(r, tree[0]) then [r] + tree
    else if Less(tree[0], r) then [tree[0]] + Insert(tree[1..], r)
    else tree
  }

  lemma {:induction false} InsertAt(tree: seq<Range>, r: Range, n: nat)
    requires n <= |tree| && (forall i :: 0 <= i < n ==> Less(tree[i], r)) && (n < |tree| ==> Less(r, tree[n]))
    ensures Insert(tree, r) == tree[..n] + [r] + tree[n..]
  {
    if n == 0 {
    } else {
      InsertAt(tree[1..], r, n - 1);
      assert tree[..n] == [tree[0]] + tree[1..][..n - 1];
    }
  }

  /** From an ordered list on, upper bounds split it: the ranges that start at or below the key, and the others. */
  lemma {:induction false} UpperBoundSplits(tree: seq<Range>, key: Range, i: nat)
    requires Ordered(tree) && i < |tree|
    ensures Less(key, tree[i]) <==> UpperBound(tree, key) <= i
  {
    var n := UpperBound(tree, key);
    if n < i { assert Apart(tree[n], tree[i]); }
  }

  /** The first range that ends at or after the first byte. */
  function Begin(tree: seq<Range>, space: nat, first: nat): (n: nat)
    ensures n <= |tree|
  {
    var n := UpperBound(tree, Range(space, first, first));
    if n > 0 && tree[n - 1].space == space && tree[n - 1].last >= first then n - 1 else n
  }

  /** Every range of a comes before every range of b. */
  ghost predicate Before(a: seq<Range>, b: seq<Range>) {
    forall i, j :: 0 <= i < |a| && 0 <= j < |b| ==> Apart(a[i], b[j])
  }

  lemma OrderedJoin(a: seq<Range>, b: seq<Range>)
    ensures Ordered(a + b) <==> Ordered(a) && Ordered(b) && Before(a, b)
  {
    var c := a + b;
    if Ordered(c) {
      forall i | 0 <= i < |a| ensures a[i] == c[i] {
      }
      forall j | 0 <= j < |b| ensures b[j] == c[|a| + j] {
      }
    }
    if Ordered(a) && Ordered(b) && Before(a, b) {
      forall i, j | 0 <= i < j < |c| ensures Apart(c[i], c[j]) {
      }
    }
  }

  lemma CoversJoin(a: seq<Range>, b: seq<Range>, space: nat, x: nat)
    ensures Covers(a + b, space, x) <==> Covers(a, space, x) || Covers(b, space, x)
  {
    if Covers(a, space, x) {
      var i :| 0 <= i < |a| && Holds(a[i], space, x);
      assert Holds((a + b)[i], space, x);
    }
    if Covers(b, space, x) {
      var i :| 0 <= i < |b| && Holds(b[i], space, x);
      assert Holds((a + b)[|a| + i], space, x);
    }
  }

  /** The range has an address of first to last. */
  predicate Touches(r: Range, space: nat, first: nat, last: nat) {
    r.space == space && r.first <= last && first <= r.last
  }

  ghost predicate AllTouch(m: seq<Range>, space: nat, first: nat, last: nat) {
    forall i :: 0 <= i < |m| ==> Touches(m[i], space, first, last)
  }

  /** Which ranges come before Begin, and before the upper bound of the last byte. */
  lemma TouchedAt(tree: seq<Range>, space: nat, first: nat, last: nat, i: nat)
    requires Ordered(tree) && first <= last && i < |tree|
    ensures i < Begin(tree, space, first) <==> Apart(tree[i], Range(space, first, last))
    ensures i < UpperBound(tree, Range(space, last, last)) <==> !Apart(Range(space, first, last), tree[i])
  {
    var lo, hi := Range(space, first, first), Range(space, last, last);
    UpperBoundSplits(tree, lo, i);
    UpperBoundSplits(tree, hi, i);
    var u := UpperBound(tree, lo);
    if u > 0 {
      UpperBoundSplits(tree, lo, u - 1);
      if i < u - 1 { assert Apart(tree[i], tree[u - 1]); }
    }
  }

  /** Begin and the upper bound of the last byte split the list: before, touched and after. */
  lemma TouchedSlice(tree: seq<Range>, space: nat, first: nat, last: nat)
    requires Ordered(tree) && first <= last
    ensures var s, e := Begin(tree, space, first), UpperBound(tree, Range(space, last, last));
      && s <= e <= |tree|
      && Before(tree[..s], [Range(space, first, last)])
      && AllTouch(tree[s..e], space, first, last)
      && Before([Range(space, first, last)], tree[e..])
  {
    hide Begin, UpperBound, Ordered;
    forall i: nat | i < |tree|
      ensures i < Begin(tree, space, first) <==> Apart(tree[i], Range(space, first, last))
      ensures i < UpperBound(tree, Range(space, last, last)) <==> !Apart(Range(space, first, last), tree[i])
    {
      TouchedAt(tree, space, first, last, i);
    }
    var e := UpperBound(tree, Range(space, last, last));
    if e < Begin(tree, space, first) {
      ProperAt(tree, e);
    }
  }

  lemma ProperAt(tree: seq<Range>, i: nat)
    requires Ordered(tree) && i < |tree|
    ensures Proper(tree[i])
  {
  }

  /** The three parts are in order. */
  lemma PartsOrdered(tree: seq<Range>, s: nat, e: nat)
    requires Ordered(tree) && s <= e <= |tree|
    ensures Ordered(tree[..s]) && Ordered(tree[s..e]) && Ordered(tree[e..])
    ensures Before(tree[..s], tree[s..e]) && Before(tree[s..e], tree[e..]) && Before(tree[..s], tree[e..])
  {
  }

  // ---------- insertRange ----------

  /** The touched ranges and the new one as a single range. */
  function Hull(touched: seq<Range>, space: nat, first: nat, last: nat): Range {
    if |touched| == 0 then Range(space, first, last)
    else
      Range(space, if touched[0].first < first then touched[0].first else first,
                   if touched[|touched| - 1].last > last then touched[|touched| - 1].last else last)
  }

  function Inserted(tree: seq<Range>, space: nat, first: nat, last: nat): seq<Range>
    requires Ordered(tree) && first <= last
  {
    TouchedSlice(tree, space, first, last);
    var s, e := Begin(tree, space, first), UpperBound(tree, Range(space, last, last));
    tree[..s] + [Hull(tree[s..e], space, first, last)] + tree[e..]
  }

  /** The hull of ranges that touch the new one is its union with them, and stays within their bounds. */
  lemma HullIsUnion(m: seq<Range>, space: nat, first: nat, last: nat)
    requires Ordered(m) && AllTouch(m, space, first, last) && first <= last < SPAN
    ensures var h := Hull(m, space, first, last); Proper(h) && h.space == space && h.first <= first && last <= h.last
    ensures forall p: nat, x: nat :: Holds(Hull(m, space, first, last), p, x) <==>
              Covers(m, p, x) || (p == space && first <= x <= last)
  {
    var h, given := Hull(m, space, first, last), Range(space, first, last);
    forall p: nat, x: nat ensures Holds(h, p, x) <==> Covers(m, p, x) || Holds(given, p, x) {
      if Covers(m, p, x) {
        var i :| 0 <= i < |m| && Holds(m[i], p, x);
        if i > 0 { assert Apart(m[0], m[i]); }
        if i < |m| - 1 { assert Apart(m[i], m[|m| - 1]); }
        assert Holds(h, p, x);
      }
      if Holds(h, p, x) && !Holds(given, p, x) {
        if x < first { assert Holds(m[0], p, x); } else { assert Holds(m[|m| - 1], p, x); }
      }
    }
  }

  /** Inserting is union, and the list stays sorted and disjoint. */
  lemma InsertedIsUnion(tree: seq<Range>, space: nat, first: nat, last: nat)
    requires Ordered(tree) && first <= last < SPAN
    ensures Ordered(Inserted(tree, space, first, last))
    ensures forall p: nat, x: nat :: Covers(Inserted(tree, space, first, last), p, x) <==>
      Covers(tree, p, x) || (p == space && first <= x <= last)
  {
    TouchedSlice(tree, space, first, last);
    var s, e := Begin(tree, space, first), UpperBound(tree, Range(space, last, last));
    var a, m, b := tree[..s], tree[s..e], tree[e..];
    PartsOrdered(tree, s, e);
    HullIsUnion(m, space, first, last);
    var h := Hull(m, space, first, last);
    hide Covers, Begin, UpperBound;
    assert Before(a, [h]) && Before([h], b) && Ordered([h]);
    assert Inserted(tree, space, first, last) == a + [h] + b;
    assert tree == a + m + b;
    OrderedJoin(a, [h]);
    assert Before(a + [h], b);
    OrderedJoin(a + [h], b);
    forall p: nat, x: nat
      ensures Covers(a + [h] + b, p, x) <==> Covers(tree, p, x) || (p == space && first <= x <= last)
    {
      JoinThree(a, [h], b, p, x);
      JoinThree(a, m, b, p, x);
      CoversSingle(h, p, x);
    }
  }

  lemma JoinThree(a: seq<Range>, m: seq<Range>, b: seq<Range>, p: nat, x: nat)
    ensures Covers(a + m + b, p, x) <==> Covers(a, p, x) || Covers(m, p, x) || Covers(b, p, x)
  {
    CoversJoin(a + m, b, p, x);
    CoversJoin(a, m, p, x);
  }

  lemma CoversSingle(r: Range, p: nat, x: nat)
    ensures Covers([r], p, x) <==> Holds(r, p, x)
  {
    if Holds(r, p, x) { assert Holds([r][0], p, x); }
  }

  // ---------- removeRange ----------

  /** What is left of one range. */
  function Pieces(r: Range, first: nat, last: nat): seq<Range> {
    (if r.first < first then [Range(r.space, r.first, first - 1)] else []) +
    (if r.last > last then [Range(r.space, last + 1, r.last)] else [])
  }

  function Cut(touched: seq<Range>, first: nat, last: nat): seq<Range> {
    if |touched| == 0 then []
    else Cut(touched[..|touched| - 1], first, last) + Pieces(touched[|touched| - 1], first, last)
  }

  function Removed(tree: seq<Range>, space: nat, first: nat, last: nat): seq<Range>
    requires Ordered(tree) && first <= last
  {
    TouchedSlice(tree, space, first, last);
    var s, e := Begin(tree, space, first), UpperBound(tree, Range(space, last, last));
    tree[..s] + Cut(tree[s..e], first, last) + tree[e..]
  }

  /** a lies within b. */
  predicate Within(a: Range, b: Range) {
    a.space == b.space && b.first <= a.first && a.last <= b.last
  }

  lemma PiecesCover(r: Range, space: nat, first: nat, last: nat)
    requires Proper(r) && Touches(r, space, first, last) && first <= last < SPAN
    ensures var b := Pieces(r, first, last); Ordered(b) && forall i :: 0 <= i < |b| ==> Within(b[i], r)
    ensures forall p: nat, x: nat :: Covers(Pieces(r, first, last), p, x) <==>
              Holds(r, p, x) && !(p == space && first <= x <= last)
  {
    var b := Pieces(r, first, last);
    forall p: nat, x: nat | Holds(r, p, x) && !(p == space && first <= x <= last) ensures Covers(b, p, x) {
      if x < first { assert Holds(b[0], p, x); }
      if x > last { assert Holds(b[|b| - 1], p, x); }
    }
  }

  /** Cutting leaves an ordered list of parts of the ranges, with just the other addresses in it. */
  lemma {:induction false} CutIsDifference(m: seq<Range>, space: nat, first: nat, last: nat)
    requires Ordered(m) && AllTouch(m, space, first, last) && first <= last < SPAN
    ensures Ordered(Cut(m, first, last)) && InRanges(Cut(m, first, last), m)
    ensures forall p: nat, x: nat :: Covers(Cut(m, first, last), p, x) <==>
              Covers(m, p, x) && !(p == space && first <= x <= last)
    decreases |m|
  {
    if |m| == 0 {
    } else {
      var rest, r := m[..|m| - 1], m[|m| - 1];
      CutIsDifference(rest, space, first, last);
      PiecesCover(r, space, first, last);
      var a, b := Cut(rest, first, last), Pieces(r, first, last);
      assert m == rest + [r];
      forall i, j | 0 <= i < |a| && 0 <= j < |b| ensures Apart(a[i], b[j]) {
        assert InRange(a[i], rest) && Within(b[j], r);
      }
      OrderedJoin(a, b);
      forall i | 0 <= i < |a + b| ensures InRange((a + b)[i], m) {
        if i < |a| {
          assert InRange(a[i], rest);
          var n :| 0 <= n < |rest| && Within(a[i], rest[n]);
          assert Within(a[i], m[n]);
        } else {
          assert Within(b[i - |a|], m[|m| - 1]);
        }
      }
      forall p: nat, x: nat ensures Covers(a + b, p, x) <==> Covers(m, p, x) && !(p == space && first <= x <= last) {
        CoversJoin(a, b, p, x);
        CoversJoin(rest, [r], p, x);
        CoversSingle(r, p, x);
      }
    }
  }

  ghost predicate InRange(r: Range, m: seq<Range>) {
    exists n :: 0 <= n < |m| && Within(r, m[n])
  }

  ghost predicate InRanges(c: seq<Range>, m: seq<Range>) {
    forall i :: 0 <= i < |c| ==> InRange(c[i], m)
  }

  lemma WithinStaysBefore(a: seq<Range>, c: seq<Range>, m: seq<Range>)
    requires InRanges(c, m)
    ensures Before(a, m) ==> Before(a, c)
    ensures Before(m, a) ==> Before(c, a)
  {
    forall i, j | 0 <= i < |a| && 0 <= j < |c|
      ensures Before(a, m) ==> Apart(a[i], c[j])
      ensures Before(m, a) ==> Apart(c[j], a[i])
    {
      assert InRange(c[j], m);
      var n :| 0 <= n < |m| && Within(c[j], m[n]);
    }
  }

  /** Removing is difference, and the list stays sorted and disjoint. */
  lemma RemovedIsDifference(tree: seq<Range>, space: nat, first: nat, last: nat)
    requires Ordered(tree) && first <= last < SPAN
    ensures Ordered(Removed(tree, space, first, last))
    ensures forall p: nat, x: nat :: Covers(Removed(tree, space, first, last), p, x) <==>
      Covers(tree, p, x) && !(p == space && first <= x <= last)
  {
    TouchedSlice(tree, space, first, last);
    var s, e := Begin(tree, space, first), UpperBound(tree, Range(space, last, last));
    var a, m, b := tree[..s], tree[s..e], tree[e..];
    PartsOrdered(tree, s, e);
    CutIsDifference(m, space, first, last);
    var c := Cut(m, first, last);
    WithinStaysBefore(a, c, m);
    WithinStaysBefore(b, c, m);
    assert tree == a + m + b;
    OrderedJoin(a, c);
    assert Before(a + c, b);
    OrderedJoin(a + c, b);
    forall p: nat, x: nat
      ensures Covers(a + c + b, p, x) <==> Covers(tree, p, x) && !(p == space && first <= x <= last)
    {
      JoinThree(a, m, b, p, x);
      JoinThree(a, c, b, p, x);
      OutsideTouched(a, m, b, space, first, last, p, x);
    }
  }

  /** Ranges before or after the cut have none of its addresses. */
  lemma OutsideTouched(a: seq<Range>, m: seq<Range>, b: seq<Range>, space: nat, first: nat, last: nat, p: nat, x: nat)
    requires Before(a, [Range(space, first, last)]) && Before([Range(space, first, last)], b)
    ensures p == space && first <= x <= last ==> !Covers(a, p, x) && !Covers(b, p, x)
  {
    var given := [Range(space, first, last)];
    assert forall i :: 0 <= i < |a| ==> Apart(a[i], given[0]);
    assert forall i :: 0 <= i < |b| ==> Apart(given[0], b[i]);
  }

  /** A range put in and taken out again leaves exactly the addresses that were there outside it. */
  lemma RemoveAfterInsert(tree: seq<Range>, space: nat, first: nat, last: nat, p: nat, x: nat)
    requires Ordered(tree) && first <= last < SPAN
    ensures Ordered(Inserted(tree, space, first, last))
    ensures Covers(Removed(Inserted(tree, space, first, last), space, first, last), p, x) <==>
      Covers(tree, p, x) && !(p == space && first <= x <= last)
  {
    InsertedIsUnion(tree, space, first, last);
    RemovedIsDifference(Inserted(tree, space, first, last), space, first, last);
  }

  // ---------- the queries ----------

  /** The n addresses from offset on are covered and the next is not. */
  ghost predicate RunIs(tree: seq<Range>, space: nat, offset: nat, n: nat) {
    (forall x: nat :: offset <= x < offset + n ==> Covers(tree, space, x)) && !Covers(tree, space, offset + n)
  }

  /** A range starts at or before the address and reaches the end of the query modulo 2^64. */
  ghost predicate SaidInRange(tree: seq<Range>, space: nat, offset: nat, size: nat) {
    exists r :: r in tree && r.space == space && r.first <= offset && r.last >= Wrap(offset + size + SPAN - 1)
  }

  /** With the one range 0-15, four bytes from 2^64 - 2 on are said to be in range. */
  lemma WrappedQuery()
    ensures var tree := [Range(0, 0, 15)];
      Ordered(tree) && SaidInRange(tree, 0, SPAN - 2, 4) && !Covers(tree, 0, SPAN - 2)
  {
    assert [Range(0, 0, 15)][0] in [Range(0, 0, 15)];
  }

  /** One range has all the bytes first to last. */
  ghost predicate InOne(tree: seq<Range>, space: nat, first: nat, last: nat) {
    exists i :: 0 <= i < |tree| && Within(Range(space, first, last), tree[i])
  }

  /** No two ranges touch without a gap. */
  ghost predicate Gapped(tree: seq<Range>) {
    forall i, j :: 0 <= i < j < |tree| && tree[i].space == tree[j].space ==> tree[i].last + 1 < tree[j].first
  }

  /** Covered addresses in a row lie in one range, when there is a gap between any two. */
  lemma {:induction false} GappedInOne(tree: seq<Range>, space: nat, first: nat, last: nat)
    requires Ordered(tree) && Gapped(tree) && first <= last
    ensures InOne(tree, space, first, last) <==> forall x: nat :: first <= x <= last ==> Covers(tree, space, x)
    decreases last - first
  {
    if InOne(tree, space, first, last) {
      var i :| 0 <= i < |tree| && Within(Range(space, first, last), tree[i]);
      forall x: nat | first <= x <= last ensures Covers(tree, space, x) {
        assert Holds(tree[i], space, x);
      }
    }
    if forall x: nat :: first <= x <= last ==> Covers(tree, space, x) {
      assert Covers(tree, space, first);
      var i :| 0 <= i < |tree| && Holds(tree[i], space, first);
      if first == last {
        assert Within(Range(space, first, last), tree[i]);
      } else {
        GappedInOne(tree, space, first + 1, last);
        var j :| 0 <= j < |tree| && Within(Range(space, first + 1, last), tree[j]);
        assert Within(Range(space, first, last), tree[i]);
      }
    }
  }

  /** Which range, if any, has an address is decided by the last one that starts at or before it. */
  lemma LastAtOrBefore(tree: seq<Range>, space: nat, offset: nat)
    requires Ordered(tree)
    ensures var n := UpperBound(tree, Range(space, offset, offset));
      forall i: nat :: i < |tree| && Holds(tree[i], space, offset) ==> i == n - 1
  {
    var key := Range(space, offset, offset);
    var n := UpperBound(tree, key);
    forall i: nat | i < |tree| && Holds(tree[i], space, offset) ensures i == n - 1 {
      UpperBoundSplits(tree, key, i);
      assert i < n - 1 ==> Apart(tree[i], tree[n - 1]);
    }
  }

  // ---------- the loop of insertRange ----------

  /** n touched ranges were erased, from position s on, and first to last is their hull with the new range. */
  ghost predicate Swept(was: seq<Range>, s: nat, e: nat, n: nat, tree: seq<Range>, space: nat, first0: nat, last0: nat,
                        first: nat, last: nat) {
    && Ordered(was) && s + n <= e <= |was| && AllTouch(was[s..e], space, first0, last0)
    && tree == was[..s] + was[s + n..]
    && Range(space, first, last) == Hull(was[s..s + n], space, first0, last0)
  }

  lemma SweptNone(was: seq<Range>, space: nat, first0: nat, last0: nat) returns (s: nat, e: nat)
    requires Ordered(was) && first0 <= last0
    ensures s == Begin(was, space, first0) && e == UpperBound(was, Range(space, last0, last0)) && s <= e
    ensures Swept(was, s, e, 0, was, space, first0, last0, first0, last0)
  {
    TouchedSlice(was, space, first0, last0);
    s, e := Begin(was, space, first0), UpperBound(was, Range(space, last0, last0));
    assert was == was[..s] + was[s..];
  }

  lemma SweptOne(was: seq<Range>, s: nat, e: nat, n: nat, tree: seq<Range>, space: nat, first0: nat, last0: nat,
                 first: nat, last: nat)
    requires Swept(was, s, e, n, tree, space, first0, last0, first, last) && s + n < e
    ensures s < |tree| &&
      Swept(was, s, e, n + 1, tree[..s] + tree[s + 1..], space, first0, last0,
        if tree[s].first < first then tree[s].first else first, if tree[s].last > last then tree[s].last else last)
  {
    assert tree[s] == was[s + n];
    assert tree[..s] + tree[s + 1..] == was[..s] + was[s + n + 1..];
    assert was[s..e][..n + 1] == was[s..s + n + 1];
    HullLonger(was, s, s + n, space, first0, last0);
  }

  lemma SweptAll(was: seq<Range>, s: nat, e: nat, tree: seq<Range>, space: nat, first0: nat, last0: nat, first: nat,
                 last: nat)
    requires s <= e && Swept(was, s, e, e - s, tree, space, first0, last0, first, last) && first0 <= last0 < SPAN
    requires s == Begin(was, space, first0) && e == UpperBound(was, Range(space, last0, last0))
    ensures Insert(tree, Range(space, first, last)) == Inserted(was, space, first0, last0)
  {
    var a, m, b, h := was[..s], was[s..e], was[e..], Range(space, first, last);
    TouchedSlice(was, space, first0, last0);
    PartsOrdered(was, s, e);
    HullIsUnion(m, space, first0, last0);
    assert Before(a, [h]) && Before([h], b);
    forall i | 0 <= i < s ensures Less(tree[i], h) {
      assert Apart(a[i], [h][0]) && Proper(a[i]);
    }
    if s < |tree| { assert Apart([h][0], b[0]); }
    InsertAt(tree, h, s);
  }

  // ---------- the loop of removeRange ----------

  /** m touched ranges were cut, and the iterator stands behind what is left of them. */
  ghost predicate Pared(was: seq<Range>, s: nat, e: nat, m: nat, tree: seq<Range>, space: nat, first: nat, last: nat,
                        iter: nat) {
    && Ordered(was) && s + m <= e <= |was| && AllTouch(was[s..e], space, first, last) && first <= last < SPAN
    && tree == was[..s] + Cut(was[s..s + m], first, last) + was[s + m..]
    && iter == s + |Cut(was[s..s + m], first, last)|
  }

  lemma ParedNone(was: seq<Range>, space: nat, first: nat, last: nat) returns (s: nat, e: nat)
    requires Ordered(was) && first <= last < SPAN
    ensures s == Begin(was, space, first) && e == UpperBound(was, Range(space, last, last)) && s <= e
    ensures Pared(was, s, e, 0, was, space, first, last, s)
  {
    TouchedSlice(was, space, first, last);
    s, e := Begin(was, space, first), UpperBound(was, Range(space, last, last));
    assert was == was[..s] + [] + was[s..];
  }

  lemma ParedAll(was: seq<Range>, s: nat, e: nat, tree: seq<Range>, space: nat, first: nat, last: nat, iter: nat)
    requires s <= e && Pared(was, s, e, e - s, tree, space, first, last, iter)
    requires s == Begin(was, space, first) && e == UpperBound(was, Range(space, last, last))
    ensures tree == Removed(was, space, first, last)
  {
  }

  /** The range at the iterator is erased and its pieces are inserted. */
  function PutBack(tree: seq<Range>, r: Range, space: nat, first: nat, last: nat): seq<Range> {
    var left := if r.first < first then Insert(tree, Range(space, r.first, first - 1)) else tree;
    if r.last > last then Insert(left, Range(space, last + 1, r.last)) else left
  }

  lemma ParedOne(was: seq<Range>, s: nat, e: nat, m: nat, tree: seq<Range>, space: nat, first: nat, last: nat,
                 iter: nat)
    requires Pared(was, s, e, m, tree, space, first, last, iter) && s + m < e
    ensures iter < |tree|
    ensures var r := tree[iter];
      Pared(was, s, e, m + 1, PutBack(tree[..iter] + tree[iter + 1..], r, space, first, last), space, first, last,
        iter + (if r.first < first then 1 else 0) + (if r.last > last then 1 else 0))
  {
    var r := was[s + m];
    assert tree[iter] == r;
    var done, rest := was[..s] + Cut(was[s..s + m], first, last), was[s + m + 1..];
    assert tree[..iter] + tree[iter + 1..] == done + rest;
    CutOne(was, s, e, m, space, first, last);
    assert was[s..e][m] == r;
    PutBackAt(done, rest, r, space, first, last);
    assert was[s..s + m + 1] == was[s..s + m] + [r];
    assert done + Pieces(r, first, last) + rest == was[..s] + Cut(was[s..s + m + 1], first, last) + rest;
  }

  ghost predicate Fits(done: seq<Range>, q: Range, rest: seq<Range>) {
    (forall i :: 0 <= i < |done| ==> Apart(done[i], q)) && forall i :: 0 <= i < |rest| ==> Apart(q, rest[i])
  }

  /** Any part of r fits between the two. */
  ghost predicate Room(done: seq<Range>, r: Range, rest: seq<Range>) {
    forall q :: Within(q, r) ==> Fits(done, q, rest)
  }

  lemma FitsAfter(done: seq<Range>, left: Range, q: Range, rest: seq<Range>)
    requires Fits(done, q, rest) && Apart(left, q)
    ensures Fits(done + [left], q, rest)
  {
  }

  lemma InsertBetween(done: seq<Range>, q: Range, rest: seq<Range>)
    requires Fits(done, q, rest) && Proper(q) && forall i :: 0 <= i < |done| ==> Proper(done[i])
    ensures Insert(done + rest, q) == done + [q] + rest
  {
    InsertAt(done + rest, q, |done|);
  }

  /** The pieces land between what is before the range and what is after it. */
  lemma PutBackAt(done: seq<Range>, rest: seq<Range>, r: Range, space: nat, first: nat, last: nat)
    requires Proper(r) && Touches(r, space, first, last) && first <= last &&
               (forall i :: 0 <= i < |done| ==> Proper(done[i]))
    requires Room(done, r, rest)
    ensures PutBack(done + rest, r, space, first, last) == done + Pieces(r, first, last) + rest
  {
    var d := done;
    if r.first < first {
      var q := Range(space, r.first, first - 1);
      assert Within(q, r);
      InsertBetween(done, q, rest);
      d := done + [q];
    }
    if r.last > last {
      var q := Range(space, last + 1, r.last);
      assert Within(q, r) && Fits(done, q, rest);
      if r.first < first { FitsAfter(done, Range(space, r.first, first - 1), q, rest); }
      InsertBetween(d, q, rest);
    }
    assert done + [] == done;
    assert r.first < first ==> done + Pieces(r, first, last) == d + Pieces(r, first, last)[1..];
  }

  class RangeList {
    var tree: seq<Range>

    constructor ()
      ensures tree == []
    {
      tree := [];
    }

    /** Inserts a range, merged with the ranges it overlaps. */
    method InsertRange(space: nat, first0: nat, last0: nat)
      requires Ordered(tree) && first0 <= last0 < SPAN
      modifies this`tree
      ensures Ordered(tree) && tree == Inserted(old(tree), space, first0, last0)
      ensures forall p: nat, x: nat :: Covers(tree, p, x) <==>
                Covers(old(tree), p, x) || (p == space && first0 <= x <= last0)
    {
      hide Ordered, Covers, Inserted, Begin, UpperBound, Swept;
      InsertedIsUnion(tree, space, first0, last0);
      ghost var was := tree;
      ghost var s, e := SweptNone(was, space, first0, last0);
      var first, last := first0, last0;
      var iter1: nat := First(space, first);
      var iter2: nat := UpperBound(tree, Range(space, last, last));
      while iter1 != iter2
        invariant iter1 == s <= iter2 <= e
        invariant Swept(was, s, e, e - iter2, tree, space, first0, last0, first, last)
        decreases iter2
      {
        SweptOne(was, s, e, e - iter2, tree, space, first0, last0, first, last);
        if tree[iter1].first < first { first := tree[iter1].first; }
        if tree[iter1].last > last { last := tree[iter1].last; }
        tree := tree[..iter1] + tree[iter1 + 1..];
        iter2 := iter2 - 1;
      }
      SweptAll(was, s, e, tree, space, first0, last0, first, last);
      tree := Insert(tree, Range(space, first, last));
    }

    /** The first range that ends at or after the first byte. */
    method First(space: nat, first: nat) returns (iter1: nat)
      ensures iter1 == Begin(tree, space, first) && iter1 <= |tree|
    {
      iter1 := UpperBound(tree, Range(space, first, first));
      if iter1 != 0 {
        iter1 := iter1 - 1;
        if tree[iter1].space != space || tree[iter1].last < first { iter1 := iter1 + 1; }
      }
    }

    /** Removes the addresses of a range: ranges inside it go, the others are narrowed or split. */
    method RemoveRange(space: nat, first: nat, last: nat)
      requires Ordered(tree) && first <= last < SPAN
      modifies this`tree
      ensures Ordered(tree) && tree == Removed(old(tree), space, first, last)
      ensures forall p: nat, x: nat :: Covers(tree, p, x) <==>
                Covers(old(tree), p, x) && !(p == space && first <= x <= last)
    {
      RemovedIsDifference(tree, space, first, last);
      if |tree| == 0 { return; }
      hide Ordered, Covers, Removed, Begin, UpperBound, Pared, Cut;
      ghost var was := tree;
      ghost var s, e := ParedNone(was, space, first, last);
      var iter1: nat := First(space, first);
      var iter2: nat := UpperBound(tree, Range(space, last, last));
      ghost var m: nat := 0;
      while iter1 != iter2
        invariant m <= e - s && iter2 - iter1 == e - s - m
        invariant Pared(was, s, e, m, tree, space, first, last, iter1)
        decreases e - s - m
      {
        ParedOne(was, s, e, m, tree, space, first, last, iter1);
        var a, b := tree[iter1].first, tree[iter1].last;
        tree := tree[..iter1] + tree[iter1 + 1..];
        iter2 := iter2 - 1;
        if a < first {
          tree := Insert(tree, Range(space, a, first - 1));
          iter1, iter2 := iter1 + 1, iter2 + 1;
        }
        if b > last {
          tree := Insert(tree, Range(space, last + 1, b));
          iter1, iter2 := iter1 + 1, iter2 + 1;
        }
        m := m + 1;
      }
      ParedAll(was, s, e, tree, space, first, last, iter1);
    }

    /** Adds all ranges of another container. */
    method Merge(op2: RangeList)
      requires this != op2 && Ordered(tree) && Ordered(op2.tree)
      modifies this`tree
      ensures Ordered(tree)
      ensures forall p: nat, x: nat :: Covers(tree, p, x) <==> Covers(old(tree), p, x) || Covers(op2.tree, p, x)
    {
      var i := 0;
      while i < |op2.tree|
        invariant i <= |op2.tree| && Ordered(tree)
        invariant forall p: nat, x: nat :: Covers(tree, p, x) <==>
                    Covers(old(tree), p, x) || Covers(op2.tree[..i], p, x)
      {
        var range := op2.tree[i];
        forall p: nat, x: nat
          ensures Covers(op2.tree[..i + 1], p, x) <==> Covers(op2.tree[..i], p, x) || Holds(range, p, x)
        {
          assert op2.tree[..i + 1] == op2.tree[..i] + [range];
          CoversJoin(op2.tree[..i], [range], p, x);
          CoversSingle(range, p, x);
        }
        InsertRange(range.space, range.first, range.last);
        i := i + 1;
      }
      assert op2.tree[..i] == op2.tree;
    }

    /** The range that has the byte at offset, if there is one. */
    method GetRange(space: nat, offset: nat) returns (r: Option<Range>)
      requires Ordered(tree)
      ensures r.Some? ==> r.value in tree && Holds(r.value, space, offset)
      ensures r.Some? <==> Covers(tree, space, offset)
      ensures forall o :: o in tree && Holds(o, space, offset) ==> r == Some(o)
    {
      LastAtOrBefore(tree, space, offset);
      if |tree| == 0 { return None; }
      var iter := UpperBound(tree, Range(space, offset, offset));
      if iter == 0 { return None; }
      iter := iter - 1;
      if tree[iter].space != space { return None; }
      if tree[iter].last >= offset {
        assert Holds(tree[iter], space, offset);
        return Some(tree[iter]);
      }
      return None;
    }

    /** Whether one range has the size bytes from addr on. An invalid address is always in range. For no bytes, and for
        more than the space has left, the end of the query wraps: then any range from before addr that reaches the
        wrapped end will do. */
    method InRange(addr: Address, size: nat) returns (res: bool)
      requires Ordered(tree) && (addr.At? ==> addr.offset < SPAN)
      ensures addr.Invalid? ==> res
      ensures addr.At? && 0 < size && addr.offset + size <= SPAN ==>
        (res <==> InOne(tree, addr.space, addr.offset, addr.offset + size - 1))
      ensures addr.At? ==>
        (res <==> SaidInRange(tree, addr.space, addr.offset, size))
    {
      if addr.Invalid? { return true; }
      LastAtOrBefore(tree, addr.space, addr.offset);
      if |tree| == 0 { return false; }
      var iter := UpperBound(tree, Range(addr.space, addr.offset, addr.offset));
      if 0 < size && addr.offset + size <= SPAN && InOne(tree, addr.space, addr.offset, addr.offset + size - 1) {
        ghost var i :| 0 <= i < |tree| && Within(Range(addr.space, addr.offset, addr.offset + size - 1), tree[i]);
        assert Holds(tree[i], addr.space, addr.offset);
      }
      if iter == 0 { return false; }
      iter := iter - 1;
      if tree[iter].space != addr.space { return false; }
      if tree[iter].last >= Wrap(addr.offset + size + SPAN - 1) {
        return true;
      }
      return false;
    }

    /** The length of the covered run from addr on, cut short once it reaches maxsize. */
    method LongestFit(addr: Address, maxsize: nat) returns (res: nat, ghost run: nat)
      requires Ordered(tree) && (addr.At? ==> addr.offset < SPAN)
      ensures addr.Invalid? ==> res == 0
      ensures addr.At? ==> RunIs(tree, addr.space, addr.offset, run) && addr.offset + run <= SPAN
      ensures addr.At? && res < maxsize ==> res == Wrap(run)
      ensures addr.At? && res >= maxsize ==> maxsize <= res <= run
      ensures addr.At? ==> FirstFit(tree, addr.space, addr.offset, run, maxsize, res)
    {
      if addr.Invalid? { return 0, 0; }
      if |tree| == 0 { return 0, 0; }
      var offset := addr.offset;
      LastAtOrBefore(tree, addr.space, offset);
      var iter := UpperBound(tree, Range(addr.space, offset, offset));
      if iter == 0 { return 0, 0; }
      iter := iter - 1;
      var sizeres := 0;
      if tree[iter].last < offset { return sizeres, 0; }
      run := RunFrom(tree, addr.space, offset);
      sizeres := Chain(addr.space, offset, maxsize, iter, run);
      return sizeres, run;
    }

    /** Adds up ranges from iter on, as long as each starts where the one before it ends. */
    method Chain(space: nat, start: nat, maxsize: nat, iter0: nat, ghost run: nat) returns (sizeres: nat)
      requires start < SPAN && Chained(tree, space, start, start, iter0) && RunIs(tree, space, start, run)
      ensures sizeres < maxsize ==> sizeres == Wrap(run)
      ensures sizeres >= maxsize ==> sizeres <= run
      ensures FirstFit(tree, space, start, run, maxsize, sizeres)
    {
      hide Ordered, RunIs, Chained, Wrap, Stop, AllShort;
      var iter, offset := iter0, start;
      sizeres := 0;
      ghost var end: nat := offset;
      WrapSmall(offset);
      WrapSmall(0);
      ChainStarts(tree, space, start, iter0, run);
      NoneShort(tree, space, start, maxsize);
      while true
        invariant iter < |tree| && Chained(tree, space, start, end, iter)
        invariant start <= end <= SPAN && offset == Wrap(end) && sizeres == Wrap(end - start)
        invariant sizeres <= run && AllShort(tree, space, start, end - start, maxsize)
        decreases |tree| - iter
      {
        if tree[iter].space != space || tree[iter].first > offset {
          ChainEnds(tree, space, start, end, iter, run);
          break;
        }
        ChainOne(tree, space, start, end, iter);
        NextStop(tree, space, start, end, iter, maxsize);
        WrapSmall(end);
        WrapSmall(end - start);
        assert sizeres + tree[iter].last + 1 - offset == tree[iter].last + 1 - start;
        sizeres := Wrap(sizeres + tree[iter].last + 1 - offset);
        offset := Wrap(tree[iter].last + 1);
        end := tree[iter].last + 1;
        iter := iter + 1;
        ChainWithin(tree, space, start, end, iter, run);
        WrapSmall(end - start);
        if sizeres >= maxsize {
          assert FirstStop(tree, space, start, run, maxsize, end - start) by { AtStop(tree, space, start, end - start);
            }
          break;
        }
        if iter == |tree| {
          ChainEnds(tree, space, start, end, iter, run);
          break;
        }
      }
    }
  }

  /** The hull with one more touched range. */
  lemma HullLonger(tree: seq<Range>, s: nat, k: nat, space: nat, first: nat, last: nat)
    requires Ordered(tree) && s <= k < |tree| && AllTouch(tree[s..k + 1], space, first, last)
    ensures var h, r := Hull(tree[s..k], space, first, last), tree[k];
      Hull(tree[s..k + 1], space, first, last) ==
        Range(space, if r.first < h.first then r.first else h.first, if r.last > h.last then r.last else h.last)
  {
    var m := tree[s..k + 1];
    assert tree[s..k] == m[..k - s];
    assert Touches(m[k - s], space, first, last);
    if s < k {
      assert Apart(tree[s], tree[k]) && Apart(tree[k - 1], tree[k]);
      assert Touches(m[0], space, first, last);
    }
  }

  /** The next range cut: its pieces go between what is before and what is after. */
  lemma CutOne(was: seq<Range>, s: nat, e: nat, m: nat, space: nat, first: nat, last: nat)
    requires Ordered(was) && s <= e <= |was| && m < e - s && AllTouch(was[s..e], space, first, last) &&
               first <= last < SPAN
    ensures Cut(was[s..s + m + 1], first, last) == Cut(was[s..s + m], first, last) + Pieces(was[s + m], first, last)
    ensures var done := was[..s] + Cut(was[s..s + m], first, last);
      (forall i :: 0 <= i < |done| ==> Proper(done[i])) && Room(done, was[s + m], was[s + m + 1..])
  {
    var earlier := was[s..s + m];
    assert was[s..s + m + 1][..m] == earlier;
    assert forall i :: 0 <= i < m ==> earlier[i] == was[s..e][i];
    PartsOrdered(was, s, s + m);
    CutIsDifference(earlier, space, first, last);
    var c := Cut(earlier, first, last);
    forall q, i | Within(q, was[s + m]) && 0 <= i < |c| ensures Apart(c[i], q) {
      assert InRange(c[i], earlier);
      var n :| 0 <= n < |earlier| && Within(c[i], earlier[n]);
      assert Apart(was[s + n], was[s + m]);
    }
  }

  lemma {:induction false} RunFrom(tree: seq<Range>, space: nat, offset: nat) returns (n: nat)
    requires Ordered(tree) && offset <= SPAN
    ensures RunIs(tree, space, offset, n) && offset + n <= SPAN
    decreases SPAN - offset
  {
    if Covers(tree, space, offset) {
      n := RunFrom(tree, space, offset + 1);
      n := n + 1;
    } else {
      n := 0;
    }
  }

  /** The addresses from start up to end are covered, by ranges before iter that meet end to end. */
  ghost predicate Chained(tree: seq<Range>, space: nat, start: nat, end: nat, iter: nat) {
    && Ordered(tree) && iter <= |tree| && start <= end <= SPAN
    && (forall x: nat :: start <= x < end ==> Covers(tree, space, x))
    && (if end == start then iter < |tree| && end < SPAN && end <= tree[iter].last &&
       (forall i: nat :: i < |tree| && Holds(tree[i], space, end) ==> i == iter)
        else iter > 0 && tree[iter - 1].space == space && tree[iter - 1].last + 1 == end)
  }

  /** The next range starts at or before the end: its own end is the next one. */
  lemma ChainOne(tree: seq<Range>, space: nat, start: nat, end: nat, iter: nat)
    requires Chained(tree, space, start, end, iter) && iter < |tree|
    requires tree[iter].space == space && tree[iter].first <= Wrap(end)
    ensures end < SPAN && end <= tree[iter].last < SPAN && Chained(tree, space, start, tree[iter].last + 1, iter + 1)
  {
    if end != start { assert Apart(tree[iter - 1], tree[iter]); }
    forall x: nat | start <= x < tree[iter].last + 1 ensures Covers(tree, space, x) {
      if x >= end { assert Holds(tree[iter], space, x); }
    }
  }

  /** A range of the space ends n bytes after start. */
  ghost predicate Stop(tree: seq<Range>, space: nat, start: nat, n: nat) {
    n > 0 && exists i :: 0 <= i < |tree| && tree[i].space == space && tree[i].last + 1 == start + n
  }

  /** No range that ends at most n bytes after start gives a size as large as maxsize. */
  ghost predicate AllShort(tree: seq<Range>, space: nat, start: nat, n: nat, maxsize: nat) {
    forall m: nat :: m <= n && Stop(tree, space, start, m) ==> Wrap(m) < maxsize
  }

  /** Of the range ends in the run, n bytes after start is the first that makes the size reach maxsize. */
  ghost predicate FirstStop(tree: seq<Range>, space: nat, start: nat, run: nat, maxsize: nat, n: nat) {
    0 < n <= run && Stop(tree, space, start, n) && Wrap(n) >= maxsize && AllShort(tree, space, start, n - 1, maxsize)
  }

  /** res is the size at the first range end that makes it reach maxsize, and that of the run if no range end does. */
  ghost predicate FirstFit(tree: seq<Range>, space: nat, start: nat, run: nat, maxsize: nat, res: nat) {
    || (exists n: nat :: FirstStop(tree, space, start, run, maxsize, n) && res == Wrap(n))
    || (AllShort(tree, space, start, run, maxsize) && res == Wrap(run))
  }

  lemma NoneShort(tree: seq<Range>, space: nat, start: nat, maxsize: nat)
    ensures AllShort(tree, space, start, 0, maxsize)
  {
  }

  lemma AtStop(tree: seq<Range>, space: nat, start: nat, n: nat)
    requires n > 0 && exists i :: 0 <= i < |tree| && tree[i].space == space && tree[i].last + 1 == start + n
    ensures Stop(tree, space, start, n)
  {
  }

  /** No other range ends inside the next one. */
  lemma NextStop(tree: seq<Range>, space: nat, start: nat, end: nat, iter: nat, maxsize: nat)
    requires Chained(tree, space, start, end, iter) && iter < |tree| &&
               AllShort(tree, space, start, end - start, maxsize)
    requires tree[iter].space == space && tree[iter].first <= Wrap(end) && end <= tree[iter].last && end < SPAN
    ensures AllShort(tree, space, start, tree[iter].last - start, maxsize)
    ensures Wrap(tree[iter].last + 1 - start) < maxsize ==>
              AllShort(tree, space, start, tree[iter].last + 1 - start, maxsize)
  {
    forall m: nat | m <= tree[iter].last - start && Stop(tree, space, start, m) ensures Wrap(m) < maxsize {
      var i :| 0 <= i < |tree| && tree[i].space == space && tree[i].last + 1 == start + m;
    }
  }

  /** The result is determined. */
  lemma FirstFitUnique(tree: seq<Range>, space: nat, start: nat, run: nat, maxsize: nat, res: nat, other: nat)
    requires FirstFit(tree, space, start, run, maxsize, res) && FirstFit(tree, space, start, run, maxsize, other)
    ensures res == other
  {
    hide Wrap, Stop;
  }

  /** Up to the limit the result is the length of the run, unless the run is the whole space and no range but the last
      ends at or beyond the limit: then it is 0. */
  lemma FitIsRight(tree: seq<Range>, space: nat, start: nat, run: nat, maxsize: nat, res: nat)
    requires Ordered(tree) && RunIs(tree, space, start, run) && start + run <= SPAN
    requires FirstFit(tree, space, start, run, maxsize, res)
    ensures (if run < maxsize then res == run else maxsize <= res <= run) <==>
              !(run == SPAN && maxsize > 0 && AllShort(tree, space, start, SPAN - 1, maxsize))
    ensures run == SPAN && maxsize > 0 ==> (res == 0 <==> AllShort(tree, space, start, SPAN - 1, maxsize))
  {
    RunEndsAtStop(tree, space, start, run);
    if AllShort(tree, space, start, run, maxsize) && res == Wrap(run) {
      WrapSmall(run);
    } else {
      var n: nat :| FirstStop(tree, space, start, run, maxsize, n) && res == Wrap(n);
      WrapSmall(n);
    }
  }

  lemma RunEndsAtStop(tree: seq<Range>, space: nat, start: nat, run: nat)
    requires Ordered(tree) && RunIs(tree, space, start, run)
    ensures run > 0 ==> Stop(tree, space, start, run)
  {
    if run > 0 {
      assert Covers(tree, space, start + run - 1);
      var i :| 0 <= i < |tree| && Holds(tree[i], space, start + run - 1);
      assert !Holds(tree[i], space, start + run);
    }
  }

  /** One range that is the whole space has length 0 for every limit, and two ranges that are stop at the first for a
      limit it reaches. */
  lemma WholeSpace(maxsize: nat, res: nat)
    ensures var one := [Range(0, 0, SPAN - 1)];
      Ordered(one) && RunIs(one, 0, 0, SPAN) && (FirstFit(one, 0, 0, SPAN, maxsize, res) <==> res == 0)
    ensures var two := [Range(0, 0, 10), Range(0, 11, SPAN - 1)];
      Ordered(two) && RunIs(two, 0, 0, SPAN) && (FirstFit(two, 0, 0, SPAN, 5, res) <==> res == 11)
  {
    var one, two := [Range(0, 0, SPAN - 1)], [Range(0, 0, 10), Range(0, 11, SPAN - 1)];
    forall x: nat | x < SPAN ensures Covers(one, 0, x) && Covers(two, 0, x) {
      assert Holds(one[0], 0, x) && (Holds(two[0], 0, x) || Holds(two[1], 0, x));
    }
    assert Stop(one, 0, 0, SPAN) by { assert one[0].last + 1 == SPAN; }
    assert forall m: nat :: Stop(one, 0, 0, m) ==> m == SPAN;
    if maxsize == 0 {
      assert FirstStop(one, 0, 0, SPAN, maxsize, SPAN);
    }
    assert Stop(two, 0, 0, 11) by { assert two[0].last + 1 == 11; }
    assert forall m: nat :: Stop(two, 0, 0, m) ==> m == 11 || m == SPAN;
    assert FirstStop(two, 0, 0, SPAN, 5, 11);
    if FirstFit(two, 0, 0, SPAN, 5, res) { FirstFitUnique(two, 0, 0, SPAN, 5, res, 11); }
  }

  lemma ChainStarts(tree: seq<Range>, space: nat, start: nat, iter: nat, run: nat)
    requires Chained(tree, space, start, start, iter) && RunIs(tree, space, start, run)
    ensures iter < |tree|
  {
  }

  lemma ChainWithin(tree: seq<Range>, space: nat, start: nat, end: nat, iter: nat, run: nat)
    requires Chained(tree, space, start, end, iter) && RunIs(tree, space, start, run)
    ensures end - start <= run
  {
  }

  /** Nothing before iter reaches the end, and iter starts after it: the run is over. */
  lemma ChainEnds(tree: seq<Range>, space: nat, start: nat, end: nat, iter: nat, run: nat)
    requires Chained(tree, space, start, end, iter) && RunIs(tree, space, start, run)
    requires iter < |tree| ==> tree[iter].space != space || tree[iter].first > Wrap(end)
    ensures end - start == run
  {
    if Covers(tree, space, end) {
      var i :| 0 <= i < |tree| && Holds(tree[i], space, end);
      if end != start { ChainGap(tree, space, end, iter, i); }
    }
  }

  lemma ChainGap(tree: seq<Range>, space: nat, end: nat, iter: nat, i: nat)
    requires Ordered(tree) && 0 < iter <= |tree| && tree[iter - 1].space == space && tree[iter - 1].last + 1 == end &&
               i < |tree|
    requires iter < |tree| ==> tree[iter].space != space || tree[iter].first > Wrap(end)
    ensures !Holds(tree[i], space, end)
  {
    if i < iter - 1 { assert Apart(tree[i], tree[iter - 1]); }
    if iter - 1 < i { assert Apart(tree[iter - 1], tree[i]); }
    if iter < |tree| { assert Apart(tree[iter - 1], tree[iter]); }
    if iter < i { assert Apart(tree[iter], tree[i]); }
  }

  /** One range always has all that is covered exactly when any two ranges have a gap between them. */
  lemma InOneExactWhenGapped(tree: seq<Range>)
    requires Ordered(tree)
    ensures Gapped(tree) <==>
              forall space: nat, first: nat, last: nat :: first <= last && AllCovered(tree, space, first, last) ==>
              InOne(tree, space, first, last)
  {
    if Gapped(tree) {
      forall space: nat, first: nat, last: nat | first <= last && AllCovered(tree, space, first, last)
        ensures InOne(tree, space, first, last)
      {
        GappedInOne(tree, space, first, last);
      }
    } else {
      var i, j :| 0 <= i < j < |tree| && tree[i].space == tree[j].space && tree[i].last + 1 >= tree[j].first;
      assert Apart(tree[i], tree[j]);
      var space, first, last := tree[i].space, tree[i].last, tree[j].first;
      assert Holds(tree[i], space, first) && Holds(tree[j], space, last);
      assert AllCovered(tree, space, first, last);
      forall n | 0 <= n < |tree| ensures !Within(Range(space, first, last), tree[n]) {
        assert n < i ==> Apart(tree[n], tree[i]);
        assert i < n ==> Apart(tree[i], tree[n]);
      }
    }
  }

  ghost predicate AllCovered(tree: seq<Range>, space: nat, first: nat, last: nat) {
    forall x: nat :: first <= x <= last ==> Covers(tree, space, x)
  }

  /** Ranges that meet end to end are not joined: their bytes are all covered, but by no one range. */
  lemma AdjacentNotJoined()
    ensures var tree := Inserted([Range(0, 0, 3)], 0, 4, 7);
      |tree| == 2 && AllCovered(tree, 0, 0, 7) && !InOne(tree, 0, 0, 7)
  {
    var tree := [Range(0, 0, 3)];
    TouchedSlice(tree, 0, 4, 7);
    assert UpperBound(tree, Range(0, 4, 4)) == 1 && UpperBound(tree, Range(0, 7, 7)) == 1;
    var now := Inserted(tree, 0, 4, 7);
    assert now == [Range(0, 0, 3), Range(0, 4, 7)];
    forall x: nat | 0 <= x <= 7 ensures Covers(now, 0, x) {
      assert Holds(now[if x <= 3 then 0 else 1], 0, x);
    }
  }
}
