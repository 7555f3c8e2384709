/** Encoding and decoding of a flat graph of plain blocks: only in-edges are written; the out-edges are rebuilt from
    the reverse index of each in-edge, in whatever order the blocks come. */
module EdgeCodec {

  import opened Wrappers
  import opened Flow

  datatype Token = BHead(index: int) | OpenBlock(index: int) | EdgeRef(end: int, rev: int) | CloseBlock

  /** A graph to encode: its edges, its component list and the index of every block. */
  datatype Source = Source(g: Graph, list: seq<nat>, index: seq<int>)

  /** The edges are consistent, stay inside the list, and no two blocks have the same index. */
  ghost predicate Encodable(s: Source) {
    && Paired(s.g) && |s.index| == |s.g.ins| && (forall p :: 0 <= p < |s.list| ==> s.list[p] < |s.g.ins|)
    && (forall p, q :: 0 <= p < q < |s.list| ==> s.index[s.list[p]] != s.index[s.list[q]])
    && (forall p, i :: 0 <= p < |s.list| && 0 <= i < |s.g.ins[s.list[p]]| ==> s.g.ins[s.list[p]][i].point in s.list)
    && (forall p, k :: 0 <= p < |s.list| && 0 <= k < |s.g.outs[s.list[p]]| ==> s.g.outs[s.list[p]][k].point in s.list)
  }

  // ---------- the stream ----------

  ghost function HeadsFrom(s: Source, p: nat): seq<Token>
    requires Encodable(s)
    decreases |s.list| - p
  {
    if p >= |s.list| then [] else [BHead(s.index[s.list[p]])] + HeadsFrom(s, p + 1)
  }

  ghost function EdgesFrom(s: Source, row: seq<Edge>, i: nat): seq<Token>
    requires forall i :: 0 <= i < |row| ==> row[i].point < |s.index|
    decreases |row| - i
  {
    if i >= |row| then [] else [EdgeRef(s.index[row[i].point], row[i].rev)] + EdgesFrom(s, row, i + 1)
  }

  ghost function BlocksFrom(s: Source, p: nat): seq<Token>
    requires Encodable(s)
    decreases |s.list| - p
  {
    if p >= |s.list| then []
    else
      InRow(s, p);
      [OpenBlock(s.index[s.list[p]])] + EdgesFrom(s, s.g.ins[s.list[p]], 0) + [CloseBlock] + BlocksFrom(s, p + 1)
  }

  lemma InRow(s: Source, p: nat)
    requires Encodable(s) && p < |s.list|
    ensures forall i :: 0 <= i < |s.g.ins[s.list[p]]| ==> s.g.ins[s.list[p]][i].point < |s.index|
  {
  }

  ghost function Encoded(s: Source): seq<Token>
    requires Encodable(s)
  {
    HeadsFrom(s, 0) + BlocksFrom(s, 0)
  }

  // ---------- encoding ----------

  /** All heads, then every block with its in-edges. Labels are not written. */
  method EncodeBody(g: BlockGraph) returns (stream: seq<Token>)
    requires Encodable(Source(g.G(), g.list, g.index))
    ensures stream == Encoded(Source(g.G(), g.list, g.index))
  {
    ghost var s := Source(g.G(), g.list, g.index);
    stream := [];
    var i := 0;
    while i < |g.list|
      invariant 0 <= i <= |g.list| && stream + HeadsFrom(s, i) == HeadsFrom(s, 0)
    {
      stream := stream + [BHead(g.index[g.list[i]])];
      i := i + 1;
    }
    i := 0;
    while i < |g.list|
      invariant 0 <= i <= |g.list| && stream + BlocksFrom(s, i) == Encoded(s)
    {
      InRow(s, i);
      var block := EncodeBlock(g, s, i);
      assert stream + BlocksFrom(s, i) == (stream + block) + BlocksFrom(s, i + 1);
      stream := stream + block;
      i := i + 1;
    }
  }

  method EncodeBlock(g: BlockGraph, ghost s: Source, i: nat) returns (stream: seq<Token>)
    requires s == Source(g.G(), g.list, g.index) && Encodable(s) && i < |g.list|
    ensures BlocksFrom(s, i) == stream + BlocksFrom(s, i + 1)
  {
    InRow(s, i);
    stream := [OpenBlock(g.index[g.list[i]])];
    var row := g.ins[g.list[i]];
    var j := 0;
    while j < |row|
      invariant 0 <= j <= |row| && stream + EdgesFrom(s, row, j) == [OpenBlock(s.index[s.list[i]])] +
                  EdgesFrom(s, row, 0)
    {
      stream := stream + [EdgeRef(g.index[row[j].point], row[j].rev)];
      j := j + 1;
    }
    stream := stream + [CloseBlock];
  }

  // ---------- finding a block by its index ----------

  ghost predicate SortedByIndex(sorted: seq<nat>, index: seq<int>) {
    && (forall i :: 0 <= i < |sorted| ==> sorted[i] < |index|)
    && forall i, j :: 0 <= i < j < |sorted| ==> index[sorted[i]] <= index[sorted[j]]
  }

  /** Binary search in the list sorted by index. */
  method FindBlock(sorted: seq<nat>, index: seq<int>, ind: int) returns (r: Option<nat>)
    requires SortedByIndex(sorted, index)
    ensures r.Some? ==> r.value in sorted && index[r.value] == ind
    ensures r.None? ==> forall b :: b in sorted ==> index[b] != ind
  {
    var min, max := 0, |sorted| - 1;
    while min <= max
      invariant 0 <= min <= max + 1 <= |sorted|
      invariant forall i :: 0 <= i < min ==> index[sorted[i]] < ind
      invariant forall i :: max < i < |sorted| ==> index[sorted[i]] > ind
      decreases max - min + 1
    {
      var mid := (min + max) / 2;
      if index[sorted[mid]] == ind { return Some(sorted[mid]); }
      if index[sorted[mid]] < ind { min := mid + 1; } else { max := mid - 1; }
    }
    return None;
  }

  /** Block b goes behind the blocks of smaller or equal index. */
  lemma InsertedByIndex(before: seq<nat>, index: seq<int>, k: nat, b: nat)
    requires SortedByIndex(before, index) && k <= |before| && b < |index|
    requires forall i :: 0 <= i < |before| ==> before[i] < b
    requires forall i :: 0 <= i < k ==> index[before[i]] <= index[b]
    requires k < |before| ==> index[b] < index[before[k]]
    ensures SortedByIndex(before[..k] + [b] + before[k..], index)
  {
    var sorted := before[..k] + [b] + before[k..];
    assert forall i :: 0 <= i < |sorted| ==> sorted[i] == if i < k then before[i] else if i == k then b
      else before[i - 1];
  }

  lemma InsertedMembers(before: seq<nat>, k: nat, b: nat, c: nat)
    requires k <= |before|
    ensures c in before[..k] + [b] + before[k..] <==> c == b || c in before
  {
    assert before == before[..k] + before[k..];
  }

  /** All blocks in ascending order of their index. */
  method SortList(index: seq<int>) returns (sorted: seq<nat>)
    ensures SortedByIndex(sorted, index) && forall b: nat :: b < |index| <==> b in sorted
  {
    sorted := [];
    var b := 0;
    while b < |index|
      invariant 0 <= b <= |index| && SortedByIndex(sorted, index) && forall c: nat :: c < b <==> c in sorted
    {
      var k := 0;
      while k < |sorted| && index[sorted[k]] <= index[b]
        invariant 0 <= k <= |sorted| && forall i :: 0 <= i < k ==> index[sorted[i]] <= index[b]
      {
        k := k + 1;
      }
      ghost var before := sorted;
      sorted := sorted[..k] + [b] + sorted[k..];
      assert forall i :: 0 <= i < |before| ==> before[i] in before;
      InsertedByIndex(before, index, k, b);
      forall c: nat ensures c < b + 1 <==> c in sorted { InsertedMembers(before, k, b, c); }
      b := b + 1;
    }
  }

  // ---------- decoding ----------

  const BLANK: Edge := Edge(0, {}, 0)

  /** Row extended with blank entries until it has slot n. */
  ghost function Padded(row: seq<Edge>, n: nat): seq<Edge> {
    if |row| > n then row else row + seq(n + 1 - |row|, i => BLANK)
  }

  /** One in-edge of block b; its out-half goes to the slot the in-edge names. */
  method DecodeNextInEdge(g: BlockGraph, b: nat, source: nat, rev: nat)
    requires b < |g.ins| && source < |g.outs|
    modifies g`ins, g`outs
    ensures g.ins == old(g.ins)[b := old(g.ins[b]) + [Edge(source, {}, rev)]]
    ensures g.outs == old(g.outs)[source := Padded(old(g.outs[source]), rev)[rev := Edge(b, {}, |old(g.ins[b])|)]]
  {
    g.ins := g.ins[b := g.ins[b] + [Edge(source, {}, rev)]];
    ghost var row := g.outs[source];
    while |g.outs[source]| <= rev
      invariant |g.outs| == |old(g.outs)| && g.ins == old(g.ins)[b := old(g.ins[b]) + [Edge(source, {}, rev)]]
      invariant forall y :: 0 <= y < |g.outs| && y != source ==> g.outs[y] == old(g.outs)[y]
      invariant |row| <= |g.outs[source]| && (|row| <= rev ==> |g.outs[source]| <= rev + 1) &&
                  (|row| > rev ==> |g.outs[source]| == |row|)
      invariant forall k :: 0 <= k < |g.outs[source]| ==> g.outs[source][k] == if k < |row| then row[k] else BLANK
      decreases rev - |g.outs[source]|
    {
      g.outs := g.outs[source := g.outs[source] + [BLANK]];
    }
    assert g.outs[source] == Padded(row, rev);
    g.outs := g.outs[source := g.outs[source][rev := Edge(b, {}, |g.ins[b]| - 1)]];
  }

  /** The position in the list of the block with the given identity. */
  ghost predicate Stands(s: Source, q: nat, b: nat) {
    q < |s.list| && s.list[q] == b
  }

  /** Row a of the decoded graph is row b of the source, with blocks replaced by positions and labels cleared. */
  ghost predicate RowRestored(s: Source, a: seq<Edge>, b: seq<Edge>) {
    |a| == |b| && forall i :: 0 <= i < |a| ==>
        Stands(s, a[i].point, b[i].point) && a[i].rev == b[i].rev && a[i].flags == {}
  }

  /** The decoded graph is the source. */
  ghost predicate Restored(s: Source, h: Graph)
    requires Encodable(s)
  {
    && |h.ins| == |h.outs| == |s.list|
    && forall p :: 0 <= p < |s.list| ==>
       RowRestored(s, h.ins[p], s.g.ins[s.list[p]]) && RowRestored(s, h.outs[p], s.g.outs[s.list[p]])
  }

  /** In-edge i of position p was read. */
  ghost predicate Read(ins: Adj, p: nat, i: nat) {
    p < |ins| && i < |ins[p]|
  }

  /** The rows read so far, and the out-halves they put in place. */
  ghost predicate Partial(s: Source, ins: Adj, outs: Adj)
    requires Encodable(s)
  {
    && |ins| == |outs| == |s.list|
    && (forall p :: 0 <= p < |s.list| ==>
       |ins[p]| <= |s.g.ins[s.list[p]]| && RowRestored(s, ins[p], s.g.ins[s.list[p]][..|ins[p]|]))
    && (forall q :: 0 <= q < |s.list| ==> |outs[q]| <= |s.g.outs[s.list[q]]|)
    && forall p: nat, i: nat :: Read(ins, p, i) ==>
         var e := ins[p][i]; e.point < |s.list| && e.rev < |outs[e.point]| && outs[e.point][e.rev] == Edge(p, {}, i)
  }

  /** No two in-edges name the same out-slot. */
  lemma SameOutSlot(s: Source, ins: Adj, x: nat, i: nat, p: nat, n: nat)
    requires Encodable(s) && x < |s.list| == |ins| && i < |ins[x]| <= |s.g.ins[s.list[x]]| &&
               RowRestored(s, ins[x], s.g.ins[s.list[x]][..|ins[x]|])
    requires p < |s.list| && n < |s.g.ins[s.list[p]]| && Stands(s, ins[x][i].point, s.g.ins[s.list[p]][n].point) &&
               ins[x][i].rev == s.g.ins[s.list[p]][n].rev
    ensures x == p && i == n
  {
    assert s.g.ins[s.list[x]][..|ins[x]|][i] == s.g.ins[s.list[x]][i];
    assert InPaired(s.g, s.list[x], i) && InPaired(s.g, s.list[p], n);
  }

  lemma SlotPaired(s: Source, p: nat, n: nat)
    requires Encodable(s) && p < |s.list| && s.list[p] < |s.g.ins| && n < |s.g.ins[s.list[p]]|
    ensures InPaired(s.g, s.list[p], n)
  {
  }

  lemma PartialStep(s: Source, ins: Adj, outs: Adj, p: nat, q: nat)
    requires Encodable(s) && Partial(s, ins, outs) && p < |s.list| && |ins[p]| < |s.g.ins[s.list[p]]|
    requires Stands(s, q, s.g.ins[s.list[p]][|ins[p]|].point)
    ensures var e := s.g.ins[s.list[p]][|ins[p]|];
      Partial(s, ins[p := ins[p] + [Edge(q, {}, e.rev)]], outs[q :=
          Padded(outs[q], e.rev)[e.rev := Edge(p, {}, |ins[p]|)]])
  {
    hide Paired;
    var n := |ins[p]|;
    var e := s.g.ins[s.list[p]][n];
    var ins', outs' := ins[p := ins[p] + [Edge(q, {}, e.rev)]],
        outs[q := Padded(outs[q], e.rev)[e.rev := Edge(p, {}, n)]];
    SlotPaired(s, p, n);
    assert s.g.ins[s.list[p]][..n + 1] == s.g.ins[s.list[p]][..n] + [e];
    forall x: nat, i: nat | Read(ins', x, i)
      ensures var f := ins'[x][i];
                f.point < |s.list| && f.rev < |outs'[f.point]| && outs'[f.point][f.rev] == Edge(x, {}, i)
    {
      if x != p || i != n {
        var f := ins'[x][i];
        assert Read(ins, x, i);
        if f.point == q && f.rev == e.rev {
          SameOutSlot(s, ins, x, i, p, n);
        }
      }
    }
  }

  /** Once every in-edge is read, out-slot k of position q is filled. */
  lemma OutSlotDone(s: Source, ins: Adj, outs: Adj, q: nat, k: nat)
    requires Encodable(s) && Partial(s, ins, outs) && forall p :: 0 <= p < |s.list| ==> |ins[p]| == |s.g.ins[s.list[p]]|
    requires q < |s.list| && k < |s.g.outs[s.list[q]]|
    ensures k < |outs[q]| && Stands(s, outs[q][k].point, s.g.outs[s.list[q]][k].point) &&
              outs[q][k].rev == s.g.outs[s.list[q]][k].rev && outs[q][k].flags == {}
  {
    assert OutPaired(s.g, s.list[q], k);
    var e := s.g.outs[s.list[q]][k];
    var p: nat :| p < |s.list| && s.list[p] == e.point;
    assert s.g.ins[s.list[p]][..|ins[p]|] == s.g.ins[s.list[p]];
    assert Read(ins, p, e.rev) && RowRestored(s, ins[p], s.g.ins[s.list[p]]);
    assert Stands(s, ins[p][e.rev].point, s.list[q]);
  }

  lemma PartialDone(s: Source, ins: Adj, outs: Adj)
    requires Encodable(s) && Partial(s, ins, outs) && forall p :: 0 <= p < |s.list| ==> |ins[p]| == |s.g.ins[s.list[p]]|
    ensures Restored(s, Graph(ins, outs))
  {
    forall q: nat | q < |s.list|
      ensures RowRestored(s, ins[q], s.g.ins[s.list[q]]) && |outs[q]| <= |s.g.outs[s.list[q]]|
    {
      assert s.g.ins[s.list[q]][..|ins[q]|] == s.g.ins[s.list[q]];
    }
    forall q: nat | q < |s.list| ensures RowRestored(s, outs[q], s.g.outs[s.list[q]]) {
      var row := s.g.outs[s.list[q]];
      assert |outs[q]| <= |row|;
      hide Encodable, Partial, Stands;
      if |row| > 0 { OutSlotDone(s, ins, outs, q, |row| - 1); }
      forall k: nat | k < |row|
        ensures Stands(s, outs[q][k].point, row[k].point) && outs[q][k].rev == row[k].rev && outs[q][k].flags == {}
      {
        OutSlotDone(s, ins, outs, q, k);
      }
    }
  }

  /** A decoder: the resolver of the blocks of one level, and the rest of the stream. */
  class Decoder {
    var stream: seq<Token>
    var index: seq<int>
    var sorted: seq<nat>

    constructor (tokens: seq<Token>)
      ensures stream == tokens && index == [] && sorted == []
    {
      stream, index, sorted := tokens, [], [];
    }

    /** Makes a block for every head. */
    method DecodeHeads(ghost s: Source)
      requires index == []
      modifies this
      ensures SortedByIndex(sorted, index) && forall b: nat :: b < |index| <==> b in sorted
      ensures Encodable(s) && old(stream) == Encoded(s) ==>
                stream == BlocksFrom(s, 0) && |index| == |s.list| && forall p :: 0 <= p < |s.list| ==>
                    index[p] == s.index[s.list[p]]
    {
      ghost var good := Encodable(s) && stream == Encoded(s);
      while stream != [] && stream[0].BHead?
        invariant good ==> |index| <= |s.list| && stream == HeadsFrom(s, |index|) + BlocksFrom(s, 0)
        invariant good ==> forall p :: 0 <= p < |index| ==> index[p] == s.index[s.list[p]]
        decreases |stream|
      {
        index := index + [stream[0].index];
        stream := stream[1..];
      }
      sorted := SortList(index);
    }

    /** The edges of one block; false if an edge names an unknown block. */
    method DecodeBlock(g: BlockGraph, b: nat, ghost s: Source) returns (ok: bool)
      requires SortedByIndex(sorted, index) && (forall b: nat :: b < |index| <==> b in sorted) &&
                 |g.ins| == |g.outs| == |index| && b < |index|
      modifies this`stream, g`ins, g`outs
      ensures |g.ins| == |g.outs| == |index|
      ensures Reading(s, b, old(stream), index, old(g.ins), old(g.outs)) ==>
                ok && Reading(s, b + 1, stream, index, g.ins, g.outs)
    {
      hide Reading, ReadingRow, Padded, SortedByIndex;
      ghost var good := Reading(s, b, stream, index, g.ins, g.outs);
      if good { OpenRead(s, b, stream, index, g.ins, g.outs); }
      if stream == [] || !stream[0].OpenBlock? { return false; }
      stream := stream[1..];
      while stream != [] && stream[0].EdgeRef?
        invariant |g.ins| == |g.outs| == |index|
        invariant good ==> ReadingRow(s, b, stream, index, g.ins, g.outs)
        decreases |stream|
      {
        var e := stream[0];
        var point := FindBlock(sorted, index, e.end);
        if good {
          var q := NextEdge(s, b, stream, index, g.ins, g.outs);
          EdgeRead(s, b, stream, index, g.ins, g.outs, q);
        }
        if point == None || e.rev < 0 { return false; }
        DecodeNextInEdge(g, b, point.value, e.rev);
        stream := stream[1..];
      }
      if good { CloseRead(s, b, stream, index, g.ins, g.outs); }
      if stream == [] || !stream[0].CloseBlock? { return false; }
      stream := stream[1..];
      return true;
    }

    /** The round trip: a stream written by encodeBody restores every in-edge and every out-edge, slot for slot. */
    method DecodeBody(g: BlockGraph, ghost s: Source) returns (ok: bool)
      requires index == []
      modifies this, g`ins, g`outs, g`list, g`index
      ensures Encodable(s) && old(stream) == Encoded(s) ==>
                ok && Restored(s, g.G()) && g.list == seq(|s.list|, i => i) && |g.index| == |s.list| &&
                stream == [] && forall p :: 0 <= p < |s.list| ==> g.index[p] == s.index[s.list[p]]
    {
      hide Reading, SortedByIndex, BlocksFrom;
      ghost var good := Encodable(s) && stream == Encoded(s);
      DecodeHeads(s);
      g.ins, g.outs := seq(|index|, i => []), seq(|index|, i => []);
      g.index := index;
      g.list := [];
      if good { ReadingStarts(s, index, g.ins, g.outs); }
      var i := 0;
      while i < |index|
        invariant 0 <= i <= |index| && |g.ins| == |g.outs| == |index| && g.index == index && g.list == seq(i, k => k)
        invariant SortedByIndex(sorted, index) && forall b: nat :: b < |index| <==> b in sorted
        invariant good ==> Reading(s, i, stream, index, g.ins, g.outs)
      {
        var done := DecodeBlock(g, i, s);
        if !done { return false; }
        g.list := g.list + [i];
        i := i + 1;
      }
      if good { ReadingDone(s, stream, index, g.ins, g.outs); }
      return true;
    }
  }

  /** The first b blocks are read, and nothing of the others. */
  ghost predicate Reading(s: Source, b: nat, stream: seq<Token>, index: seq<int>, ins: Adj, outs: Adj) {
    && Encodable(s) && b <= |s.list| && stream == BlocksFrom(s, b) && |index| == |s.list| &&
       (forall p :: 0 <= p < |s.list| ==> index[p] == s.index[s.list[p]])
    && Partial(s, ins, outs) && forall p :: 0 <= p < |s.list| ==> |ins[p]| == if p < b then |s.g.ins[s.list[p]]| else 0
  }

  /** Block b is being read. */
  ghost predicate ReadingRow(s: Source, b: nat, stream: seq<Token>, index: seq<int>, ins: Adj, outs: Adj) {
    && Encodable(s) && b < |s.list| && |index| == |s.list| &&
       (forall p :: 0 <= p < |s.list| ==> index[p] == s.index[s.list[p]])
    && Partial(s, ins, outs) && (forall p :: 0 <= p < |s.list| && p != b ==>
       |ins[p]| == if p < b then |s.g.ins[s.list[p]]| else 0)
    && |ins[b]| <= |s.g.ins[s.list[b]]| && (forall i :: 0 <= i < |s.g.ins[s.list[b]]| ==>
       s.g.ins[s.list[b]][i].point < |s.index|)
    && stream == EdgesFrom(s, s.g.ins[s.list[b]], |ins[b]|) + [CloseBlock] + BlocksFrom(s, b + 1)
  }

  lemma ReadingStarts(s: Source, index: seq<int>, ins: Adj, outs: Adj)
    requires Encodable(s) && |index| == |s.list| == |ins| == |outs| &&
               (forall p :: 0 <= p < |s.list| ==> index[p] == s.index[s.list[p]])
    requires forall p :: 0 <= p < |ins| ==> ins[p] == [] && outs[p] == []
    ensures Reading(s, 0, BlocksFrom(s, 0), index, ins, outs)
  {
  }

  lemma ReadingDone(s: Source, stream: seq<Token>, index: seq<int>, ins: Adj, outs: Adj)
    requires Reading(s, |index|, stream, index, ins, outs)
    ensures stream == [] && Restored(s, Graph(ins, outs)) && forall p :: 0 <= p < |s.list| ==>
              index[p] == s.index[s.list[p]]
  {
    PartialDone(s, ins, outs);
  }

  /** The next edge names the block it was written for. */
  lemma NextEdge(s: Source, b: nat, stream: seq<Token>, index: seq<int>, ins: Adj, outs: Adj) returns (q0: nat)
    requires ReadingRow(s, b, stream, index, ins, outs) && stream != [] && stream[0].EdgeRef?
    ensures b < |s.list| && |ins[b]| < |s.g.ins[s.list[b]]| && Stands(s, q0, s.g.ins[s.list[b]][|ins[b]|].point)
    ensures stream[0].rev == s.g.ins[s.list[b]][|ins[b]|].rev && q0 < |index| && index[q0] == stream[0].end
    ensures forall q: nat :: q < |index| && index[q] == stream[0].end ==> q == q0
    ensures stream[1..] == EdgesFrom(s, s.g.ins[s.list[b]], |ins[b]| + 1) + [CloseBlock] + BlocksFrom(s, b + 1)
  {
    var row := s.g.ins[s.list[b]];
    assert |ins[b]| == |row| ==> EdgesFrom(s, row, |ins[b]|) == [];
    hide Partial, BlocksFrom;
    q0 :| q0 < |s.list| && s.list[q0] == row[|ins[b]|].point;
  }

  lemma EdgeRead(s: Source, b: nat, stream: seq<Token>, index: seq<int>, ins: Adj, outs: Adj, q: nat)
    requires ReadingRow(s, b, stream, index, ins, outs) && stream != [] && stream[0].EdgeRef?
    requires q < |index| && index[q] == stream[0].end
    ensures stream[0].rev >= 0
    ensures b < |ins| && q < |outs| && ReadingRow(s, b, stream[1..], index,
              ins[b := ins[b] + [Edge(q, {}, stream[0].rev)]],
                       outs[q := Padded(outs[q], stream[0].rev)[stream[0].rev := Edge(b, {}, |ins[b]|)]])
  {
    var q0 := NextEdge(s, b, stream, index, ins, outs);
    PartialStep(s, ins, outs, b, q);
    hide Partial, BlocksFrom, EdgesFrom, Encodable;
  }

  lemma OpenRead(s: Source, b: nat, stream: seq<Token>, index: seq<int>, ins: Adj, outs: Adj)
    requires Reading(s, b, stream, index, ins, outs) && b < |index|
    ensures stream != [] && stream[0].OpenBlock? && ReadingRow(s, b, stream[1..], index, ins, outs)
  {
    InRow(s, b);
    hide Partial;
  }

  lemma CloseRead(s: Source, b: nat, stream: seq<Token>, index: seq<int>, ins: Adj, outs: Adj)
    requires ReadingRow(s, b, stream, index, ins, outs) && (stream == [] || !stream[0].EdgeRef?)
    ensures stream != [] && stream[0].CloseBlock? && Reading(s, b + 1, stream[1..], index, ins, outs)
  {
    hide Partial;
  }
}
