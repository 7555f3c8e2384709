/** BitFieldPullTransform: a comparison of several bit-fields with one constant is split into one comparison a field. */
module CompareGroups {

  import opened Bits
  import opened BitRanges
  import opened Pcode
  import opened BitFields

  datatype PullType = Normal | Equal | Aborted

  /** A field read by the operator readOp: where the root has it, where the compared variable has it (leftShift),
      and its mask there. */
  datatype PullRecord = PullRecord(kind: PullType, readOp: nat, signed: bool, pos: nat, numBits: nat, leftShift: nat,
                                   mask: nat)

  /** What a comparison reads: the whole variable, or a field pulled from the root. */
  datatype Operand = Whole | Pulled(pos: nat, num: nat, signed: bool)

  datatype Op = Compare(equal: bool, operand: Operand, constant: nat) | Combine(conjunction: bool, in0: nat, in1: nat)

  // ---------- values ----------

  /** ZPULL or SPULL of num bits at pos. */
  function PullValue(v: nat, pos: nat, num: nat, signed: bool, size: nat): nat {
    var low := PullOf(v, pos, num);
    if signed then ExtendSignbit(low, num, size) else low
  }

  function OperandValue(operand: Operand, x: nat, root: nat, size: nat): nat {
    match operand
    case Whole => x
    case Pulled(pos, num, signed) => PullValue(root, pos, num, signed, size)
  }

  predicate Truth(op: Op, x: nat, root: nat, size: nat)
    requires op.Compare?
  {
    (OperandValue(op.operand, x, root, size) == op.constant) == op.equal
  }

  /** The value of operator i; combinations only refer to comparisons and to later combinations. */
  predicate Eval(ops: seq<Op>, i: nat, x: nat, root: nat, size: nat)
    requires i < |ops|
    decreases |ops| - i
  {
    match ops[i]
    case Compare(_, _, _) => Truth(ops[i], x, root, size)
    case Combine(conj, in0, in1) =>
      var a := in0 < |ops| && ops[in0].Compare? && Truth(ops[in0], x, root, size);
      var b := in1 < |ops| && if ops[in1].Compare? then Truth(ops[in1], x, root, size)
          else i < in1 && Eval(ops, in1, x, root, size);
      if conj then a && b else a || b
  }

  /** The constant a field is compared with. */
  function FieldConstant(rec: PullRecord, c: nat, size: nat): nat {
    var v := Shr(And(c, rec.mask), rec.leftShift);
    if rec.signed then ExtendSignbit(v, rec.numBits, size) else v
  }

  /** The record describes a whole field of a variable of size bytes. */
  predicate FieldRecord(rec: PullRecord, size: nat) {
    && rec.kind != Aborted && 0 < rec.numBits && rec.leftShift + rec.numBits <= 8 * size <= 64
    && rec.mask == GetMask(BitRange(0, size, rec.leftShift, rec.numBits, false))
  }

  ghost predicate SameField(x: nat, c: nat, rec: PullRecord) {
    forall i: nat :: rec.leftShift <= i < rec.leftShift + rec.numBits ==> Bit(x, i) == Bit(c, i)
  }

  lemma MaskOfRecord(rec: PullRecord, size: nat, i: nat)
    requires FieldRecord(rec, size)
    ensures Bit(rec.mask, i) <==> rec.leftShift <= i < rec.leftShift + rec.numBits
  {
    MaskBit(BitRange(0, size, rec.leftShift, rec.numBits, false), i);
  }

  /** The field of the constant, as it is compared, is the pull of the field from the constant. */
  lemma FieldConstantIsPull(rec: PullRecord, c: nat, size: nat)
    requires FieldRecord(rec, size)
    ensures FieldConstant(rec, c, size) == PullValue(c, rec.leftShift, rec.numBits, rec.signed, size)
  {
    var a, b := Shr(And(c, rec.mask), rec.leftShift), PullOf(c, rec.leftShift, rec.numBits);
    forall i: nat ensures Bit(a, i) == Bit(b, i) {
      ShrBit(And(c, rec.mask), rec.leftShift, i);
      AndBit(c, rec.mask, i + rec.leftShift);
      MaskOfRecord(rec, size, i + rec.leftShift);
      LowBit(Shr(c, rec.leftShift), rec.numBits, i);
      ShrBit(c, rec.leftShift, i);
    }
    EqualBits(a, b);
  }

  lemma PullBit(v: nat, pos: nat, num: nat, i: nat)
    ensures Bit(PullOf(v, pos, num), i) <==> i < num && Bit(v, i + pos)
  {
    LowBit(Shr(v, pos), num, i);
    ShrBit(v, pos, i);
  }

  /** Pulls are equal, extended or not, exactly when the pulled bits are. */
  lemma PullsEqual(a: nat, at: nat, b: nat, bt: nat, num: nat, signed: bool, size: nat)
    requires num > 0
    ensures PullValue(a, at, num, signed, size) == PullValue(b, bt, num, signed, size) <==> Agree(a, at, b, bt, num)
  {
    var p, q := PullOf(a, at, num), PullOf(b, bt, num);
    if PullValue(a, at, num, signed, size) == PullValue(b, bt, num, signed, size) {
      forall i: nat | at <= i < at + num ensures Bit(a, i) <==> Bit(b, i - at + bt) {
        ExtendSignbitKeeps(p, num, size, i - at);
        ExtendSignbitKeeps(q, num, size, i - at);
        PullBit(a, at, num, i - at);
        PullBit(b, bt, num, i - at);
      }
    }
    if Agree(a, at, b, bt, num) {
      forall i: nat ensures Bit(p, i) == Bit(q, i) {
        PullBit(a, at, num, i);
        PullBit(b, bt, num, i);
        if i < num { assert Bit(a, at + i) == Bit(b, at + i - at + bt); }
      }
      EqualBits(p, q);
    }
  }

  // ---------- the split is right ----------

  ghost predicate SomeMask(recs: seq<PullRecord>, i: nat) {
    exists k :: 0 <= k < |recs| && Bit(recs[k].mask, i)
  }

  function CollectMask(recs: seq<PullRecord>): nat {
    if recs == [] then 0 else Or(CollectMask(recs[..|recs| - 1]), recs[|recs| - 1].mask)
  }

  lemma {:induction false} CollectBit(recs: seq<PullRecord>, i: nat)
    ensures Bit(CollectMask(recs), i) <==> SomeMask(recs, i)
  {
    if recs == [] {
      ZeroHasNoBits(i);
    } else {
      var rest := recs[..|recs| - 1];
      OrBit(CollectMask(rest), recs[|recs| - 1].mask, i);
      CollectBit(rest, i);
      if SomeMask(rest, i) {
        var k :| 0 <= k < |rest| && Bit(rest[k].mask, i);
        assert Bit(recs[k].mask, i);
      }
    }
  }

  /** The masks of the group leave out no bit of the constant and no bit that can be set in the variable. */
  ghost predicate Covers(recs: seq<PullRecord>, c: nat, nzm: nat) {
    forall i: nat :: i < WORD && (Bit(c, i) || Bit(nzm, i)) ==> SomeMask(recs, i)
  }

  /** A comparison of the whole variable is the conjunction of the comparisons of its fields. */
  lemma {:induction false} SplitIsRight(recs: seq<PullRecord>, x: nat, c: nat, nzm: nat, size: nat)
    requires (forall k :: 0 <= k < |recs| ==> FieldRecord(recs[k], size)) && Covers(recs, c, nzm) && Masked(x, nzm)
    requires x < Pow2(WORD) && c < Pow2(WORD)
    ensures x == c <==> forall k :: 0 <= k < |recs| ==> SameField(x, c, recs[k])
  {
    if forall k :: 0 <= k < |recs| ==> SameField(x, c, recs[k]) {
      forall i: nat ensures Bit(x, i) == Bit(c, i) {
        if i >= WORD {
          SmallBits(x, WORD, i);
          SmallBits(c, WORD, i);
        } else if SomeMask(recs, i) {
          var k :| 0 <= k < |recs| && Bit(recs[k].mask, i);
          MaskOfRecord(recs[k], size, i);
          assert SameField(x, c, recs[k]);
        }
      }
      EqualBits(x, c);
    }
  }

  ghost predicate UnderMask(v: nat, mask: nat) {
    forall i: nat :: i < WORD && Bit(v, i) ==> Bit(mask, i)
  }

  /** No bit of v is outside the mask. */
  lemma NothingOutside(mask: nat, v: nat)
    ensures And(Complement(mask, WORD), v) == 0 <==> UnderMask(v, mask)
  {
    var outside := Complement(mask, WORD);
    AndZero(outside, v);
    forall i: nat ensures Bit(outside, i) <==> i < WORD && !Bit(mask, i) {
      ComplementBit(mask, WORD, i);
    }
    if Disjoint(outside, v) {
      forall i: nat | i < WORD && Bit(v, i) ensures Bit(mask, i) {
        assert !(Bit(outside, i) && Bit(v, i));
      }
    }
  }

  lemma CollectedCovers(recs: seq<PullRecord>, c: nat, nzm: nat)
    ensures And(Complement(CollectMask(recs), WORD), c) == 0 && And(Complement(CollectMask(recs), WORD), nzm) == 0 <==>
              Covers(recs, c, nzm)
  {
    var mask := CollectMask(recs);
    NothingOutside(mask, c);
    NothingOutside(mask, nzm);
    forall i: nat ensures Bit(mask, i) <==> SomeMask(recs, i) {
      CollectBit(recs, i);
    }
    if Covers(recs, c, nzm) {
      forall i: nat | i < WORD && (Bit(c, i) || Bit(nzm, i)) ensures Bit(mask, i) {
        assert SomeMask(recs, i);
      }
    }
  }

  ghost predicate SomeAborted(recs: seq<PullRecord>) {
    exists k :: 0 <= k < |recs| && recs[k].kind == Aborted
  }

  lemma StartOfGroup(recs: seq<PullRecord>, start: nat)
    requires start <= |recs|
    ensures recs[start..start] == [] && !SomeAborted([]) && CollectMask([]) == 0
  {
  }

  lemma OneMoreRecord(recs: seq<PullRecord>, rec: PullRecord)
    ensures SomeAborted(recs + [rec]) <==> SomeAborted(recs) || rec.kind == Aborted
    ensures CollectMask(recs + [rec]) == Or(CollectMask(recs), rec.mask)
  {
    var more := recs + [rec];
    assert more[..|more| - 1] == recs && more[|recs|] == rec;
    if SomeAborted(recs) {
      var k :| 0 <= k < |recs| && recs[k].kind == Aborted;
      assert more[k].kind == Aborted;
    }
  }

  // ---------- the chain of comparisons ----------

  /** comb[0] combines the comparison b[0] with comb[1], which combines b[1] with ..., down to the last two. */
  ghost predicate Chained(ops: seq<Op>, comb: seq<nat>, b: seq<nat>, conj: bool) {
    && |comb| + 1 == |b| && |comb| > 0
    && (forall j :: 0 <= j < |comb| ==>
       comb[j] < |ops| && ops[comb[j]] == Combine(conj, b[j], if j + 1 < |comb| then comb[j + 1] else b[|b| - 1]))
    && (forall j :: 0 < j < |comb| ==> comb[j - 1] < comb[j])
    && forall j :: 0 <= j < |b| ==> b[j] < |ops| && ops[b[j]].Compare?
  }

  ghost predicate AllTrue(ops: seq<Op>, b: seq<nat>, from: nat, x: nat, root: nat, size: nat)
    requires forall j :: 0 <= j < |b| ==> b[j] < |ops| && ops[b[j]].Compare?
  {
    forall k :: from <= k < |b| ==> Truth(ops[b[k]], x, root, size)
  }

  ghost predicate SomeTrue(ops: seq<Op>, b: seq<nat>, from: nat, x: nat, root: nat, size: nat)
    requires forall j :: 0 <= j < |b| ==> b[j] < |ops| && ops[b[j]].Compare?
  {
    exists k :: from <= k < |b| && Truth(ops[b[k]], x, root, size)
  }

  lemma {:induction false} EvalChain(ops: seq<Op>, comb: seq<nat>, b: seq<nat>, conj: bool, j: nat, x: nat, root: nat,
                                     size: nat)
    requires Chained(ops, comb, b, conj) && j < |comb|
    ensures Eval(ops, comb[j], x, root, size) <==>
              if conj then AllTrue(ops, b, j, x, root, size) else SomeTrue(ops, b, j, x, root, size)
    decreases |comb| - j
  {
    if j + 1 < |comb| { EvalChain(ops, comb, b, conj, j + 1, x, root, size); }
  }

  class BitFieldPullTransform {
    var pullList: seq<PullRecord>
    var ops: seq<Op>

    constructor (list: seq<PullRecord>, operators: seq<Op>)
      ensures pullList == list && ops == operators
    {
      pullList, ops := list, operators;
    }

    /** Drops the records of one comparison unless they are whole fields that cover everything compared. */
    method TestCompareGroup(start: nat, nzm: nat) returns (next: nat, ghost end: nat)
      requires start < |pullList| && pullList[start].readOp < |ops| && ops[pullList[start].readOp].Compare?
      modifies this`pullList
      ensures start < end <= |old(pullList)| &&
                (forall k :: start <= k < end ==> old(pullList)[k].readOp == old(pullList)[start].readOp)
      ensures end == |old(pullList)| || old(pullList)[end].readOp != old(pullList)[start].readOp
      ensures var group := old(pullList)[start..end];
        if !SomeAborted(group) && Covers(group, ops[group[0].readOp].constant, nzm)
        then pullList == old(pullList) && next == end
        else pullList == old(pullList[..start]) + old(pullList)[end..] && next == start
    {
      hide Complement, And, CollectMask, SomeAborted, Covers, Or;
      StartOfGroup(pullList, start);
      var cur := start;
      var isAborted := false;
      var collectMask := 0;
      var op := pullList[start].readOp;
      var val := ops[op].constant;
      while cur < |pullList|
        invariant start <= cur <= |pullList| && pullList == old(pullList) &&
                    (forall k :: start <= k < cur ==> pullList[k].readOp == op)
        invariant isAborted <==> SomeAborted(pullList[start..cur])
        invariant collectMask == CollectMask(pullList[start..cur])
      {
        var rec := pullList[cur];
        if rec.readOp != op { break; }
        assert pullList[start..cur + 1] == pullList[start..cur] + [rec];
        OneMoreRecord(pullList[start..cur], rec);
        cur := cur + 1;
        if rec.kind == Aborted { isAborted := true; }
        collectMask := Or(collectMask, rec.mask);
      }
      end := cur;
      CollectedCovers(pullList[start..end], val, nzm);
      if isAborted || And(Complement(collectMask, WORD), val) != 0 || And(Complement(collectMask, WORD), nzm) != 0 {
        pullList := pullList[..start] + pullList[cur..];
        return start, end;
      }
      return cur, end;
    }

    /** The run of records at the front that belong to the same comparison. */
    method GroupSize() returns (num: nat)
      requires pullList != []
      ensures 0 < num <= |pullList| && forall k :: 0 <= k < num ==> pullList[k].readOp == pullList[0].readOp
      ensures num == |pullList| || pullList[num].readOp != pullList[0].readOp
    {
      num := 0;
      while num < |pullList|
        invariant num <= |pullList| && forall k :: 0 <= k < num ==> pullList[k].readOp == pullList[0].readOp
      {
        if pullList[num].readOp != pullList[0].readOp { break; }
        num := num + 1;
      }
    }

    /** One more comparison, and, but for the first and the last, one more combination. */
    method AddComparison(opc: bool, i: nat, num: nat, cur: nat, ghost comb: seq<nat>, ghost b: seq<nat>,
                         ghost first: nat)
      returns (curCombine: nat, ghost comb': seq<nat>)
      requires Building(ops, comb, b, opc, num, first) && |b| == i < num && num > 1 && first <= |ops|
      requires |comb| > 0 && comb[|comb| - 1] == cur
      modifies this`ops
      ensures Building(ops, comb', b + [|old(ops)|], opc, num, first) && |ops| > |old(ops)|
      ensures |comb'| > 0 && comb'[|comb'| - 1] == curCombine && comb'[0] == comb[0]
      ensures forall o :: 0 <= o < first && o != comb[0] ==> o < |old(ops)| && ops[o] == old(ops)[o]
    {
      hide Building;
      curCombine, comb' := cur, comb;
      ghost var before: seq<Op> := ops;
      BuildingEnd(ops, comb, b, opc, num, first);
      var op := |ops|;
      ops := ops + [Compare(opc, Whole, 0)];
      if i == 0 {
        assert b == [] && b + [op] == [op];
        BuildFirst(before, comb, opc, num, first);
        ops := ops[curCombine := ops[curCombine].(in0 := op)];
      } else if i < num - 1 {
        BuildMiddle(before, comb, b, opc, num, first);
        var combineOp := |ops|;
        ops := ops + [Combine(opc, op, 0)];
        ops := ops[curCombine := ops[curCombine].(in1 := combineOp)];
        curCombine := combineOp;
        comb' := comb + [combineOp];
      } else {
        BuildLast(before, comb, b, opc, num, first);
        ops := ops[curCombine := ops[curCombine].(in1 := op)];
      }
    }

    /** The comparison becomes a chain of boolean operators over one new comparison for each record. */
    method SplitCompare(num: nat) returns (ghost comb: seq<nat>, ghost b: seq<nat>)
      requires 1 < num <= |pullList| && pullList[0].readOp < |ops| && ops[pullList[0].readOp].Compare? &&
                 ops[pullList[0].readOp].operand == Whole
      requires forall k :: 0 <= k < num ==> pullList[k].readOp == pullList[0].readOp
      modifies this
      ensures |b| == num && Chained(ops, comb, b, old(ops[pullList[0].readOp].equal)) &&
                comb[0] == old(pullList[0].readOp)
      ensures forall k, l :: 0 <= k < l < num ==> b[k] < b[l]
      ensures forall k :: 0 <= k < num ==>
                |old(ops)| <= b[k] < |ops| && ops[b[k]] == Compare(old(ops[pullList[0].readOp].equal), Whole, 0)
      ensures |ops| >= |old(ops)| && forall o :: 0 <= o < |old(ops)| && o != old(pullList[0].readOp) ==>
                ops[o] == old(ops[o])
      ensures |pullList| == |old(pullList)| && pullList[num..] == old(pullList)[num..]
      ensures forall k :: 0 <= k < num ==> pullList[k] == old(pullList)[k].(readOp := b[k])
    {
      hide Building;
      var r := pullList[0].readOp;
      var opc := ops[r].equal;
      var curCombine := r;
      ghost var ops0 := ops;
      comb, b := [r], [];
      ops := ops[r := Combine(opc, 0, 0)];
      BuildStarts(ops, r, opc, num, |ops0|);
      var i := 0;
      while i < num
        invariant 0 <= i <= num && |b| == i && |ops| >= |ops0| &&
                    (forall o :: 0 <= o < |ops0| && o != r ==> ops[o] == ops0[o])
        invariant |comb| > 0 && Building(ops, comb, b, opc, num, |ops0|) && comb[0] == r < |ops0| &&
                    comb[|comb| - 1] == curCombine
        invariant |pullList| == |old(pullList)| && pullList[i..] == old(pullList)[i..]
        invariant forall k :: 0 <= k < i ==> pullList[k] == old(pullList)[k].(readOp := b[k])
      {
        ghost var before: seq<Op> := ops;
        var op := |ops|;
        curCombine, comb := AddComparison(opc, i, num, curCombine, comb, b, |ops0|);
        b := b + [op];
        assert forall o :: 0 <= o < |ops0| && o != r ==> ops[o] == before[o];
        pullList := pullList[i := pullList[i].(readOp := op)];
        i := i + 1;
      }
      BuildEnds(ops, comb, b, opc, num, |ops0|);
    }

    /** Splits the comparison of the first record and gives every part the constant of its field. */
    method ApplyCompareRecord(size: nat) returns (num: nat, ghost comb: seq<nat>, ghost b: seq<nat>)
      requires pullList != [] && pullList[0].readOp < |ops| && ops[pullList[0].readOp].Compare? &&
                 ops[pullList[0].readOp].operand == Whole
      modifies this
      ensures 0 < num <= |old(pullList)| && (forall k :: 0 <= k < num ==>
                old(pullList)[k].readOp == old(pullList)[0].readOp)
      ensures num == |old(pullList)| || old(pullList)[num].readOp != old(pullList)[0].readOp
      ensures Parts(ops, comb, b, old(pullList)[0].readOp, num, old(ops[pullList[0].readOp].equal))
      ensures forall k :: 0 <= k < num ==>
                ops[b[k]] == Compare(old(ops[pullList[0].readOp].equal), Whole,
                    FieldConstant(old(pullList)[k], old(ops[pullList[0].readOp].constant), size))
      ensures |pullList| == |old(pullList)| && pullList[num..] == old(pullList)[num..]
      ensures forall k :: 0 <= k < num ==>
                pullList[k] == old(pullList)[k].(readOp := b[k], kind := Normal, leftShift := 0)
    {
      hide Chained, ExtendSignbit, Shr, And;
      var r := pullList[0].readOp;
      var equal := ops[r].equal;
      var origVal := ops[r].constant;
      num := GroupSize();
      ghost var recs: seq<PullRecord> := pullList;
      comb, b := [], [r];
      if num > 1 {
        comb, b := SplitCompare(num);
      }
      AdjustConstants(size, num, origVal, comb, b, r, equal, recs);
    }

    method AdjustConstants(size: nat, num: nat, origVal: nat, ghost comb: seq<nat>, ghost b: seq<nat>, ghost r: nat,
                           ghost equal: bool, ghost recs: seq<PullRecord>)
      requires Parts(ops, comb, b, r, num, equal) && num <= |pullList| == |recs| && pullList[num..] == recs[num..]
      requires forall j :: 0 <= j < num ==>
                 ops[b[j]].equal == equal && ops[b[j]].operand == Whole && pullList[j] == recs[j].(readOp := b[j])
      modifies this
      ensures Parts(ops, comb, b, r, num, equal) && |pullList| == |recs| && pullList[num..] == recs[num..]
      ensures forall j :: 0 <= j < num ==> ops[b[j]] == Compare(equal, Whole, FieldConstant(recs[j], origVal, size))
      ensures forall j :: 0 <= j < num ==> pullList[j] == recs[j].(readOp := b[j], kind := Normal, leftShift := 0)
    {
      hide Chained, ExtendSignbit, Shr, And;
      var k := 0;
      while k < num
        invariant 0 <= k <= num && Parts(ops, comb, b, r, num, equal) && |pullList| == |recs| &&
                    pullList[num..] == recs[num..]
        invariant forall j :: 0 <= j < k ==> ops[b[j]] == Compare(equal, Whole, FieldConstant(recs[j], origVal, size))
        invariant forall j :: k <= j < num ==> ops[b[j]].equal == equal && ops[b[j]].operand == Whole
        invariant forall j :: 0 <= j < k ==> pullList[j] == recs[j].(readOp := b[j], kind := Normal, leftShift := 0)
        invariant forall j :: k <= j < num ==> pullList[j] == recs[j].(readOp := b[j])
      {
        var subrec := pullList[k];
        var val := Shr(And(origVal, subrec.mask), subrec.leftShift);
        if subrec.signed { val := ExtendSignbit(val, subrec.numBits, size); }
        PartUpdated(ops, comb, b, r, num, equal, k, ops[b[k]].(constant := val));
        ops := ops[subrec.readOp := ops[subrec.readOp].(constant := val)];
        pullList := pullList[k := subrec.(kind := Normal, leftShift := 0)];
        k := k + 1;
      }
    }

    /** Puts the pull of the first record in place of the variable its operator reads. */
    method ApplyRecord()
      requires pullList != [] && pullList[0].kind == Normal && pullList[0].leftShift == 0 &&
                 pullList[0].readOp < |ops| && ops[pullList[0].readOp].Compare?
      modifies this
      ensures pullList == old(pullList)[1..]
      ensures var rec := old(pullList)[0];
                ops == old(ops)[rec.readOp := old(ops[pullList[0].readOp]).(operand :=
                Pulled(rec.pos, rec.numBits, rec.signed))]
    {
      var rec := pullList[0];
      ops := ops[rec.readOp := ops[rec.readOp].(operand := Pulled(rec.pos, rec.numBits, rec.signed))];
      pullList := pullList[1..];
    }

    method ApplyRecords(size: nat, num: nat, ghost comb: seq<nat>, ghost b: seq<nat>, ghost recs: seq<PullRecord>,
                        ghost op0: Op)
      requires 0 < num <= |pullList| == |recs| && op0.Compare? && Parts(ops, comb, b, recs[0].readOp, num, op0.equal)
      requires pullList[num..] == recs[num..] && forall j :: 0 <= j < num ==>
                 pullList[j] == recs[j].(readOp := b[j], kind := Normal, leftShift := 0)
      requires forall j :: 0 <= j < num ==> ops[b[j]] == FieldCompare(op0.equal, recs[j], op0.constant, size, false)
      modifies this
      ensures Parts(ops, comb, b, recs[0].readOp, num, op0.equal) && pullList == recs[num..]
      ensures forall j :: 0 <= j < num ==> ops[b[j]] == FieldCompare(op0.equal, recs[j], op0.constant, size, true)
    {
      hide Chained, FieldConstant;
      ghost var list: seq<PullRecord> := pullList;
      var k := 0;
      while k < num
        invariant 0 <= k <= num && Parts(ops, comb, b, recs[0].readOp, num, op0.equal) && pullList == list[k..]
        invariant forall j :: 0 <= j < num ==> ops[b[j]] == FieldCompare(op0.equal, recs[j], op0.constant, size, j < k)
      {
        assert pullList[0] == list[k] && pullList[1..] == list[k + 1..];
        PartUpdated(ops, comb, b, recs[0].readOp, num, op0.equal, k,
            FieldCompare(op0.equal, recs[k], op0.constant, size, true));
        ApplyRecord();
        k := k + 1;
      }
    }

    /** One group, from the comparison to the pulls: the new operators compute what the comparison computed. */
    method ApplyGroup(size: nat, ghost nzm: nat, ghost num0: nat)
      requires pullList != [] && pullList[0].readOp < |ops| && ops[pullList[0].readOp].Compare? &&
                 ops[pullList[0].readOp].operand == Whole
      requires 0 < num0 <= |pullList| && (forall k :: 0 <= k < num0 ==>
                 pullList[k].readOp == pullList[0].readOp && FieldRecord(pullList[k], size))
      requires num0 == |pullList| || pullList[num0].readOp != pullList[0].readOp
      requires Covers(pullList[..num0], ops[pullList[0].readOp].constant, nzm) &&
                 ops[pullList[0].readOp].constant < Pow2(WORD)
      modifies this
      ensures old(pullList[0].readOp) < |ops| && pullList == old(pullList)[num0..]
      ensures forall x: nat, root: nat ::
                x < Pow2(WORD) && Masked(x, nzm) && (forall k :: 0 <= k < num0 ==> Moved(root, x, old(pullList)[k])) ==>
                  (Eval(ops, old(pullList[0].readOp), x, root, size) <==>
                      Truth(old(ops[pullList[0].readOp]), x, root, size))
    {
      hide Chained, FieldRecord, Covers, Masked, FieldConstant, Moved, Eval, Pow2, Truth;
      ghost var recs: seq<PullRecord>, op0 := pullList, ops[pullList[0].readOp];
      var num;
      ghost var comb, b;
      num, comb, b := ApplyCompareRecord(size);
      assert num == num0;
      ApplyRecords(size, num, comb, b, recs, op0);
      PartsRoot(ops, comb, b, recs[0].readOp, num, op0.equal);
      assert recs[..num] != [] && recs[..num][0] == recs[0];
      forall x: nat, root: nat | x < Pow2(WORD) && Masked(x, nzm) && forall k :: 0 <= k < num0 ==>
          Moved(root, x, recs[k])
        ensures Eval(ops, recs[0].readOp, x, root, size) <==> Truth(op0, x, root, size)
      {
        GroupEval(ops, comb, b, recs[..num], op0, nzm, x, root, size);
      }
    }
  }

  /** The forward trace found the field of the root in the compared variable. */
  ghost predicate Moved(root: nat, x: nat, rec: PullRecord) {
    Agree(root, rec.pos, x, rec.leftShift, rec.numBits)
  }

  function FieldCompare(equal: bool, rec: PullRecord, c: nat, size: nat, pulled: bool): Op {
    Compare(equal, if pulled then Pulled(rec.pos, rec.numBits, rec.signed) else Whole, FieldConstant(rec, c, size))
  }

  /** The comparisons b are the parts of operator r. */
  ghost predicate Parts(ops: seq<Op>, comb: seq<nat>, b: seq<nat>, r: nat, num: nat, equal: bool) {
    && |b| == num > 0 && (if num > 1 then Chained(ops, comb, b, equal) && comb[0] == r else b[0] == r)
    && (forall k :: 0 <= k < num ==> b[k] < |ops| && ops[b[k]].Compare?)
    && forall k, l :: 0 <= k < l < num ==> b[k] < b[l]
  }

  lemma PartsRoot(ops: seq<Op>, comb: seq<nat>, b: seq<nat>, r: nat, num: nat, equal: bool)
    requires Parts(ops, comb, b, r, num, equal)
    ensures r < |ops|
  {
  }

  lemma PartUpdated(ops: seq<Op>, comb: seq<nat>, b: seq<nat>, r: nat, num: nat, equal: bool, k: nat, op: Op)
    requires Parts(ops, comb, b, r, num, equal) && k < num && op.Compare?
    ensures Parts(ops[b[k] := op], comb, b, r, num, equal)
    ensures forall j :: 0 <= j < num ==> ops[b[k] := op][b[j]] == if j == k then op else ops[b[j]]
  {
  }

  /** A field comparison is true of the root exactly when the variable and the constant agree, or differ, there. */
  lemma FieldTruth(equal: bool, rec: PullRecord, c: nat, x: nat, root: nat, size: nat)
    requires FieldRecord(rec, size) && Moved(root, x, rec)
    ensures Truth(FieldCompare(equal, rec, c, size, true), x, root, size) <==> SameField(x, c, rec) == equal
  {
    FieldConstantIsPull(rec, c, size);
    PullsEqual(root, rec.pos, c, rec.leftShift, rec.numBits, rec.signed, size);
    if SameField(x, c, rec) {
      assert Agree(root, rec.pos, c, rec.leftShift, rec.numBits);
    } else if Agree(root, rec.pos, c, rec.leftShift, rec.numBits) {
      forall i: nat | rec.leftShift <= i < rec.leftShift + rec.numBits ensures Bit(x, i) == Bit(c, i) {
        assert Bit(root, i - rec.leftShift + rec.pos) == Bit(x, i);
      }
    }
  }

  lemma GroupEval(ops: seq<Op>, comb: seq<nat>, b: seq<nat>, recs: seq<PullRecord>, op0: Op, nzm: nat, x: nat,
                  root: nat, size: nat)
    requires recs != [] && op0.Compare? && op0.operand == Whole &&
               Parts(ops, comb, b, recs[0].readOp, |recs|, op0.equal)
    requires forall k :: 0 <= k < |recs| ==>
               FieldRecord(recs[k], size) && Moved(root, x, recs[k]) &&
                   ops[b[k]] == FieldCompare(op0.equal, recs[k], op0.constant, size, true)
    requires Covers(recs, op0.constant, nzm) && op0.constant < Pow2(WORD) && x < Pow2(WORD) && Masked(x, nzm)
    ensures recs[0].readOp < |ops| && (Eval(ops, recs[0].readOp, x, root, size) <==> Truth(op0, x, root, size))
  {
    hide FieldRecord, Covers, Masked, SameField, FieldConstant, Moved;
    SplitIsRight(recs, x, op0.constant, nzm, size);
    forall k | 0 <= k < |recs|
      ensures Truth(ops[b[k]], x, root, size) <==> SameField(x, op0.constant, recs[k]) == op0.equal
    {
      FieldTruth(op0.equal, recs[k], op0.constant, x, root, size);
    }
    if |recs| > 1 { EvalChain(ops, comb, b, op0.equal, 0, x, root, size); }
  }

  lemma BuildStarts(ops: seq<Op>, r: nat, conj: bool, num: nat, first: nat)
    requires r < |ops| && ops[r] == Combine(conj, 0, 0) && num > 1
    ensures Building(ops, [r], [], conj, num, first)
  {
  }

  lemma BuildFirst(ops: seq<Op>, comb: seq<nat>, conj: bool, num: nat, first: nat)
    requires Building(ops, comb, [], conj, num, first) && num > 1 && first <= |ops| && |comb| > 0
    ensures var cur, ops1 := comb[0], ops + [Compare(conj, Whole, 0)];
      Building(ops1[cur := ops1[cur].(in0 := |ops|)], comb, [|ops|], conj, num, first)
  {
  }

  lemma BuildMiddle(ops: seq<Op>, comb: seq<nat>, b: seq<nat>, conj: bool, num: nat, first: nat)
    requires Building(ops, comb, b, conj, num, first) && 0 < |b| < num - 1 && first <= |ops|
    ensures var cur, op := comb[|comb| - 1], |ops|;
      Building((ops + [Compare(conj, Whole, 0)] + [Combine(conj, op, 0)])[cur := ops[cur].(in1 := op + 1)],
          comb + [op + 1], b + [op], conj, num, first)
  {
    hide Comparing;
    var cur, op := comb[|comb| - 1], |ops|;
    ComparingMore(ops, b, conj, first, cur, ops[cur].(in1 := op + 1));
    var ops', comb' := (ops + [Compare(conj, Whole, 0)] + [Combine(conj, op, 0)])[cur := ops[cur].(in1 := op + 1)],
        comb + [op + 1];
    forall j | 0 <= j < |comb| - 1 ensures comb[j] < cur && ops'[comb[j]] == ops[comb[j]] {
      Ascends(comb, j, |comb| - 1);
    }
    assert ops'[op + 1] == Combine(conj, op, 0) && ops'[op] == Compare(conj, Whole, 0);
  }

  lemma BuildLast(ops: seq<Op>, comb: seq<nat>, b: seq<nat>, conj: bool, num: nat, first: nat)
    requires Building(ops, comb, b, conj, num, first) && 0 < |b| == num - 1 && first <= |ops|
    ensures var cur, ops1 := comb[|comb| - 1], ops + [Compare(conj, Whole, 0)];
      Building(ops1[cur := ops1[cur].(in1 := |ops|)], comb, b + [|ops|], conj, num, first)
  {
    var cur, ops1 := comb[|comb| - 1], ops + [Compare(conj, Whole, 0)];
    var ops' := ops1[cur := ops1[cur].(in1 := |ops|)];
    forall j | 0 <= j < |comb| - 1 ensures comb[j] < cur && ops'[comb[j]] == ops[comb[j]] {
      Ascends(comb, j, |comb| - 1);
    }
  }

  lemma {:induction false} Ascends(comb: seq<nat>, j: nat, k: nat)
    requires (forall j :: 0 < j < |comb| ==> comb[j - 1] < comb[j]) && j < k < |comb|
    ensures comb[j] < comb[k]
  {
    if j + 1 < k { Ascends(comb, j, k - 1); }
  }

  lemma BuildingEnd(ops: seq<Op>, comb: seq<nat>, b: seq<nat>, conj: bool, num: nat, first: nat)
    requires Building(ops, comb, b, conj, num, first) && num > 1
    ensures |comb| > 0 && comb[|comb| - 1] < |ops| && ops[comb[|comb| - 1]].Combine? &&
              (|comb| > 1 ==> comb[|comb| - 1] >= first)
  {
  }

  lemma BuildEnds(ops: seq<Op>, comb: seq<nat>, b: seq<nat>, conj: bool, num: nat, first: nat)
    requires Building(ops, comb, b, conj, num, first) && |b| == num > 1
    ensures Chained(ops, comb, b, conj)
    ensures forall k, l :: 0 <= k < l < num ==> b[k] < b[l]
    ensures forall k :: 0 <= k < num ==> first <= b[k] < |ops| && ops[b[k]] == Compare(conj, Whole, 0)
  {
  }

  /** The chain while it is built: after i records, the inputs filled in so far. */
  ghost predicate Building(ops: seq<Op>, comb: seq<nat>, b: seq<nat>, conj: bool, num: nat, first: nat) {
    var i := |b|;
    && |comb| == (if i <= 1 then 1 else if i < num then i else num - 1)
    && (forall j :: 0 <= j < |comb| ==> comb[j] < |ops| && ops[comb[j]].Combine? && ops[comb[j]].conjunction == conj)
    && (forall j :: 0 <= j < |comb| && j < i ==> ops[comb[j]].in0 == b[j])
    && (forall j :: 0 <= j < |comb| - 1 ==> ops[comb[j]].in1 == comb[j + 1])
    && (i == num && num > 1 ==> ops[comb[|comb| - 1]].in1 == b[num - 1])
    && (forall j :: 0 < j < |comb| ==> comb[j] >= first)
    && (forall j :: 0 < j < |comb| ==> comb[j - 1] < comb[j])
    && Comparing(ops, b, conj, first)
  }

  /** The comparisons built so far, not filled in yet. */
  ghost predicate Comparing(ops: seq<Op>, b: seq<nat>, conj: bool, first: nat) {
    && (forall j :: 0 <= j < |b| ==> first <= b[j] < |ops| && ops[b[j]] == Compare(conj, Whole, 0))
    && (forall j, k :: 0 <= j < k < |b| ==> b[j] < b[k])
  }

  /** Adding a combining op does not disturb the comparisons. */
  lemma ComparingMore(ops: seq<Op>, b: seq<nat>, conj: bool, first: nat, cur: nat, op: Op)
    requires Comparing(ops, b, conj, first) && cur < |ops| && ops[cur].Combine? && first <= |ops|
    ensures Comparing((ops + [Compare(conj, Whole, 0)] + [Combine(conj, |ops|, 0)])[cur := op], b + [|ops|], conj,
              first)
  {
  }
}
