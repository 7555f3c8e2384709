/** BitFieldInsertTransform: every bit-field of a root value is followed backwards through the operators that built
    the value, until it is known what is written to the field. */
module BitFields {

  import opened Wrappers
  import opened Bits
  import opened BitRanges
  import opened Pcode

  /** The bit-field of a structure: its width, and whether its type is a signed integer. */
  datatype Field = Field(numBits: nat, signed: bool)

  /** A write to one bit-field: a variable shifted right, or a constant. */
  datatype InsertRecord = InsertRecord(vn: Option<nat>, constVal: nat, pos: nat, numBits: nat, shiftAmount: nat)

  /** Conversion of a 64-bit constant to a 32-bit integer. */
  function Int4(x: nat): int {
    var low := x % 0x1_0000_0000;
    if low >= 0x8000_0000 then low - 0x1_0000_0000 else low
  }

  lemma ExtendSignbitKeeps(val: nat, numbits: nat, size: nat, i: nat)
    requires i < numbits
    ensures Bit(ExtendSignbit(val, numbits, size), i) == Bit(val, i)
  {
    if numbits < 8 * size {
      LowBit(val, numbits, i);
      OrBit(Low(val, numbits), Shl(Pow2(8 * size - numbits) - 1, numbits), i);
      ShlBit(Pow2(8 * size - numbits) - 1, numbits, i);
    }
  }

  // ---------- what is kept ----------

  /** Bits [at, at + n) of the root are bits [least, least + n) of v. */
  ghost predicate Agree(root: nat, at: nat, v: nat, least: nat, n: nat) {
    forall i: nat :: at <= i < at + n ==> (Bit(root, i) <==> Bit(v, i - at + least))
  }

  function RecordValue(rec: InsertRecord, val: seq<nat>): nat {
    if rec.vn.Some? && rec.vn.value < |val| then val[rec.vn.value] else rec.constVal
  }

  /** Inserting what the record says puts the root's own bits into the field. */
  ghost predicate RecordRight(root: nat, rec: InsertRecord, val: seq<nat>) {
    (rec.vn.Some? ==> rec.vn.value < |val|) && Agree(root, rec.pos, RecordValue(rec, val), rec.shiftAmount, rec.numBits)
  }

  // ---------- one operator ----------

  /** The mask of a field of at most 64 bits covers it. */
  lemma FieldMask(r: BitRange, i: nat)
    requires Contained(r) && r.byteSize <= 8
    ensures Bit(GetMask(r), i) <==> r.leastSigBit <= i < r.leastSigBit + r.numBits
  {
    MaskBit(r, i);
  }

  /** The field lies inside the mask c: the field of a & c is the field of a. */
  lemma AndKeeps(r: BitRange, a: nat, c: nat)
    requires Contained(r) && r.byteSize <= 8 && And(GetMask(r), c) == GetMask(r)
    ensures Agree(And(a, c), r.leastSigBit, a, r.leastSigBit, r.numBits)
  {
    AndFull(GetMask(r), c);
    hide GetMask, And;
    forall i: nat | r.leastSigBit <= i < r.leastSigBit + r.numBits ensures Bit(And(a, c), i) <==> Bit(a, i) {
      AndBit(a, c, i);
      FieldMask(r, i);
    }
  }

  /** v has no bit in the field. */
  ghost predicate FieldClear(v: nat, r: BitRange)
    requires r.leastSigBit >= 0
  {
    forall i: nat :: r.leastSigBit <= i < r.leastSigBit + r.numBits ==> !Bit(v, i)
  }

  lemma MaskedClear(v: nat, nzm: nat, r: BitRange)
    requires Contained(r) && r.byteSize <= 8 && Masked(v, nzm) && And(nzm, GetMask(r)) == 0
    ensures FieldClear(v, r)
  {
    AndZero(nzm, GetMask(r));
    hide GetMask, And;
    forall i: nat | r.leastSigBit <= i < r.leastSigBit + r.numBits ensures !Bit(v, i) {
      FieldMask(r, i);
    }
  }

  /** One input of an or has no bit in the field: the other one holds it. */
  lemma OrKeeps(a: nat, b: nat, r: BitRange)
    requires Contained(r)
    ensures FieldClear(a, r) ==> Agree(Or(a, b), r.leastSigBit, b, r.leastSigBit, r.numBits)
    ensures FieldClear(b, r) ==> Agree(Or(a, b), r.leastSigBit, a, r.leastSigBit, r.numBits)
  {
    forall i: nat ensures Bit(Or(a, b), i) <==> Bit(a, i) || Bit(b, i) {
      OrBit(a, b, i);
    }
  }

  /** A constant with the whole field set decides an or. */
  lemma OrFilled(a: nat, b: nat, r: BitRange)
    requires Contained(r) && r.byteSize <= 8 && And(b, GetMask(r)) == GetMask(r)
    ensures Agree(Or(a, b), r.leastSigBit, b, r.leastSigBit, r.numBits)
  {
    hide GetMask, And, Or;
    forall i: nat | r.leastSigBit <= i < r.leastSigBit + r.numBits ensures Bit(Or(a, b), i) && Bit(b, i) {
      OrBit(a, b, i);
      AndBit(b, GetMask(r), i);
      FieldMask(r, i);
    }
  }

  lemma DisjointMasks(a: nat, b: nat, maskA: nat, maskB: nat, size: nat)
    requires Masked(a, maskA) && Masked(b, maskB) && And(maskA, maskB) == 0 && size <= 8
    requires a < Pow2(8 * size) && b < Pow2(8 * size)
    ensures Disjoint(a, b)
  {
    AndZero(maskA, maskB);
    forall i: nat ensures !(Bit(a, i) && Bit(b, i)) {
      if i >= 8 * size { SmallBits(a, 8 * size, i); }
    }
  }

  lemma AddKeeps(a: nat, b: nat, maskA: nat, maskB: nat, r: BitRange)
    requires Contained(r) && r.byteSize <= 8 && a < Pow2(8 * r.byteSize) && b < Pow2(8 * r.byteSize)
    requires Masked(a, maskA) && Masked(b, maskB) && And(maskA, maskB) == 0
    ensures And(maskA, GetMask(r)) == 0 ==>
              Agree(Low(a + b, 8 * r.byteSize), r.leastSigBit, b, r.leastSigBit, r.numBits)
    ensures And(maskB, GetMask(r)) == 0 ==>
              Agree(Low(a + b, 8 * r.byteSize), r.leastSigBit, a, r.leastSigBit, r.numBits)
  {
    hide GetMask, And, Pow2, Low, Masked;
    DisjointMasks(a, b, maskA, maskB, r.byteSize);
    forall i: nat | i < 8 * r.byteSize ensures Bit(Low(a + b, 8 * r.byteSize), i) <==> Bit(a, i) || Bit(b, i) {
      AddBit(a, b, r.byteSize, i);
    }
    if And(maskA, GetMask(r)) == 0 { MaskedClear(a, maskA, r); }
    if And(maskB, GetMask(r)) == 0 { MaskedClear(b, maskB, r); }
  }

  /** The value is moved up by k bits, zeros coming in below. */
  ghost predicate MovedUp(out: nat, a: nat, k: nat, size: nat) {
    forall i: nat :: i < 8 * size ==> (Bit(out, i) <==> i >= k && Bit(a, i - k))
  }

  /** The field, moved back down by k bits, is followed if all of it is still there, and zero if none of it is. */
  lemma MovedUpKeeps(out: nat, a: nat, k: nat, r: BitRange)
    requires Contained(r) && r.numBits > 0 && MovedUp(out, a, k, r.byteSize)
    ensures var s := Shift(r, 0 - k);
      && s.leastSigBit >= 0
      && (s.numBits == r.numBits ==> Agree(out, r.leastSigBit, a, s.leastSigBit, r.numBits))
      && (s.numBits == 0 ==> FieldClear(out, r))
  {
  }

  lemma LeftMovesUp(a: nat, k: nat, size: nat)
    ensures MovedUp(Left(a, k, size), a, k, size)
  {
    forall i: nat | i < 8 * size ensures Bit(Left(a, k, size), i) <==> i >= k && Bit(a, i - k) {
      LeftBit(a, k, size, i);
    }
  }

  lemma PowerMovesUp(a: nat, k: nat, size: nat)
    ensures MovedUp(Low(a * Pow2(k), 8 * size), a, k, size)
  {
    hide Low, Pow2;
    forall i: nat | i < 8 * size ensures Bit(Low(a * Pow2(k), 8 * size), i) <==> i >= k && Bit(a, i - k) {
      MultBit(a, k, size, i);
    }
  }

  lemma MultMovesUp(a: nat, b: nat, size: nat)
    requires PopCount(b) == 1
    ensures b > 0 && MovedUp(Low(a * b, 8 * size), a, LeastSet(b), size)
  {
    OneBitIsPower(b);
    var k := LeastSet(b);
    hide Low, Pow2, PopCount, MovedUp;
    PowerMovesUp(a, k, size);
  }

  lemma SrightKeeps(a: nat, k: nat, r: BitRange)
    requires Contained(r) && r.numBits > 0 && r.byteSize > 0 && Shift(r, k).numBits == r.numBits
    ensures Agree(Sright(a, k, r.byteSize), r.leastSigBit, a, Shift(r, k).leastSigBit, r.numBits)
  {
    forall i: nat | r.leastSigBit <= i < r.leastSigBit + r.numBits
      ensures Bit(Sright(a, k, r.byteSize), i) == Bit(a, i + k)
    {
      SrightBit(a, k, r.byteSize, i);
    }
  }

  /** From offset zero a SUBPIECE keeps positions. */
  lemma SubpieceKeeps(a: nat, r: BitRange)
    requires Contained(r)
    ensures Agree(SubpieceOf(a, 0, r.byteSize), r.leastSigBit, a, r.leastSigBit, r.numBits)
  {
    forall i: nat | i < 8 * r.byteSize ensures Bit(SubpieceOf(a, 0, r.byteSize), i) == Bit(a, i) {
      SubpieceBit(a, 0, r.byteSize, i);
    }
  }

  lemma AgreeChain(root: nat, at: nat, v: nat, least: nat, u: nat, below: nat, n: nat)
    requires Agree(root, at, v, least, n) && Agree(v, least, u, below, n)
    ensures Agree(root, at, u, below, n)
  {
  }

  lemma AgreeClear(root: nat, at: nat, v: nat, r: BitRange)
    requires Contained(r) && Agree(root, at, v, r.leastSigBit, r.numBits) && FieldClear(v, r)
    ensures Agree(root, at, 0, 0, r.numBits)
  {
    NoBitsOfZero();
  }

  // ---------- a field being followed ----------

  /** Where the trace of a field stands. */
  datatype Snap = Snap(node: Option<nat>, bitsField: BitRange, bitsUsed: BitRange)

  predicate Sized(r: BitRange) {
    r.leastSigBit >= 0 && r.numBits >= 0
  }

  ghost predicate Shaped(g: Graph, field: Option<Field>, s: Snap) {
    && s.node.Some? && s.node.value < |g| && Contained(s.bitsField) && s.bitsField.numBits > 0 && Sized(s.bitsUsed)
    && s.bitsField.byteSize == g[s.node.value].size && (field.Some? ==> s.bitsField.numBits == field.value.numBits)
  }

  /** The bits of the root from at on are the field of the variable the trace has come to. */
  ghost predicate Carries(val: seq<nat>, root: nat, at: nat, s: Snap)
    requires s.node.Some? && s.node.value < |val| && s.bitsField.leastSigBit >= 0 && s.bitsField.numBits >= 0
  {
    Agree(root, at, val[s.node.value], s.bitsField.leastSigBit, s.bitsField.numBits)
  }

  function ZeroRecord(at: nat, field: Field): InsertRecord {
    InsertRecord(None, 0, at, field.numBits, 0)
  }

  /** What one handler may do: go on at an earlier variable that carries the field, or record that the field is
      zero, or give up without a trace. */
  ghost predicate Handled(g: Graph, val: seq<nat>, root: nat, at: nat, field: Option<Field>, s0: Snap, s1: Snap,
                          added: seq<InsertRecord>, followed: bool)
    requires |val| == |g|
  {
    if followed && s1.node.Some? then
      && Shaped(g, field, s0) && Shaped(g, field, s1) && s1.node.value < s0.node.value &&
         s1.bitsField.numBits == s0.bitsField.numBits
      && Carries(val, root, at, s1) && added == []
    else if followed then
      field.Some? && added == [ZeroRecord(at, field.value)] && Agree(root, at, 0, 0, field.value.numBits)
    else added == [] && (s1 == s0 || (s1.node.None? && field.None?))
  }

  /** Sizes in bits fit 32-bit integers. */
  predicate SmallSizes(g: Graph) {
    forall i: nat :: i < |g| ==> 8 * g[i].size < 0x8000_0000
  }

  /** The constant that is the second input of an operator. */
  predicate ByConstant(g: Graph, i: nat) {
    i < |g| && g[i].def.Written? && |g[i].def.ins| == 2 && g[i].def.ins[1] < |g| && g[g[i].def.ins[1]].def.Constant?
  }

  /** A shift to the left that is followed is so by its own amount. */
  predicate LeftRight(c: nat, r: BitRange) {
    0 <= Int4(c) < 64 && r.leastSigBit >= Int4(c) ==> c < 0x1_0000_0000
  }

  /** A shift to the right that is followed is so by its own amount, or its one bit is the sign bit. */
  predicate SrightRight(c: nat, r: BitRange) {
    0 <= Int4(c) < 64 && r.leastSigBit + r.numBits + Int4(c) <= 8 * r.byteSize ==>
      c < 0x1_0000_0000 || (r.numBits == 1 && r.leastSigBit + Int4(c) == 8 * r.byteSize - 1)
  }

  /** A SUBPIECE that is followed drops no bytes. */
  predicate SubpieceRight(c: nat, r: BitRange) {
    r.leastSigBit >= 8 * c ==> c == 0
  }

  /** The operator that defines variable i does not lead the trace of a field at r astray. */
  predicate StepRight(g: Graph, i: nat, r: BitRange) {
    ByConstant(g, i) ==>
      var c := g[g[i].def.ins[1]].def.offset;
      match g[i].def.code
      case IntLeft => LeftRight(c, r)
      case IntSright => SrightRight(c, r)
      case Subpiece => SubpieceRight(c, r)
      case _ => true
  }

  /** No operator leads the trace of any field astray. */
  predicate Supported(g: Graph) {
    forall i: nat :: i < |g| && ByConstant(g, i) ==> OpSupported(g, i)
  }

  /** The constant fits 32 bits, or no field can be taken to be moved by what is left of it; a SUBPIECE drops no bytes,
      or more than it keeps. */
  predicate OpSupported(g: Graph, i: nat)
    requires ByConstant(g, i)
  {
    var c, n := g[g[i].def.ins[1]].def.offset, 8 * g[i].size;
    match g[i].def.code
    case IntLeft => c < 0x1_0000_0000 || Int4(c) < 0 || Int4(c) >= 64 || Int4(c) >= n
    case IntSright => c < 0x1_0000_0000 || Int4(c) < 0 || Int4(c) >= 64 || Int4(c) >= n - 1
    case Subpiece => c == 0 || c >= g[i].size
    case _ => true
  }

  // ---------- the handlers, on values ----------

  /** Some operator of the given kind defines the variable the trace stands at. */
  ghost predicate At(g: Graph, val: seq<nat>, field: Option<Field>, s: Snap, code: OpCode) {
    && WellFormed(g) && Valued(g, val) && Shaped(g, field, s)
    && g[s.node.value].def.Written? && g[s.node.value].def.code == code && Typed(g, s.node.value) &&
       Computed(g, val, s.node.value)
  }

  lemma FollowOn(g: Graph, val: seq<nat>, root: nat, at: nat, field: Option<Field>, s0: Snap, s1: Snap)
    requires |val| == |g| && Shaped(g, field, s0) && Shaped(g, field, s1) && Carries(val, root, at, s0)
    requires s1.node.value < s0.node.value && s1.bitsField.numBits == s0.bitsField.numBits
    requires Agree(val[s0.node.value], s0.bitsField.leastSigBit, val[s1.node.value], s1.bitsField.leastSigBit,
               s0.bitsField.numBits)
    ensures Handled(g, val, root, at, field, s0, s1, [], true)
  {
    AgreeChain(root, at, val[s0.node.value], s0.bitsField.leastSigBit, val[s1.node.value], s1.bitsField.leastSigBit,
        s0.bitsField.numBits);
  }

  lemma ZeroedOut(g: Graph, val: seq<nat>, root: nat, at: nat, field: Option<Field>, s0: Snap, s1: Snap)
    requires |val| == |g| && Shaped(g, field, s0) && Carries(val, root, at, s0) &&
               FieldClear(val[s0.node.value], s0.bitsField)
    requires s1 == s0.(node := None)
    ensures if field.Some? then Handled(g, val, root, at, field, s0, s1, [ZeroRecord(at, field.value)], true)
            else Handled(g, val, root, at, field, s0, s1, [], false)
  {
    AgreeClear(root, at, val[s0.node.value], s0.bitsField);
  }

  lemma UsedStaysSized(r: BitRange, mask: nat)
    requires Sized(r)
    ensures Sized(IntersectMask(r, mask))
  {
    hide GetMask, And, Bit;
    var m := And(mask, GetMask(r));
    if m > 0 {
      AndBit(mask, GetMask(r), LeastSet(m));
      AndBit(mask, GetMask(r), MostSet(m));
      MaskBit(r, LeastSet(m));
      MaskBit(r, MostSet(m));
      assert LeastSet(m) <= MostSet(m);
    }
  }

  // ---------- all fields ----------

  /** The value built by inserting the records, one after the other, into base. */
  function InsertAll(base: nat, recs: seq<InsertRecord>, val: seq<nat>): nat {
    if recs == [] then base
    else
      var rec := recs[|recs| - 1];
      Insert(InsertAll(base, recs[..|recs| - 1], val), Shr(RecordValue(rec, val), rec.shiftAmount), rec.pos,
          rec.numBits)
  }

  ghost predicate Covered(recs: seq<InsertRecord>, i: nat) {
    exists k :: 0 <= k < |recs| && recs[k].pos <= i < recs[k].pos + recs[k].numBits
  }

  /** Right records put the root's bits wherever they write, in whatever order, and leave the rest of base alone. */
  lemma {:induction false} InsertAllBit(base: nat, recs: seq<InsertRecord>, val: seq<nat>, root: nat, i: nat)
    requires forall k :: 0 <= k < |recs| ==> RecordRight(root, recs[k], val)
    ensures Bit(InsertAll(base, recs, val), i) <==> Bit(if Covered(recs, i) then root else base, i)
  {
    if recs != [] {
      var rest, rec := recs[..|recs| - 1], recs[|recs| - 1];
      InsertAllBit(base, rest, val, root, i);
      InsertBit(InsertAll(base, rest, val), Shr(RecordValue(rec, val), rec.shiftAmount), rec.pos, rec.numBits, i);
      if rec.pos <= i < rec.pos + rec.numBits {
        ShrBit(RecordValue(rec, val), rec.shiftAmount, i - rec.pos);
        assert RecordRight(root, rec, val) && Covered(recs, i);
      } else if Covered(rest, i) {
        var k :| 0 <= k < |rest| && rest[k].pos <= i < rest[k].pos + rest[k].numBits;
        assert recs[k] == rest[k];
      }
    }
  }

  // ---------- what the trace gets wrong ----------

  /** SUBPIECE is followed with the shift in the wrong direction: only offset zero keeps the field. */
  lemma SubpieceFollowedRight(r: BitRange, off: nat, size: nat)
    requires Contained(r) && r.numBits > 0 && r.byteSize == size && r.leastSigBit >= 8 * off
    ensures (forall a: nat :: Agree(SubpieceOf(a, off, size), r.leastSigBit, a, r.leastSigBit - 8 * off,
              r.numBits)) <==> off == 0
  {
    if off == 0 {
      forall a: nat ensures Agree(SubpieceOf(a, off, size), r.leastSigBit, a, r.leastSigBit - 8 * off, r.numBits) {
        SubpieceKeeps(a, r);
      }
    } else {
      var a := Pow2(r.leastSigBit + 8 * off);
      Pow2Bit(r.leastSigBit + 8 * off, r.leastSigBit - 8 * off);
      Pow2Bit(r.leastSigBit + 8 * off, r.leastSigBit + 8 * off);
      SubpieceBit(a, off, size, r.leastSigBit);
      assert !Agree(SubpieceOf(a, off, size), r.leastSigBit, a, r.leastSigBit - 8 * off, r.numBits);
    }
  }

  /** A pull from the original value is taken to hold the field where the original has it. For an unsigned pull that
      is so only for a field at position zero. */
  lemma ZpullIsOriginal(pos: nat, num: nat, size: nat)
    requires num > 0 && pos + num <= 8 * size
    ensures (forall a: nat :: Agree(ZpullOf(a, pos, num, size), pos, a, pos, num)) <==> pos == 0
  {
    hide ZpullOf, Bit, Pow2;
    if pos == 0 {
      forall a: nat ensures Agree(ZpullOf(a, pos, num, size), pos, a, pos, num) {
        forall i: nat | pos <= i < pos + num ensures Bit(ZpullOf(a, pos, num, size), i) <==> Bit(a, i) {
          ZpullBit(a, pos, num, size, i);
        }
      }
    } else {
      var a := if pos < num then Pow2(2 * pos) else Pow2(pos);
      ZpullBit(a, pos, num, size, pos);
      Pow2Bit(2 * pos, 2 * pos);
      Pow2Bit(2 * pos, pos);
      Pow2Bit(pos, pos);
      assert !Agree(ZpullOf(a, pos, num, size), pos, a, pos, num);
    }
  }

  /** A signed pull also has a one-bit field at every position: all its bits are copies of the sign. */
  lemma SpullIsOriginal(pos: nat, num: nat, size: nat)
    requires num > 0 && pos + num <= 8 * size
    ensures (forall a: nat :: Agree(SpullOf(a, pos, num, size), pos, a, pos, num)) <==> pos == 0 || num == 1
  {
    hide SpullOf, Bit, Pow2;
    if pos == 0 || num == 1 {
      forall a: nat ensures Agree(SpullOf(a, pos, num, size), pos, a, pos, num) {
        forall i: nat | pos <= i < pos + num ensures Bit(SpullOf(a, pos, num, size), i) <==> Bit(a, i) {
          SpullBit(a, pos, num, size, i);
        }
      }
    } else {
      // bit pos of the pull is bit 2 * pos of a, or its sign bit: in either case not bit pos
      var a := Pow2(pos);
      SpullBit(a, pos, num, size, pos);
      Pow2Bit(pos, 2 * pos);
      Pow2Bit(pos, pos + num - 1);
      Pow2Bit(pos, pos);
      assert !Agree(SpullOf(a, pos, num, size), pos, a, pos, num);
    }
  }

  /** A shift amount is truncated to 32 bits before it is used. When the field is followed, that is right exactly for
      amounts of 32 bits. */
  lemma LeftFollowedRight(r: BitRange, c: nat)
    requires Contained(r) && r.numBits > 0 && 0 <= Int4(c) < 64 && r.leastSigBit >= Int4(c)
    ensures (forall a: nat :: Agree(Left(a, c, r.byteSize), r.leastSigBit, a, r.leastSigBit - Int4(c), r.numBits)) <==>
              LeftRight(c, r)
  {
    hide Left, Bit, Pow2;
    var sa: nat := Int4(c);
    if c < 0x1_0000_0000 {
      NarrowIsKept(c);
      forall a: nat ensures Agree(Left(a, c, r.byteSize), r.leastSigBit, a, r.leastSigBit - sa, r.numBits) {
        LeftMovesUp(a, c, r.byteSize);
      }
    } else {
      var a := Pow2(r.leastSigBit - sa);
      LeftBit(a, c, r.byteSize, r.leastSigBit);
      Pow2Bit(r.leastSigBit - sa, r.leastSigBit - sa);
      if r.leastSigBit >= c { Pow2Bit(r.leastSigBit - sa, r.leastSigBit - c); }
      assert !Agree(Left(a, c, r.byteSize), r.leastSigBit, a, r.leastSigBit - sa, r.numBits);
    }
  }

  /** When the field is taken to be shifted out, it is zero, however wide the amount. */
  lemma LeftClearedRight(a: nat, c: nat, r: BitRange)
    requires Contained(r) && 0 <= Int4(c) && r.leastSigBit + r.numBits <= Int4(c)
    ensures FieldClear(Left(a, c, r.byteSize), r)
  {
    hide Left, Bit;
    forall i: nat | r.leastSigBit <= i < r.leastSigBit + r.numBits ensures !Bit(Left(a, c, r.byteSize), i) {
      LeftBit(a, c, r.byteSize, i);
    }
  }

  /** The same for a signed shift to the right. A wide amount brings the sign bit everywhere: that is still right for
      a single bit that was looked for at the sign. */
  lemma SrightFollowedRight(r: BitRange, c: nat)
    requires Contained(r) && r.numBits > 0 && 0 <= Int4(c) < 64 && r.leastSigBit + r.numBits + Int4(c) <= 8 * r.byteSize
    ensures (forall a: nat :: a < Pow2(8 * r.byteSize) ==>
              Agree(Sright(a, c, r.byteSize), r.leastSigBit, a, r.leastSigBit + Int4(c), r.numBits)) <==>
                  SrightRight(c, r)
  {
    hide Sright, Bit, Pow2, Agree;
    var sa: nat, n: nat := Int4(c), 8 * r.byteSize;
    if SrightRight(c, r) {
      forall a: nat | a < Pow2(n)
        ensures Agree(Sright(a, c, r.byteSize), r.leastSigBit, a, r.leastSigBit + sa, r.numBits)
      {
        SrightAgrees(a, r, c);
      }
    } else {
      SrightDiffers(r, c);
    }
  }

  lemma SrightAgrees(a: nat, r: BitRange, c: nat)
    requires Contained(r) && r.numBits > 0 && 0 <= Int4(c) < 64 && r.leastSigBit + r.numBits + Int4(c) <= 8 * r.byteSize
    requires a < Pow2(8 * r.byteSize) && SrightRight(c, r)
    ensures Agree(Sright(a, c, r.byteSize), r.leastSigBit, a, r.leastSigBit + Int4(c), r.numBits)
  {
    hide Sright, Bit, Pow2;
    if c < 0x1_0000_0000 {
      NarrowIsKept(c);
      SrightKeeps(a, c, r);
    } else {
      WideIsMore(c);
      SrightSign(a, c, r.byteSize, r.leastSigBit);
    }
  }

  /** A truncated amount is a smaller one. */
  lemma WideIsMore(c: nat)
    requires c >= 0x1_0000_0000
    ensures Int4(c) < c
  {
  }

  lemma SrightDiffers(r: BitRange, c: nat)
    requires Contained(r) && r.numBits > 0 && 0 <= Int4(c) < 64 && r.leastSigBit + r.numBits + Int4(c) <= 8 * r.byteSize
    requires !SrightRight(c, r)
    ensures exists a: nat :: a < Pow2(8 * r.byteSize) &&
              !Agree(Sright(a, c, r.byteSize), r.leastSigBit, a, r.leastSigBit + Int4(c), r.numBits)
  {
    hide Sright, Bit, Pow2;
    WideIsMore(c);
    var n: nat, at: nat := 8 * r.byteSize, r.leastSigBit + Int4(c);
    var a := Pow2(at);
    Pow2Less(at, n);
    if r.leastSigBit + c < n {
      SrightBit(a, c, r.byteSize, r.leastSigBit);
    } else {
      SrightSign(a, c, r.byteSize, r.leastSigBit);
    }
    Pow2Bit(at, at);
    Pow2Bit(at, r.leastSigBit + c);
    Pow2Bit(at, n - 1);
    assert Bit(a, at) && !Bit(Sright(a, c, r.byteSize), r.leastSigBit);
  }

  lemma Pow2Less(k: nat, n: nat)
    requires k < n
    ensures Pow2(k) < Pow2(n)
  {
    Pow2Monotonic(k + 1, n);
  }

  lemma NarrowIsKept(c: nat)
    requires c < 0x1_0000_0000
    ensures if c < 0x8000_0000 then Int4(c) == c else Int4(c) < 0
  {
  }

  /** What Supported asks of an operator is just what the fields that can come to it need. */
  lemma SupportedIsExact(g: Graph, i: nat)
    requires ByConstant(g, i) && g[i].size > 0
    ensures OpSupported(g, i) <==>
              forall r: BitRange :: Contained(r) && r.numBits > 0 && r.byteSize == g[i].size ==> StepRight(g, i, r)
  {
    hide Int4;
    var n := g[i].size;
    if forall r: BitRange :: Contained(r) && r.numBits > 0 && r.byteSize == n ==> StepRight(g, i, r) {
      assert StepRight(g, i, BitRange(0, n, 8 * n - 1, 1, false));
      assert StepRight(g, i, BitRange(0, n, 0, 1, false));
    }
  }

  // ---------- the inputs at which a followed field is not right ----------

  /** Shifting 1 left by 2^32 + 3 gives 0, but bit 3 is looked for at bit 0 of 1. */
  lemma WideShift()
    ensures Int4(0x1_0000_0003) == 3 && Left(1, 0x1_0000_0003, 4) == 0
    ensures !Agree(Left(1, 0x1_0000_0003, 4), 3, 1, 0, 1)
  {
    LeftBit(1, 0x1_0000_0003, 4, 3);
  }

  /** Dropping one byte of 2^16 gives bit 8, but that is looked for at bit 0. */
  lemma SubpieceOfOneByte()
    ensures !Agree(SubpieceOf(Pow2(16), 1, 2), 8, Pow2(16), 0, 1)
  {
    SubpieceBit(Pow2(16), 1, 2, 8);
    Pow2Bit(16, 16);
    Pow2Bit(16, 0);
  }

  /** Pulling the one bit at position 1 of 2 gives 1, whose own bit at position 1 is not set. */
  lemma PullAtOne()
    ensures ZpullOf(2, 1, 1, 1) == 1 && !Agree(ZpullOf(2, 1, 1, 1), 1, 2, 1, 1)
  {
    ZpullBit(2, 1, 1, 1, 1);
    assert Bit(2, 1);
  }
}
