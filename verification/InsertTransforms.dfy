/** The objects of the backward trace: the state of one field, updated by every handler, and the transform that
    collects the insert records. */
module InsertTransforms {

  import opened Wrappers
  import opened Bits
  import opened BitRanges
  import opened Pcode
  import opened BitFields
  import opened InsertOps
  import opened Traces

  class BitFieldNodeState {
    var bitsUsed: BitRange
    var bitsField: BitRange
    var node: Option<nat>
    const field: Option<Field>
    const origLeastSigBit: nat

    constructor (used: BitRange, vn: nat, range: BitRange, fld: Option<Field>)
      requires range.leastSigBit >= 0
      ensures Now() == Snap(Some(vn), range, used) && field == fld && origLeastSigBit == range.leastSigBit
    {
      bitsUsed, bitsField, node, field, origLeastSigBit := used, range, Some(vn), fld, range.leastSigBit;
    }

    function Now(): Snap
      reads this
    {
      Snap(node, bitsField, bitsUsed)
    }

    predicate IsFieldAligned()
      reads this
    {
      bitsField.leastSigBit == 0 && bitsField.numBits == bitsUsed.numBits
    }
  }

  class BitFieldInsertTransform {
    const graph: Graph
    const bases: set<nat>             // variables read from the storage that is written
    const calls: set<nat>             // calls that return the structure itself
    const store: bool                 // the write is a STORE; otherwise it puts out a mapped variable
    const tied: bool                  // the mapped variable is tied to its address
    var originalValue: Option<nat>
    var insertList: seq<InsertRecord>

    constructor (g: Graph, b: set<nat>, c: set<nat>, toMemory: bool, addrTied: bool)
      ensures graph == g && bases == b && calls == c && store == toMemory && tied == addrTied
      ensures originalValue == None && insertList == []
    {
      graph, bases, calls, store, tied, originalValue, insertList := g, b, c, toMemory, addrTied, None, [];
    }

    /** The out-variable the state stands at, and the state of the field there. */
    ghost predicate Ready(state: BitFieldNodeState, op: nat, code: OpCode, val: seq<nat>, root: nat)
      reads state
    {
      && At(graph, val, state.field, state.Now(), code) && state.node == Some(op) && SmallSizes(graph)
      && StepRight(graph, op, state.bitsField)
      && Carries(val, root, state.origLeastSigBit, state.Now())
    }

    method AddConstantWrite(state: BitFieldNodeState, ghost val: seq<nat>, ghost root: nat) returns (res: bool)
      requires WellFormed(graph) && Valued(graph, val) && Shaped(graph, state.field, state.Now())
      requires graph[state.node.value].def.Constant? && Carries(val, root, state.origLeastSigBit, state.Now())
      modifies state`node, this`insertList
      ensures state.node == None && (res <==> state.field.Some? && state.bitsField.byteSize <= 8)
      ensures if res then |insertList| == |old(insertList)| + 1 && insertList[..|old(insertList)|] == old(insertList)
                && var rec := insertList[|old(insertList)|];
                   RecordRight(root, rec, val) && rec.pos == state.origLeastSigBit &&
                       rec.numBits == state.bitsField.numBits
              else insertList == old(insertList)
    {
      ghost var constant := state.node.value;
      var value := graph[state.node.value].def.offset;
      state.node := None;
      if state.field == None { return false; }
      if state.bitsField.byteSize > 8 { return false; }
      var mask := GetMask(state.bitsField);
      value := And(value, mask);
      value := Shr(value, state.bitsField.leastSigBit);
      if state.field.value.signed {
        value := ExtendSignbit(value, state.bitsField.numBits, state.bitsField.byteSize);
      }
      ConstantKept(root, state.origLeastSigBit, val[constant], state.bitsField, state.field.value.signed);
      var rec := InsertRecord(None, value, state.origLeastSigBit, state.field.value.numBits, 0);
      assert RecordRight(root, rec, val);
      insertList := insertList + [rec];
      return true;
    }

    method AddZeroOut(state: BitFieldNodeState) returns (res: bool)
      modifies state`node, this`insertList
      ensures state.node == None && (res <==> state.field.Some?)
      ensures insertList == old(insertList) + if res then [ZeroRecord(state.origLeastSigBit, state.field.value)] else []
    {
      state.node := None;
      if state.field == None { return false; }
      insertList := insertList + [InsertRecord(None, 0, state.origLeastSigBit, state.field.value.numBits, 0)];
      return true;
    }

    method AddFieldWrite(state: BitFieldNodeState)
      requires state.field.Some? && state.node.Some? && state.bitsField.leastSigBit >= 0
      modifies state`node, this`insertList
      ensures state.node == None
      ensures insertList == old(insertList) + [InsertRecord(old(state.node), 0, state.origLeastSigBit,
                state.field.value.numBits, state.bitsField.leastSigBit)]
    {
      insertList := insertList + [InsertRecord(state.node, 0, state.origLeastSigBit, state.field.value.numBits,
          state.bitsField.leastSigBit)];
      state.node := None;
    }

    /** Added by a handler. */
    ghost predicate Grew(before: seq<InsertRecord>)
      reads this
    {
      |before| <= |insertList| && insertList[..|before|] == before
    }

    method HandleAndBack(state: BitFieldNodeState, op: nat, ghost val: seq<nat>, ghost root: nat)
                         returns (followed: bool)
      requires Ready(state, op, IntAnd, val, root)
      modifies state, this`insertList
      ensures Grew(old(insertList))
      ensures Handled(graph, val, root, state.origLeastSigBit, state.field, old(state.Now()), state.Now(),
                insertList[|old(insertList)|..], followed)
      ensures Follows(graph, state.field, old(state.Now()), state.Now(), followed)
      ensures var c := graph[graph[op].def.ins[1]].def; var mask := GetMask(old(state.bitsField));
        followed <==> c.Constant? && old(state.bitsField.byteSize) <= 8 &&
                      (And(mask, c.offset) == mask || (And(mask, c.offset) == 0 && state.field.Some?))
    {
      ghost var s0 := state.Now();
      var cvn := graph[op].def.ins[1];
      if !graph[cvn].def.Constant? {
        AndFollows(graph, state.field, s0, state.Now(), false);
        return false;
      }
      if state.bitsField.byteSize > 8 {
        AndFollows(graph, state.field, s0, state.Now(), false);
        return false;
      }
      var mask := GetMask(state.bitsField);
      var res := And(mask, graph[cvn].def.offset);
      if res == mask {
        state.node := Some(graph[op].def.ins[0]);
        state.bitsUsed := IntersectMask(state.bitsUsed, graph[cvn].def.offset);
        UsedStaysSized(s0.bitsUsed, graph[cvn].def.offset);
        AndKeeps(s0.bitsField, val[graph[op].def.ins[0]], graph[cvn].def.offset);
        FollowOn(graph, val, root, state.origLeastSigBit, state.field, s0, state.Now());
        AndFollows(graph, state.field, s0, state.Now(), true);
        return true;
      }
      if res == 0 {
        AndClears(s0.bitsField, val[graph[op].def.ins[0]], graph[cvn].def.offset);
        followed := AddZeroOut(state);
        ZeroedOut(graph, val, root, state.origLeastSigBit, state.field, s0, state.Now());
        AndFollows(graph, state.field, s0, state.Now(), followed);
        return;
      }
      AndFollows(graph, state.field, s0, state.Now(), false);
      return false;
    }

    method HandleOrBack(state: BitFieldNodeState, op: nat, ghost val: seq<nat>, ghost root: nat)
                        returns (followed: bool)
      requires Ready(state, op, IntOr, val, root)
      modifies state, this`insertList
      ensures Grew(old(insertList))
      ensures Handled(graph, val, root, state.origLeastSigBit, state.field, old(state.Now()), state.Now(),
                insertList[|old(insertList)|..], followed)
      ensures Follows(graph, state.field, old(state.Now()), state.Now(), followed)
      ensures var in0, in1 := graph[graph[op].def.ins[0]], graph[graph[op].def.ins[1]];
                var mask := GetMask(old(state.bitsField));
        followed <==> old(state.bitsField.byteSize) <= 8 &&
                      (((And(in0.nzm, mask) == 0) != (And(in1.nzm, mask) == 0)) ||
                          (in1.def.Constant? && And(in1.nzm, mask) == mask))
    {
      hide Pow2, Bit, Low, Agree, FieldClear, Disjoint, Follows;
      ghost var s0 := state.Now();
      if state.bitsField.byteSize > 8 {
        OrFollows(graph, state.field, s0, state.Now(), false);
        return false;
      }
      var mask := GetMask(state.bitsField);
      var vn0, vn1 := graph[op].def.ins[0], graph[op].def.ins[1];
      var isMasked0 := And(graph[vn0].nzm, mask) == 0;
      var isMasked1 := And(graph[vn1].nzm, mask) == 0;
      OrKeeps(val[vn0], val[vn1], s0.bitsField);
      if isMasked0 { MaskedClear(val[vn0], graph[vn0].nzm, s0.bitsField); }
      if isMasked1 { MaskedClear(val[vn1], graph[vn1].nzm, s0.bitsField); }
      if isMasked0 == isMasked1 {
        if graph[vn1].def.Constant? {
          if And(graph[vn1].nzm, mask) == mask {
            OrFilled(val[vn0], val[vn1], s0.bitsField);
            state.node := Some(vn1);
            FollowOn(graph, val, root, state.origLeastSigBit, state.field, s0, state.Now());
            OrFollows(graph, state.field, s0, state.Now(), true);
            return true;
          }
        }
        OrFollows(graph, state.field, s0, state.Now(), false);
        return false;
      }
      MaskOfField(s0.bitsField);
      state.node := Some(if isMasked0 then vn1 else vn0);
      FollowOn(graph, val, root, state.origLeastSigBit, state.field, s0, state.Now());
      OrFollows(graph, state.field, s0, state.Now(), true);
      return true;
    }

    method HandleAddBack(state: BitFieldNodeState, op: nat, ghost val: seq<nat>, ghost root: nat)
                         returns (followed: bool)
      requires Ready(state, op, IntAdd, val, root)
      modifies state, this`insertList
      ensures Grew(old(insertList))
      ensures Handled(graph, val, root, state.origLeastSigBit, state.field, old(state.Now()), state.Now(),
                insertList[|old(insertList)|..], followed)
      ensures Follows(graph, state.field, old(state.Now()), state.Now(), followed)
      ensures var mask0, mask1 := graph[graph[op].def.ins[0]].nzm, graph[graph[op].def.ins[1]].nzm;
                var mask := GetMask(old(state.bitsField));
        followed <==>
            old(state.bitsField.byteSize) <= 8 && And(mask0, mask1) == 0 &&
            ((And(mask0, mask) == 0) != (And(mask1, mask) == 0))
    {
      hide Pow2, Bit, Low, Agree, FieldClear, Disjoint, Follows;
      ghost var s0 := state.Now();
      if state.bitsField.byteSize > 8 {
        AddFollows(graph, state.field, s0, state.Now(), false);
        return false;
      }
      var vn0, vn1 := graph[op].def.ins[0], graph[op].def.ins[1];
      var mask0, mask1 := graph[vn0].nzm, graph[vn1].nzm;
      if And(mask0, mask1) != 0 {
        AddFollows(graph, state.field, s0, state.Now(), false);
        return false;
      }
      var mask := GetMask(state.bitsField);
      var isMasked0 := And(mask0, mask) == 0;
      var isMasked1 := And(mask1, mask) == 0;
      if isMasked0 == isMasked1 {
        AddFollows(graph, state.field, s0, state.Now(), false);
        return false;
      }
      AddKeeps(val[vn0], val[vn1], mask0, mask1, s0.bitsField);
      state.node := Some(if isMasked0 then vn1 else vn0);
      FollowOn(graph, val, root, state.origLeastSigBit, state.field, s0, state.Now());
      AddFollows(graph, state.field, s0, state.Now(), true);
      return true;
    }

    method HandleLeftBack(state: BitFieldNodeState, op: nat, ghost val: seq<nat>, ghost root: nat)
                          returns (followed: bool)
      requires Ready(state, op, IntLeft, val, root)
      modifies state, this`insertList
      ensures Grew(old(insertList))
      ensures Handled(graph, val, root, state.origLeastSigBit, state.field, old(state.Now()), state.Now(),
                insertList[|old(insertList)|..], followed)
      ensures Follows(graph, state.field, old(state.Now()), state.Now(), followed)
      ensures var c := graph[graph[op].def.ins[1]].def; var r := old(state.bitsField);
        followed <==> c.Constant? && 0 <= Int4(c.offset) < 64 &&
                      (r.leastSigBit >= Int4(c.offset) ||
                          (r.leastSigBit + r.numBits <= Int4(c.offset) && state.field.Some?))
    {
      hide Pow2, Bit, Low, Left, Sright, PopCount, LeastSet, Agree, MovedUp, FieldClear, Int4, Masked, SubpieceOf,
        Follows;
      ghost var s0 := state.Now();
      var cvn := graph[op].def.ins[1];
      if !graph[cvn].def.Constant? {
        LeftFollows(graph, state.field, s0, state.Now(), false);
        return false;
      }
      var sa := Int4(graph[cvn].def.offset);
      if sa < 0 || sa >= 64 {
        LeftFollows(graph, state.field, s0, state.Now(), false);
        return false;
      }
      var newRange := Shift(state.bitsField, -sa);
      if state.bitsField.numBits == newRange.numBits {
        LeftFollowedRight(state.bitsField, graph[cvn].def.offset);
        state.bitsField := newRange;
        state.bitsUsed := Shift(state.bitsUsed, -sa);
        state.node := Some(graph[op].def.ins[0]);
        FollowOn(graph, val, root, state.origLeastSigBit, state.field, s0, state.Now());
        LeftFollows(graph, state.field, s0, state.Now(), true);
        return true;
      } else if newRange.numBits == 0 {
        LeftClearedRight(val[graph[op].def.ins[0]], graph[cvn].def.offset, state.bitsField);
        followed := AddZeroOut(state);
        ZeroedOut(graph, val, root, state.origLeastSigBit, state.field, s0, state.Now());
        LeftFollows(graph, state.field, s0, state.Now(), followed);
        return;
      }
      LeftFollows(graph, state.field, s0, state.Now(), false);
      return false;
    }

    method HandleRightBack(state: BitFieldNodeState, op: nat, ghost val: seq<nat>, ghost root: nat)
                           returns (followed: bool)
      requires Ready(state, op, IntSright, val, root)
      modifies state, this`insertList
      ensures Grew(old(insertList))
      ensures Handled(graph, val, root, state.origLeastSigBit, state.field, old(state.Now()), state.Now(),
                insertList[|old(insertList)|..], followed)
      ensures Follows(graph, state.field, old(state.Now()), state.Now(), followed)
      ensures var c := graph[graph[op].def.ins[1]].def; var r := old(state.bitsField);
        followed <==>
            c.Constant? && 0 <= Int4(c.offset) < 64 && r.leastSigBit + r.numBits + Int4(c.offset) <= 8 * r.byteSize
    {
      hide Pow2, Bit, Low, Left, Sright, PopCount, LeastSet, Agree, MovedUp, FieldClear, Int4, Masked, SubpieceOf,
        Follows;
      ghost var s0 := state.Now();
      var cvn := graph[op].def.ins[1];
      if !graph[cvn].def.Constant? {
        RightFollows(graph, state.field, s0, state.Now(), false);
        return false;
      }
      var sa := Int4(graph[cvn].def.offset);
      if sa < 0 || sa >= 64 {
        RightFollows(graph, state.field, s0, state.Now(), false);
        return false;
      }
      var newRange := Shift(state.bitsField, sa);
      if state.bitsField.numBits == newRange.numBits {
        SrightAgrees(val[graph[op].def.ins[0]], state.bitsField, graph[cvn].def.offset);
        state.bitsField := newRange;
        state.bitsUsed := Shift(state.bitsUsed, sa);
        state.node := Some(graph[op].def.ins[0]);
        FollowOn(graph, val, root, state.origLeastSigBit, state.field, s0, state.Now());
        RightFollows(graph, state.field, s0, state.Now(), true);
        return true;
      }
      RightFollows(graph, state.field, s0, state.Now(), false);
      return false;
    }

    method HandleZextBack(state: BitFieldNodeState, op: nat, ghost val: seq<nat>, ghost root: nat)
                          returns (followed: bool)
      requires Ready(state, op, IntZext, val, root)
      modifies state, this`insertList
      ensures Grew(old(insertList))
      ensures Handled(graph, val, root, state.origLeastSigBit, state.field, old(state.Now()), state.Now(),
                insertList[|old(insertList)|..], followed)
      ensures Follows(graph, state.field, old(state.Now()), state.Now(), followed)
      ensures var r := old(state.bitsField);
                followed <==> r.leastSigBit + r.numBits <= 8 * graph[graph[op].def.ins[0]].size
    {
      ghost var s0 := state.Now();
      var vn := graph[op].def.ins[0];
      var truncAmount := graph[op].size - graph[vn].size;
      var newRange := TruncateMostSigBytes(state.bitsField, truncAmount);
      if state.bitsField.numBits == newRange.numBits {
        state.bitsField := newRange;
        state.bitsUsed := TruncateMostSigBytes(state.bitsUsed, truncAmount);
        state.node := Some(vn);
        FollowOn(graph, val, root, state.origLeastSigBit, state.field, s0, state.Now());
        ZextFollows(graph, state.field, s0, state.Now(), true);
        return true;
      }
      assert state.bitsField.numBits != 0;     // the field is never recorded as zero here
      ZextFollows(graph, state.field, s0, state.Now(), false);
      return false;
    }

    method HandleMultBack(state: BitFieldNodeState, op: nat, ghost val: seq<nat>, ghost root: nat)
                          returns (followed: bool)
      requires Ready(state, op, IntMult, val, root)
      modifies state, this`insertList
      ensures Grew(old(insertList))
      ensures Handled(graph, val, root, state.origLeastSigBit, state.field, old(state.Now()), state.Now(),
                insertList[|old(insertList)|..], followed)
      ensures Follows(graph, state.field, old(state.Now()), state.Now(), followed)
      ensures var c := graph[graph[op].def.ins[1]].def; var r := old(state.bitsField);
        followed <==> c.Constant? && c.offset > 0 && PopCount(c.offset) == 1 && r.leastSigBit >= LeastSet(c.offset)
    {
      hide Pow2, Bit, Low, Left, Sright, PopCount, LeastSet, Agree, MovedUp, FieldClear, Int4, Masked, SubpieceOf,
        Follows;
      ghost var s0 := state.Now();
      var vn1 := graph[op].def.ins[1];
      if !graph[vn1].def.Constant? {
        MultFollows(graph, state.field, s0, state.Now(), false);
        return false;
      }
      var c := graph[vn1].def.offset;
      if PopCount(c) != 1 {
        MultFollows(graph, state.field, s0, state.Now(), false);
        return false;
      }
      MultMovesUp(val[graph[op].def.ins[0]], c, graph[op].size);
      var sa: int := LeastSet(c);
      var newRange := Shift(state.bitsField, -sa);
      MovedUpKeeps(val[op], val[graph[op].def.ins[0]], sa, s0.bitsField);
      if state.bitsField.numBits == newRange.numBits {
        state.bitsField := newRange;
        state.bitsUsed := Shift(state.bitsUsed, -sa);
        state.node := Some(graph[op].def.ins[0]);
        FollowOn(graph, val, root, state.origLeastSigBit, state.field, s0, state.Now());
        MultFollows(graph, state.field, s0, state.Now(), true);
        return true;
      }
      assert state.bitsField.numBits != 0;     // the field is never recorded as zero here
      MultFollows(graph, state.field, s0, state.Now(), false);
      return false;
    }

    method HandleSubpieceBack(state: BitFieldNodeState, op: nat, ghost val: seq<nat>, ghost root: nat)
                              returns (followed: bool)
      requires Ready(state, op, Subpiece, val, root)
      modifies state, this`insertList
      ensures Grew(old(insertList))
      ensures Handled(graph, val, root, state.origLeastSigBit, state.field, old(state.Now()), state.Now(),
                insertList[|old(insertList)|..], followed)
      ensures Follows(graph, state.field, old(state.Now()), state.Now(), followed)
      ensures followed <==> old(state.bitsField.leastSigBit) >= 8 * graph[graph[op].def.ins[1]].def.offset
    {
      hide Pow2, Bit, Low, Left, Sright, PopCount, LeastSet, Agree, MovedUp, FieldClear, Int4, Masked, SubpieceOf,
        Follows;
      ghost var s0 := state.Now();
      var inVn := graph[op].def.ins[0];
      var extendAmount := graph[inVn].size - graph[op].size;
      NarrowIsKept(graph[graph[op].def.ins[1]].def.offset);
      var sa := Int4(graph[graph[op].def.ins[1]].def.offset) * 8;
      var newRange := Shift(ExtendBytes(state.bitsField, extendAmount), -sa);
      if state.bitsField.numBits == newRange.numBits {
        SubpieceKeeps(val[inVn], s0.bitsField);
        state.bitsField := newRange;
        state.bitsUsed := Shift(ExtendBytes(state.bitsUsed, extendAmount), -sa);
        state.node := Some(inVn);
        FollowOn(graph, val, root, state.origLeastSigBit, state.field, s0, state.Now());
        SubpieceFollows(graph, state.field, s0, state.Now(), true);
        return true;
      }
      SubpieceFollows(graph, state.field, s0, state.Now(), false);
      return false;
    }

    // ---------- the original value ----------

    /** All variables that hold the structure before the write have the value o. */
    ghost predicate Originals(val: seq<nat>, o: nat)
      reads this`originalValue
    {
      && (forall b :: b in bases || (b in calls && !store && !tied) ==> b < |val| ==> val[b] == o)
      && (originalValue.Some? ==>
            originalValue.value in bases || (originalValue.value in calls && !store && !tied))
    }

    method CheckOriginalBase(vn: nat) returns (res: bool)
      modifies this`originalValue
      ensures res <==> vn in bases
      ensures originalValue == if res then Some(vn) else old(originalValue)
    {
      if vn !in bases { return false; }
      originalValue := Some(vn);
      return true;
    }

    /** The state stands at a pull of the same field from the original value. */
    method CheckPulledOriginalValue(state: BitFieldNodeState) returns (res: bool)
      requires WellFormed(graph) && Shaped(graph, state.field, state.Now())
      modifies this`originalValue
      ensures res <==> Pulls(graph, bases, state.node.value, state.bitsField.leastSigBit, state.bitsField.numBits)
      ensures originalValue == if res then Some(graph[state.node.value].def.ins[0]) else old(originalValue)
    {
      var vn := state.node.value;
      if !graph[vn].def.Written? { return false; }
      if graph[vn].def.code != Zpull && graph[vn].def.code != Spull { return false; }
      var pos := Int4(graph[graph[vn].def.ins[1]].def.offset);
      var numbits := Int4(graph[graph[vn].def.ins[2]].def.offset);
      if pos != state.bitsField.leastSigBit { return false; }
      if numbits != state.bitsField.numBits { return false; }
      res := CheckOriginalBase(graph[vn].def.ins[0]);
    }

    method IsOriginalValue(state: BitFieldNodeState, ghost val: seq<nat>, ghost root: nat, ghost o: nat)
                           returns (res: bool)
      requires WellFormed(graph) && Valued(graph, val) && Shaped(graph, state.field, state.Now()) && Originals(val, o)
      requires Carries(val, root, state.origLeastSigBit, state.Now()) && 8 * graph[state.node.value].size < 0x8000_0000
      requires !Misread(graph, bases, state.origLeastSigBit, state.bitsField.numBits)
      modifies this`originalValue
      ensures Originals(val, o) && (res ==> originalValue.Some?)
      ensures var vn, pos, n := state.node.value, state.bitsField.leastSigBit, state.bitsField.numBits;
        && (res <==> AtOriginal(graph, bases, old(originalValue), state.origLeastSigBit, vn, pos, n))
        && originalValue == if !res || old(originalValue) == Some(vn) then old(originalValue)
           else if Pulls(graph, bases, vn, pos, n) then Some(graph[vn].def.ins[0])
           else Some(vn)
      ensures res ==>
                state.bitsField.leastSigBit == state.origLeastSigBit &&
                Agree(root, state.origLeastSigBit, o, state.origLeastSigBit, state.bitsField.numBits)
    {
      if state.bitsField.leastSigBit != state.origLeastSigBit { return false; }
      if state.node == originalValue { return true; }
      var pulled := CheckPulledOriginalValue(state);
      if pulled {
        PulledInPlace(graph, val, bases, root, state.Now(), o);
        return true;
      }
      res := CheckOriginalBase(state.node.value);
    }

    /** A call that returns the structure stands for the original value; never, in fact, since a variable that is not
        tied to its address has no fields to follow. */
    method TestCallOriginal(state: BitFieldNodeState, op: nat) returns (res: bool)
      modifies this`originalValue
      ensures res <==> op in calls && !store && !tied && old(originalValue) == None &&
                       state.bitsField.leastSigBit == state.origLeastSigBit
      ensures originalValue == if res then Some(op) else old(originalValue)
    {
      if op !in calls { return false; }
      if store { return false; }
      if state.bitsField.leastSigBit != state.origLeastSigBit { return false; }
      if tied { return false; }
      if originalValue != None { return false; }
      originalValue := Some(op);
      return true;
    }

    // ---------- following one field ----------

    method Dispatch(state: BitFieldNodeState, op: nat, ghost val: seq<nat>, ghost root: nat) returns (liftRes: bool)
      requires WellFormed(graph) && Valued(graph, val) && Shaped(graph, state.field, state.Now()) &&
                 state.node == Some(op)
      requires graph[op].def.Written? && SmallSizes(graph) && StepRight(graph, op, state.bitsField)
      requires Carries(val, root, state.origLeastSigBit, state.Now())
      modifies state, this`insertList
      ensures Grew(old(insertList))
      ensures Handled(graph, val, root, state.origLeastSigBit, state.field, old(state.Now()), state.Now(),
                insertList[|old(insertList)|..], liftRes)
      ensures Follows(graph, state.field, old(state.Now()), state.Now(), liftRes)
    {
      hide Valued, Follows;
      ghost var s0 := state.Now();
      Defined(graph, val, op);
      match graph[op].def.code
      case Copy =>
        state.node := Some(graph[op].def.ins[0]);
        FollowOn(graph, val, root, state.origLeastSigBit, state.field, s0, state.Now());
        CopyFollows(graph, state.field, s0);
        liftRes := true;
      case IntAdd => liftRes := HandleAddBack(state, op, val, root);
      case IntAnd => liftRes := HandleAndBack(state, op, val, root);
      case IntLeft => liftRes := HandleLeftBack(state, op, val, root);
      case IntZext => liftRes := HandleZextBack(state, op, val, root);
      case IntOr => liftRes := HandleOrBack(state, op, val, root);
      case IntMult => liftRes := HandleMultBack(state, op, val, root);
      case Subpiece => liftRes := HandleSubpieceBack(state, op, val, root);
      case IntSright => liftRes := HandleRightBack(state, op, val, root);
      case _ =>
        OtherFollows(graph, state.field, s0);
        liftRes := false;
    }

    /** What tracing one field may conclude: a record with the root's bits, or that the bits are the original ones. */
    ghost predicate Traced(before: seq<InsertRecord>, val: seq<nat>, root: nat, at: nat, n: nat, o: nat,
                           field: Option<Field>)
      reads this
    {
      || (insertList == before && originalValue.Some? && Agree(root, at, o, at, n))
      || (field.Some? && |insertList| == |before| + 1 && insertList[..|before|] == before
          && var rec := insertList[|before|]; RecordRight(root, rec, val) && rec.pos == at && rec.numBits == n)
    }

    /** Where a trace can end at the original value. */
    ghost function From(): Sources {
      Sources(bases, if store || tied then {} else calls)
    }

    /** The trace stands at a constant, at the original value or a variable that holds the field alone, or cannot go on:
        then it is done. */
    method Arrived(state: BitFieldNodeState, ghost val: seq<nat>, ghost root: nat, ghost o: nat)
                   returns (done: bool, res: bool)
      requires WellFormed(graph) && Valued(graph, val) && Shaped(graph, state.field, state.Now()) && Originals(val, o)
      requires Carries(val, root, state.origLeastSigBit, state.Now()) && 8 * graph[state.node.value].size < 0x8000_0000
      requires !Misread(graph, bases, state.origLeastSigBit, state.bitsField.numBits)
      modifies state`node, this`insertList, this`originalValue
      ensures Originals(val, o) && (old(originalValue).Some? ==> originalValue.Some?) && (res ==> done)
      ensures res ==>
                Traced(old(insertList), val, root, state.origLeastSigBit, old(state.bitsField.numBits), o, state.field)
      ensures !res ==> insertList == old(insertList)
      ensures done ==> Concluded(graph, From(), old(originalValue), state.origLeastSigBit, state.field,
                old(state.Now()), res, originalValue, |insertList| > |old(insertList)|, state.bitsField.byteSize)
      ensures !done ==> state.Now() == old(state.Now()) && originalValue == old(originalValue)
      ensures !done ==> AtOperator(graph, From(), originalValue, state.origLeastSigBit, state.field, state.Now())
    {
      hide Agree, Valued, Misread, Concluded, InUse, TraceOf, Pulls;
      ValuesFit(graph, val);
      ghost var at, field, s0, found, from := state.origLeastSigBit, state.field, state.Now(), originalValue, From();
      var vn := state.node.value;
      if graph[vn].def.Constant? {
        res := AddConstantWrite(state, val, root);
        ConstantConcluded(graph, from, found, at, field, s0, res);
        return true, res;
      }
      var original := IsOriginalValue(state, val, root, o);
      if original {
        OriginalConcluded(graph, from, found, at, field, s0, originalValue);
        state.node := None;
        return true, true;
      }
      if state.field != None {
        if state.IsFieldAligned() {
          AlignedConcluded(graph, from, found, at, field, s0);
          AddFieldWrite(state);
          return true, true;
        }
      }
      if !graph[vn].def.Written? {
        UnwrittenConcluded(graph, from, found, at, field, s0);
        return true, false;
      }
      if vn in calls {
        var called := TestCallOriginal(state, vn);
        if called {
          CallConcluded(graph, from, found, at, field, s0);
          state.node := None;
          return true, true;
        }
      }
      return false, false;
    }

    method ProcessBackward(state: BitFieldNodeState, ghost val: seq<nat>, ghost root: nat, ghost o: nat)
                           returns (res: bool)
      requires WellFormed(graph) && Valued(graph, val) && Shaped(graph, state.field, state.Now()) &&
                 Originals(val, o) && Supported(graph)
      requires Carries(val, root, state.origLeastSigBit, state.Now()) && SmallSizes(graph)
      requires !Misread(graph, bases, state.origLeastSigBit, state.bitsField.numBits)
      modifies state, this`insertList, this`originalValue
      ensures Originals(val, o) && (old(originalValue).Some? ==> originalValue.Some?)
      ensures res ==>
                Traced(old(insertList), val, root, state.origLeastSigBit, old(state.bitsField.numBits), o, state.field)
      ensures !res ==> insertList == old(insertList)
      ensures Concluded(graph, From(), old(originalValue), state.origLeastSigBit, state.field, old(state.Now()), res,
                originalValue, |insertList| > |old(insertList)|, state.bitsField.byteSize)
    {
      hide Agree, Valued, Supported, Misread, GetMask, And, TraceOf, Follows, NoneBeside, Concluded, GoesOn, InUse,
        AtOperator;
      ValuesFit(graph, val);
      ghost var n, before, at, field := state.bitsField.numBits, insertList, state.origLeastSigBit, state.field;
      ghost var s, found, from := state.Now(), originalValue, From();
      GoesOnSame(graph, from, found, at, field, s);
      while state.node != None
        invariant Originals(val, o) && originalValue == found
        invariant if state.node.Some? then
                    Shaped(graph, state.field, state.Now()) && state.bitsField.numBits == n &&
                        Carries(val, root, state.origLeastSigBit, state.Now()) && insertList == before
                  else Traced(before, val, root, state.origLeastSigBit, n, o, state.field) && |insertList| > |before|
        invariant if state.node.Some? then GoesOn(graph, from, found, at, field, s, state.Now())
                  else Concluded(graph, from, found, at, field, s, true, found, true, state.bitsField.byteSize)
        decreases if state.node.Some? then state.node.value + 1 else 0
      {
        var vn := state.node.value;
        ghost var s0 := state.Now();
        var done;
        done, res := Arrived(state, val, root, o);
        if done {
          ThenConcluded(graph, from, found, at, field, s, s0, res, originalValue, |insertList| > |before|,
            state.bitsField.byteSize);
          return;
        }
        AtWritten(graph, from, found, at, field, s0);
        AllSupported(graph, vn, state.bitsField);
        var liftRes := Dispatch(state, vn, val, root);
        StepConcluded(graph, from, found, at, field, s0, state.Now(), liftRes);
        if !liftRes {
          res := GiveUp(state, val, root);
          if field.Some? { LastResortConcluded(graph, from, found, at, field, s0, res); }
          ThenConcluded(graph, from, found, at, field, s, s0, res, found, res, state.bitsField.byteSize);
          return;
        }
        if state.node.Some? {
          ThenGoesOn(graph, from, found, at, field, s, s0, state.Now());
        } else {
          ThenConcluded(graph, from, found, at, field, s, s0, true, found, true, state.bitsField.byteSize);
        }
      }
      return true;
    }

    /** The last resort: the field is known to be zero, or to hold all the bits that can be non-zero. */
    method GiveUp(state: BitFieldNodeState, ghost val: seq<nat>, ghost root: nat) returns (res: bool)
      requires WellFormed(graph) && Valued(graph, val)
      requires (state.node.None? && state.field.None?) ||
                 (Shaped(graph, state.field, state.Now()) && Carries(val, root, state.origLeastSigBit, state.Now()))
      modifies state, this`insertList
      ensures !res ==> insertList == old(insertList)
      ensures res ==>
                state.field.Some? && |insertList| == |old(insertList)| + 1 &&
                insertList[..|old(insertList)|] == old(insertList)
      ensures res ==> var rec := insertList[|old(insertList)|];
                RecordRight(root, rec, val) && rec.pos == state.origLeastSigBit &&
                    rec.numBits == state.field.value.numBits
      ensures (res ==> state.field.Some? && old(state.bitsField.byteSize) <= 8) &&
                state.bitsField == old(state.bitsField)
      ensures state.field.Some? && old(state.bitsField.byteSize) <= 8 && old(InUse(state.Now())) ==>
                var s := old(state.Now());
                res <==> NoneBeside(graph, s.bitsField.numBits, PlaceOf(graph, state.field, s))
    {
      if state.field == None { return false; }
      if state.bitsField.byteSize > 8 { return false; }
      var vn := state.node.value;
      if InUse(state.Now()) { WidthsTell(graph, state.field, state.Now()); }
      var nonZeroBits := IntersectMask(state.bitsField, graph[vn].nzm);
      if nonZeroBits.numBits == 0 {
        AllMasked(val[vn], graph[vn].nzm, state.bitsField);
        AgreeClear(root, state.origLeastSigBit, val[vn], state.bitsField);
        res := AddZeroOut(state);
        return;
      }
      UsedStaysSized(state.bitsUsed, graph[vn].nzm);
      state.bitsUsed := IntersectMask(state.bitsUsed, graph[vn].nzm);
      if nonZeroBits.numBits == state.bitsUsed.numBits {
        AddFieldWrite(state);
        return true;
      }
      return false;
    }

    // ---------- all fields ----------

    /** A state at the start of its trace. */
    ghost predicate Initial(state: BitFieldNodeState, vn: nat)
      reads state
    {
      Shaped(graph, state.field, state.Now()) && state.node == Some(vn) && InUse(state.Now()) &&
          state.bitsField.leastSigBit == state.origLeastSigBit
    }

    /** The traces to be done. */
    ghost function Starts(workList: seq<BitFieldNodeState>, vn: nat): (starts: seq<Start>)
      requires forall k :: 0 <= k < |workList| ==> Initial(workList[k], vn)
      reads workList
      ensures |starts| == |workList| && forall k :: 0 <= k < |starts| ==> StartFits(graph, starts[k])
    {
      seq(|workList|, k requires 0 <= k < |workList| && Initial(workList[k], vn) reads workList =>
        Start(workList[k].field, workList[k].bitsField.numBits,
          PlaceOf(graph, workList[k].field, workList[k].Now())))
    }

    lemma StartsBegin(workList: seq<BitFieldNodeState>, vn: nat, overwritten: seq<bool>)
      requires WellFormed(graph) && |overwritten| == |workList| && forall k :: 0 <= k < |workList| ==>
                 Initial(workList[k], vn)
      ensures StartsFit(graph, Starts(workList, vn), MayGo(overwritten))
      ensures forall k :: 0 <= k < |workList| ==>
                Starts(workList, vn)[k].field == workList[k].field &&
                StartsIn(graph, Starts(workList, vn)[k], workList[k].Now())
      ensures forall k :: 0 <= k < |workList| ==>
                Contained(workList[k].bitsField) && vn < |graph| && EndOf(workList[k].bitsField) <= 8 * graph[vn].size
      ensures |RangesOfStates(workList)| == |workList| == |MayGo(overwritten)|
      ensures forall k :: 0 <= k < |workList| ==>
                RangesOfStates(workList)[k] == workList[k].bitsField &&
                MayGo(overwritten)[k] == (!store && overwritten[k])
    {
      hide Shaped, InUse;
      forall k | 0 <= k < |workList| ensures StartsIn(graph, Starts(workList, vn)[k], workList[k].Now()) {
        assert Initial(workList[k], vn);
      }
      forall k | 0 <= k < |workList|
        ensures Contained(workList[k].bitsField) && vn < |graph| && EndOf(workList[k].bitsField) <= 8 * graph[vn].size
      {
        InitialInside(workList[k], vn);
      }
    }

    lemma InitialInside(state: BitFieldNodeState, vn: nat)
      requires Initial(state, vn)
      ensures var r := state.bitsField; Contained(r) && vn < |graph| && EndOf(r) <= 8 * graph[vn].size
    {
    }

    /** Holes of a mapped variable that are overwritten later may go. */
    ghost function MayGo(overwritten: seq<bool>): seq<bool> {
      seq(|overwritten|, k requires 0 <= k < |overwritten| => !store && overwritten[k])
    }

    ghost predicate AllRight(root: nat, val: seq<nat>, size: nat)
      reads this
    {
      forall k :: 0 <= k < |insertList| ==>
          RecordRight(root, insertList[k], val) && insertList[k].pos + insertList[k].numBits <= 8 * size
    }

    /** Traces every field. overwritten tells which of the holes are overwritten later in any case; verified is the
        check that nothing else writes the original bits. */
    method DoTrace(workList: seq<BitFieldNodeState>, vn: nat, overwritten: seq<bool>, verified: bool,
                   ghost val: seq<nat>, ghost o: nat)
      returns (res: bool)
      requires WellFormed(graph) && Valued(graph, val) && vn < |graph| && Supported(graph) && SmallSizes(graph) &&
                 Originals(val, o)
      requires |overwritten| == |workList| && insertList == []
      requires forall k :: 0 <= k < |workList| ==>
                 Initial(workList[k], vn) && !Misread(graph, bases, workList[k].origLeastSigBit,
                 workList[k].bitsField.numBits)
      requires forall k, l :: 0 <= k < l < |workList| ==> workList[k] != workList[l]
      requires forall k, l :: 0 <= k < l < |workList| ==> EndOf(workList[k].bitsField) <= workList[l].origLeastSigBit
      modifies workList, this`insertList, this`originalValue
      ensures Originals(val, o) && (res ==> AllRight(val[vn], val, graph[vn].size))
      ensures res ==> insertList != [] && Ascending(insertList)
      ensures res ==> forall k :: 0 <= k < |workList| ==>
                FieldKnown(old(workList[k].bitsField), insertList, originalValue, val[vn], o) ||
                    (workList[k].field.None? && !store && overwritten[k])
      ensures res <==> verified &&
                       AllTraced(graph, From(), old(originalValue), old(Starts(workList, vn)), MayGo(overwritten))
    {
      hide FieldKnown, Valued, Agree, Supported, Misread, SmallSizes, RecordRight, TracedUpTo, AllTraced, Concluded,
        InUse, Shaped, StartsIn, StartsFit, RightUpTo, Ascending, Starts, MayGo, RangesOfStates, WellFormed, From,
        GetMask, And;
      ValuesFit(graph, val);
      ghost var starts, from, found, mayGo := Starts(workList, vn), From(), originalValue, MayGo(overwritten);
      ghost var ranges, root, size := RangesOfStates(workList), val[vn], graph[vn].size;
      StartsBegin(workList, vn, overwritten);
      NoneTraced(graph, from, found, starts, mayGo);
      NoneRight(ranges, starts, mayGo, originalValue, val, root, o, size);
      if |workList| == 0 {
        AllTracedAre(graph, from, found, starts, mayGo, originalValue, false);
        return false;
      }
      var next := 0;
      while next < |workList|
        invariant 0 <= next <= |workList| && Originals(val, o)
        invariant forall k :: next <= k < |workList| ==> workList[k].Now() == old(workList[k].Now())
        invariant RightUpTo(ranges, starts, mayGo, next, insertList, originalValue, val, root, o, size)
        invariant TracedUpTo(graph, from, found, starts, mayGo, next, originalValue, insertList != [])
      {
        var state := workList[next];
        ghost var s, before, orig := state.Now(), insertList, originalValue;
        InitialCarries(state, vn, val);
        var done := ProcessBackward(state, val, root, o);
        OneMoreTraced(graph, from, found, starts, mayGo, next, s, orig, before != [], done, originalValue,
            |insertList| > |before|, state.bitsField.byteSize);
        if !done {
          // a hole of a mapped variable may be overwritten later
          if state.field != None || state.bitsField.byteSize > 8 || store || !overwritten[next] { return false; }
        }
        OneMoreRight(ranges, starts, mayGo, next, before, insertList, orig, originalValue, val, root, o, size, done);
        next := next + 1;
      }
      RightAtEnd(ranges, starts, mayGo, insertList, originalValue, val, root, o, size);
      AllTracedAre(graph, from, found, starts, mayGo, originalValue, insertList != []);
      if insertList == [] { return false; }
      return verified;
    }

    lemma InitialCarries(state: BitFieldNodeState, vn: nat, val: seq<nat>)
      requires Initial(state, vn) && WellFormed(graph) && Valued(graph, val)
      ensures Carries(val, val[vn], state.origLeastSigBit, state.Now())
    {
    }

    /** One state for every field contained in the variable, and one for every hole between them. */
    method EstablishFields(vn: nat, bitrange: BitRange, overlap: seq<(BitRange, Field)>)
      returns (workList: seq<BitFieldNodeState>, ghost ranges: seq<BitRange>)
      requires vn < |graph| && graph[vn].size > 0 && Whole(bitrange, graph[vn].size) && FieldsInOrder(bitrange, overlap)
      ensures fresh(workList) && forall k :: 0 <= k < |workList| ==> Initial(workList[k], vn)
      ensures Following(workList, ranges) && Covering(ranges, 8 * graph[vn].size) &&
                ranges == TracedRanges(bitrange, overlap)
      ensures Named(workList, TracedNames(bitrange, overlap), bitrange)
    {
      hide FieldsInOrder, OverlapTest, TranslateLSB, Covering, MoveTo, Initial, Following, Named, RangesUpTo, NamesUpTo,
        TracedRanges, TracedNames, RangesOf, NamesOf, PosAfter;
      BegunNone();
      NoneTracedYet(bitrange, overlap);
      var vnBitSize := graph[vn].size * 8;
      workList, ranges := [], [];
      CoverNothing();
      var pos := 0;
      var i := 0;
      while i < |overlap|
        invariant 0 <= i <= |overlap| && 0 <= pos <= vnBitSize && pos == PosAfter(bitrange, overlap, i)
        invariant fresh(workList) && forall k :: 0 <= k < |workList| ==> Initial(workList[k], vn)
        invariant Following(workList, ranges) && Covering(ranges, pos) && ranges == RangesUpTo(bitrange, overlap, i)
        invariant Named(workList, NamesUpTo(bitrange, overlap, i), bitrange)
      {
        TracedNext(bitrange, overlap, i);
        ghost var before := workList;
        workList, ranges, pos := EstablishField(workList, ranges, NamesUpTo(bitrange, overlap, i), vn, bitrange,
            overlap, i, pos);
        assert workList == before + workList[|before|..];
        i := i + 1;
      }
      TracedAre(bitrange, overlap);
      if pos < vnBitSize {
        workList, ranges := AddState(workList, ranges, NamesUpTo(bitrange, overlap, i), vn, bitrange,
            bitrange.(leastSigBit := pos, numBits := vnBitSize - pos),
          None, pos, vnBitSize);
      }
    }

    /** The hole before a field, if there is one, and the field, or what of it lies in the variable. */
    method EstablishField(before: seq<BitFieldNodeState>, ghost ranges0: seq<BitRange>,
                          ghost names0: seq<Option<Field>>, vn: nat, bitrange: BitRange,
                          overlap: seq<(BitRange, Field)>, i: nat, pos0: int)
      returns (workList: seq<BitFieldNodeState>, ghost ranges: seq<BitRange>, pos: int)
      requires vn < |graph| && graph[vn].size > 0 && Whole(bitrange, graph[vn].size) &&
                 FieldsInOrder(bitrange, overlap) && i < |overlap|
      requires 0 <= pos0 <= 8 * graph[vn].size && pos0 == PosAfter(bitrange, overlap, i)
      requires forall k :: 0 <= k < |before| ==> Initial(before[k], vn)
      requires Following(before, ranges0) && Covering(ranges0, pos0) && Named(before, names0, bitrange)
      ensures Named(workList, names0 + NamesOf(bitrange, overlap, i), bitrange)
      ensures |workList| >= |before| && workList[..|before|] == before && fresh(workList[|before|..])
      ensures forall k :: 0 <= k < |workList| ==> Initial(workList[k], vn)
      ensures 0 <= pos <= 8 * graph[vn].size && pos == PosAfter(bitrange, overlap, i + 1)
      ensures Following(workList, ranges) && Covering(ranges, pos) && ranges == ranges0 + RangesOf(bitrange, overlap, i)
    {
      hide FieldsInOrder, OverlapTest, TranslateLSB, Covering, MoveTo, Initial, Shaped, Following, Named, RangesOf,
        NamesOf;
      var vnBitSize := graph[vn].size * 8;
      workList, ranges, pos := before, ranges0, pos0;
      ghost var names := names0;
      var (bits, field) := overlap[i];
      var fieldPos := TranslateLSB(bitrange, bits);
      var fieldEnd := fieldPos + bits.numBits;
      if fieldPos > vnBitSize { fieldPos := vnBitSize; }
      if fieldEnd > vnBitSize { fieldEnd := vnBitSize; }
      FieldOverlaps(bitrange, overlap, i, vnBitSize);
      if fieldPos > pos {
        workList, ranges := AddState(workList, ranges, names, vn, bitrange,
            bitrange.(leastSigBit := pos, numBits := fieldPos - pos), None, pos, fieldPos);
        names := names + [None];
        pos := fieldPos;
      }
      var code := OverlapTest(bitrange, bits);
      if code == 0 || code == 3 {
        workList, ranges := AddState(workList, ranges, names, vn, bitrange,
            MoveTo(bits, bitrange.byteOffset, bitrange.byteSize), Some(field), pos, fieldEnd);
      } else {
        workList, ranges := AddState(workList, ranges, names, vn, bitrange,
            bitrange.(leastSigBit := pos, numBits := fieldEnd - pos), None, pos, fieldEnd);
      }
      names := names + [if code == 0 || code == 3 then Some(field) else None];
      FieldTraced(bitrange, overlap, i, ranges0, names0, ranges, names);
      pos := fieldEnd;
    }

    method AddState(workList: seq<BitFieldNodeState>, ghost ranges: seq<BitRange>, ghost names: seq<Option<Field>>,
                    vn: nat, used: BitRange, range: BitRange, field: Option<Field>, ghost pos: nat, ghost end: nat)
      returns (longer: seq<BitFieldNodeState>, ghost more: seq<BitRange>)
      requires vn < |graph| && Whole(used, graph[vn].size) && Contained(range) && range.byteSize == graph[vn].size &&
                 range.leastSigBit == pos && range.leastSigBit + range.numBits == end
      requires pos < end && (field.Some? ==> range.numBits == field.value.numBits)
      requires (forall k :: 0 <= k < |workList| ==> Initial(workList[k], vn)) && Following(workList, ranges) &&
                 Covering(ranges, pos) && Named(workList, names, used)
      ensures Named(longer, names + [field], used)
      ensures |longer| == |workList| + 1 && longer[..|workList|] == workList && fresh(longer[|workList|]) &&
                more == ranges + [range]
      ensures (forall k :: 0 <= k < |longer| ==> Initial(longer[k], vn)) && Following(longer, more) &&
                Covering(more, end)
    {
      var state := new BitFieldNodeState(used, vn, range, field);
      longer, more := workList + [state], ranges + [range];
      CoverMore(ranges, range, pos, end);
    }

    /** The states start the traces of the fields and holes. */
    lemma StartsAre(workList: seq<BitFieldNodeState>, vn: nat, bitrange: BitRange, overlap: seq<(BitRange, Field)>)
      requires vn < |graph| && graph[vn].size > 0 && Whole(bitrange, graph[vn].size) && FieldsInOrder(bitrange, overlap)
      requires forall k :: 0 <= k < |workList| ==> Initial(workList[k], vn)
      requires Following(workList, TracedRanges(bitrange, overlap))
      requires Named(workList, TracedNames(bitrange, overlap), bitrange)
      ensures Starts(workList, vn) == TracedStarts(graph, vn, bitrange, overlap)
    {
    }

    // ---------- putting the operators in place ----------

    /** apply for a STORE: the STORE itself gets the INSERT of the first record. Every further record gets its own
        STORE, put right behind that one, and its own LOAD before it, if the original value was loaded. */
    method ApplyStore() returns (ops: seq<Operator>)
      requires insertList != []
      ensures ops == StoreOps(insertList, originalValue.Some?)
    {
      hide Group, Groups;
      ops := [Store(Root)];
      var finalWrite, currentStore := 0, Some(0);
      var loadModel := originalValue.Some?;
      var original := if loadModel then Original else Zero;
      var k := 0;
      while k < |insertList|
        invariant 0 <= k <= |insertList| && ops == StoreOps(insertList[..k], loadModel)
        invariant if k == 0 then finalWrite == 0 && currentStore == Some(0) else finalWrite == 1 && currentStore == None
        invariant !loadModel ==> original == Zero
        invariant k == 0 && loadModel ==> original == Original
      {
        var rec := insertList[k];
        ghost var before := ops;
        if currentStore == None {
          currentStore := Some(finalWrite + 1);
          ops := Put(ops, currentStore.value, Store(Unset));
          if loadModel {
            ops := Put(ops, currentStore.value, Load(2 * k));
            currentStore := Some(currentStore.value + 1);
            original := Out(2 * k);
          }
        }
        ops := ops[currentStore.value := Store(Out(2 * k + 1))];
        ops := Put(ops, currentStore.value, Insertion(2 * k + 1, original, rec));
        if currentStore.value <= finalWrite { finalWrite := finalWrite + 1; }
        currentStore := None;
        OneGroup(insertList, loadModel);
        if k > 0 {
          OneMoreGroup(insertList, k, loadModel);
          PutGroup(before, rec, k, loadModel);
        }
        k := k + 1;
      }
      assert insertList[..k] == insertList;
    }

    /** apply for a mapped variable: the operator that puts it out becomes the INSERT of the first record. Every further
        record gets an INSERT before the last one made, which takes the new one in place of the original value. */
    method ApplyMapped() returns (ops: seq<Operator>)
      requires insertList != []
      ensures ops == Links(insertList, if originalValue.Some? then Original else Zero)
    {
      var original := if originalValue.Some? then Original else Zero;
      ops := [Insertion(0, original, insertList[0])];
      var k := 1;
      assert insertList[..1] == [insertList[0]];
      while k < |insertList|
        invariant 1 <= k <= |insertList| && ops == Links(insertList[..k], original)
      {
        Rebased(insertList[..k], original, Out(k));
        ops := ops[0 := ops[0].(base := Unset)];
        var insertOp := Insertion(k, original, insertList[k]);
        ops := ops[0 := ops[0].(base := Out(k))];
        ops := Put(ops, 0, insertOp);
        assert insertList[..k + 1][..k] == insertList[..k];
        k := k + 1;
      }
      assert insertList[..k] == insertList;
    }

    /** A STORE of a value with bit-fields. If all of it can be traced, and some of it to a LOAD of the old value, the
        operators leave the value in memory; without such a LOAD, exactly when all records but one write zero. */
    method RecoverStore(vn: nat, bitrange: BitRange, overlap: seq<(BitRange, Field)>, overwritten: bool, verified: bool,
                        ghost val: seq<nat>, ghost o: nat) returns (res: bool, ops: seq<Operator>)
      requires WellFormed(graph) && Valued(graph, val) && vn < |graph| && Supported(graph) && SmallSizes(graph)
      requires Originals(val, o) && o < Pow2(8 * graph[vn].size) && insertList == [] && store
      requires Whole(bitrange, graph[vn].size) && FieldsInOrder(bitrange, overlap)
      requires forall k :: 0 <= k < |TracedRanges(bitrange, overlap)| ==>
        var r := TracedRanges(bitrange, overlap)[k]; !Misread(graph, bases, r.leastSigBit, r.numBits)
      modifies this`insertList, this`originalValue
      ensures res <==> verified && AllTraced(graph, From(), old(originalValue),
                TracedStarts(graph, vn, bitrange, overlap), NothingMayGo(bitrange, overlap))
      ensures res ==> insertList != [] && InsertAll(if originalValue.Some? then o else 0, insertList, val) == val[vn]
      ensures res ==> forall m: Machine ::
        var mem := Run(ops, m, Given(val[vn], o, val)).mem;
        if originalValue.Some? then mem == val[vn]
        else mem == val[vn] <==> forall k :: 0 <= k < |insertList| && k != LastStored(insertList) ==>
                                   WritesZero(insertList[k], val)
    {
      hide Agree, Misread, FieldsInOrder, InsertAll, FieldKnown, RecordRight, Run, StoreOps, Inserted, WritesZero,
        Ascending, Covering, AllTraced, TracedStarts, Starts, Named;
      ops := [];
      var workList;
      ghost var ranges;
      workList, ranges := EstablishFields(vn, bitrange, overlap);
      InOrder(workList, ranges, 8 * graph[vn].size);
      label traced:
      StartsAre(workList, vn, bitrange, overlap);
      assert MayGo(seq(|workList|, i => overwritten)) == NothingMayGo(bitrange, overlap);
      res := DoTrace(workList, vn, seq(|workList|, i => overwritten), verified, val, o);
      if res {
        forall k | 0 <= k < |ranges| ensures FieldKnown(ranges[k], insertList, originalValue, val[vn], o) {
          assert old@traced(workList[k].bitsField) == ranges[k];
        }
        InsertsRebuildRoot(insertList, originalValue, val, val[vn], o, graph[vn].size, ranges);
        ops := ApplyStore();
        forall m: Machine
          ensures var mem := Run(ops, m, Given(val[vn], o, val)).mem;
            if originalValue.Some? then mem == val[vn]
            else mem == val[vn] <==> forall k :: 0 <= k < |insertList| && k != LastStored(insertList) ==>
                                       WritesZero(insertList[k], val)
        {
          StoredRight(insertList, originalValue.Some?, m, Given(val[vn], o, val));
        }
      }
    }

    /** A mapped variable with bit-fields: what the operators put out has all bits of the value, but for the holes that
        are overwritten later. */
    method RecoverMapped(vn: nat, bitrange: BitRange, overlap: seq<(BitRange, Field)>, overwritten: seq<bool>,
                         verified: bool, ghost val: seq<nat>, ghost o: nat)
      returns (res: bool, ops: seq<Operator>, ghost ranges: seq<BitRange>)
      requires WellFormed(graph) && Valued(graph, val) && vn < |graph| && Supported(graph) && SmallSizes(graph)
      requires Originals(val, o) && o < Pow2(8 * graph[vn].size) && insertList == [] && !store
      requires Whole(bitrange, graph[vn].size) && FieldsInOrder(bitrange, overlap)
      requires |overwritten| == |TracedRanges(bitrange, overlap)|
      requires forall k :: 0 <= k < |TracedRanges(bitrange, overlap)| ==>
        var r := TracedRanges(bitrange, overlap)[k]; !Misread(graph, bases, r.leastSigBit, r.numBits)
      modifies this`insertList, this`originalValue
      ensures ranges == TracedRanges(bitrange, overlap)
      ensures res <==> tied && verified && AllTraced(graph, From(), old(originalValue),
                TracedStarts(graph, vn, bitrange, overlap), overwritten)
      ensures res ==> forall m: Machine ::
        var outs := Run(ops, m, Given(val[vn], o, val)).outs;
        0 in outs && SameBut(outs[0], val[vn], ranges, overwritten, graph[vn].size)
    {
      hide Agree, Misread, FieldsInOrder, InsertAll, FieldKnown, RecordRight, Run, Links, Ascending, Covering, SameBut,
        AllTraced, TracedStarts, Starts, Named;
      ops, ranges := [], TracedRanges(bitrange, overlap);
      if !tied { return false, [], ranges; }
      var workList;
      workList, ranges := EstablishFields(vn, bitrange, overlap);
      InOrder(workList, ranges, 8 * graph[vn].size);
      label traced:
      StartsAre(workList, vn, bitrange, overlap);
      assert MayGo(overwritten) == overwritten;
      res := DoTrace(workList, vn, overwritten, verified, val, o);
      if res {
        forall k | 0 <= k < |ranges| && !overwritten[k]
          ensures FieldKnown(ranges[k], insertList, originalValue, val[vn], o)
        {
          assert old@traced(workList[k].bitsField) == ranges[k];
        }
        ops := ApplyMapped();
        var original := if originalValue.Some? then Original else Zero;
        ChainSameBut(insertList, originalValue, val, val[vn], o, graph[vn].size, ranges, overwritten);
        forall m: Machine
          ensures var outs := Run(ops, m, Given(val[vn], o, val)).outs;
            0 in outs && SameBut(outs[0], val[vn], ranges, overwritten, graph[vn].size)
        {
          LinksRun(insertList, original, m, Given(val[vn], o, val));
        }
      }
    }
  }

  /** The operators for right records that cover a value store it, or what LastAloneIsRight says. */
  lemma StoredRight(recs: seq<InsertRecord>, load: bool, m: Machine, v: Given)
    requires recs != [] && Ascending(recs) && AllRecordsRight(v.root, recs, v.val)
    requires InsertAll(if load then v.original else 0, recs, v.val) == v.root
    ensures var mem := Run(StoreOps(recs, load), m, v).mem;
      if load then mem == v.root
      else mem == v.root <==> forall k :: 0 <= k < |recs| && k != LastStored(recs) ==> WritesZero(recs[k], v.val)
  {
    if load {
      StoresWithLoad(recs, m, v);
      BackwardMembers(recs);
      OrderAside(v.original, recs, [recs[0]] + Backward(recs[1..]), v.val, v.root);
    } else {
      StoresWithoutLoad(recs, m, v);
      LastAloneIsRight(recs, LastStored(recs), v.val, v.root);
    }
  }

  /** The same first bits, but for the ranges that are overwritten. */
  ghost predicate SameBut(a: nat, b: nat, ranges: seq<BitRange>, overwritten: seq<bool>, size: nat)
    requires |overwritten| == |ranges|
  {
    forall i: nat :: i < 8 * size && !(exists k :: 0 <= k < |ranges| && overwritten[k] && Holds(ranges[k], i)) ==>
      (Bit(a, i) <==> Bit(b, i))
  }

  predicate Holds(r: BitRange, i: nat) {
    r.leastSigBit <= i < EndOf(r)
  }

  lemma ChainSameBut(recs: seq<InsertRecord>, orig: Option<nat>, val: seq<nat>, root: nat, o: nat, size: nat,
                     ranges: seq<BitRange>, overwritten: seq<bool>)
    requires recs != [] && AllRecordsRight(root, recs, val) && |overwritten| == |ranges| && Covering(ranges, 8 * size)
    requires forall k :: 0 <= k < |ranges| && !overwritten[k] ==> FieldKnown(ranges[k], recs, orig, root, o)
    ensures SameBut(InsertAll(if orig.Some? then o else 0, Backward(recs), val), root, ranges, overwritten, size)
  {
    var base := if orig.Some? then o else 0;
    BackwardMembers(recs);
    OrderAside(base, recs, Backward(recs), val, root);
    forall i: nat | i < 8 * size && !(exists k :: 0 <= k < |ranges| && overwritten[k] && Holds(ranges[k], i))
      ensures Bit(InsertAll(base, recs, val), i) <==> Bit(root, i)
    {
      InsertAllBit(base, recs, val, root, i);
      assert InSomeField(ranges, i);
      var k :| 0 <= k < |ranges| && ranges[k].leastSigBit <= i < ranges[k].leastSigBit + ranges[k].numBits;
      assert Holds(ranges[k], i);
    }
  }

  lemma InOrder(workList: seq<BitFieldNodeState>, ranges: seq<BitRange>, n: nat)
    requires Following(workList, ranges) && Covering(ranges, n)
    requires forall k :: 0 <= k < |workList| ==> workList[k].bitsField.leastSigBit == workList[k].origLeastSigBit
    ensures forall k, l :: 0 <= k < l < |workList| ==> EndOf(workList[k].bitsField) <= workList[l].origLeastSigBit
  {
  }

  ghost predicate InSomeField(ranges: seq<BitRange>, i: nat) {
    exists k :: 0 <= k < |ranges| && ranges[k].leastSigBit <= i < ranges[k].leastSigBit + ranges[k].numBits
  }

  function EndOf(r: BitRange): int {
    r.leastSigBit + r.numBits
  }

  /** The ranges follow each other, and the first n bits are just what they hold. */
  ghost predicate Covering(ranges: seq<BitRange>, n: nat) {
    && (forall i: nat :: i < n ==> InSomeField(ranges, i))
    && (forall k :: 0 <= k < |ranges| ==> EndOf(ranges[k]) <= n)
    && forall j, k :: 0 <= j < k < |ranges| ==> EndOf(ranges[j]) <= ranges[k].leastSigBit
  }

  /** The bit ranges of the states. */
  ghost function RangesOfStates(workList: seq<BitFieldNodeState>): seq<BitRange>
    reads workList
  {
    seq(|workList|, k requires 0 <= k < |workList| reads workList => workList[k].bitsField)
  }

  /** When the first n fields and holes are traced: the records are right, lie in the variable and follow each other,
      and
      all bits of what was traced are known but for holes that may go. */
  ghost predicate RightUpTo(ranges: seq<BitRange>, starts: seq<Start>, mayGo: seq<bool>, n: nat,
                            recs: seq<InsertRecord>, orig: Option<nat>, val: seq<nat>, root: nat, o: nat, size: nat) {
    && |starts| == |ranges| == |mayGo| && n <= |ranges| && Ascending(recs)
    && (forall j :: 0 <= j < |recs| ==>
          RecordRight(root, recs[j], val) && recs[j].pos + recs[j].numBits <= 8 * size)
    && (forall j, k :: 0 <= j < |recs| && n <= k < |ranges| ==>
          recs[j].pos + recs[j].numBits <= ranges[k].leastSigBit)
    && (forall k, l :: 0 <= k < l < |ranges| ==> EndOf(ranges[k]) <= ranges[l].leastSigBit)
    && (forall k :: 0 <= k < |ranges| ==> Contained(ranges[k]) && EndOf(ranges[k]) <= 8 * size)
    && forall k :: 0 <= k < n ==>
         FieldKnown(ranges[k], recs, orig, root, o) || (starts[k].field.None? && mayGo[k])
  }

  lemma NoneRight(ranges: seq<BitRange>, starts: seq<Start>, mayGo: seq<bool>, orig: Option<nat>, val: seq<nat>,
                  root: nat, o: nat, size: nat)
    requires |starts| == |ranges| == |mayGo|
    requires forall k, l :: 0 <= k < l < |ranges| ==> EndOf(ranges[k]) <= ranges[l].leastSigBit
    requires forall k :: 0 <= k < |ranges| ==> Contained(ranges[k]) && EndOf(ranges[k]) <= 8 * size
    ensures RightUpTo(ranges, starts, mayGo, 0, [], orig, val, root, o, size)
  {
  }

  lemma OneMoreRight(ranges: seq<BitRange>, starts: seq<Start>, mayGo: seq<bool>, n: nat, before: seq<InsertRecord>,
                     after: seq<InsertRecord>, orig: Option<nat>, orig': Option<nat>, val: seq<nat>, root: nat, o: nat,
                     size: nat, done: bool)
    requires RightUpTo(ranges, starts, mayGo, n, before, orig, val, root, o, size) && n < |ranges|
    requires orig.Some? ==> orig'.Some?
    requires var r := ranges[n];
      if done then
        (after == before && orig'.Some? && r.leastSigBit >= 0 && r.numBits >= 0 &&
            Agree(root, r.leastSigBit, o, r.leastSigBit, r.numBits))
        || (|after| == |before| + 1 && after[..|before|] == before && RecordRight(root, after[|before|], val) &&
            after[|before|].pos == r.leastSigBit && after[|before|].numBits == r.numBits)
      else after == before && starts[n].field.None? && mayGo[n]
    ensures RightUpTo(ranges, starts, mayGo, n + 1, after, orig', val, root, o, size)
  {
    hide FieldKnown, Agree, RecordRight;
    if done { NewlyKnown(ranges[n], before, after, orig', root, o); }
    forall k | 0 <= k < n && FieldKnown(ranges[k], before, orig, root, o)
      ensures FieldKnown(ranges[k], after, orig', root, o)
    {
      KnownStays(ranges[k], before, after, orig, orig', root, o);
    }
    forall j | 0 <= j < |before| ensures |after| > j && after[j] == before[j] {
      assert after[..|before|][j] == before[j];
    }
  }

  lemma RightAtEnd(ranges: seq<BitRange>, starts: seq<Start>, mayGo: seq<bool>, recs: seq<InsertRecord>,
                   orig: Option<nat>, val: seq<nat>, root: nat, o: nat, size: nat)
    requires RightUpTo(ranges, starts, mayGo, |ranges|, recs, orig, val, root, o, size)
    ensures |starts| == |ranges| == |mayGo| && Ascending(recs)
    ensures forall j :: 0 <= j < |recs| ==>
              RecordRight(root, recs[j], val) && recs[j].pos + recs[j].numBits <= 8 * size
    ensures forall k :: 0 <= k < |ranges| ==>
              FieldKnown(ranges[k], recs, orig, root, o) || (starts[k].field.None? && mayGo[k])
  {
  }

  lemma CoverNothing()
    ensures Covering([], 0)
  {
  }

  lemma CoverMore(ranges: seq<BitRange>, r: BitRange, pos: nat, end: nat)
    requires Covering(ranges, pos) && r.leastSigBit == pos <= end && r.leastSigBit + r.numBits == end
    ensures Covering(ranges + [r], end)
  {
    var longer := ranges + [r];
    forall i: nat | i < end ensures InSomeField(longer, i) {
      if i < pos {
        assert InSomeField(ranges, i);
        var k :| 0 <= k < |ranges| && ranges[k].leastSigBit <= i < ranges[k].leastSigBit + ranges[k].numBits;
        assert longer[k] == ranges[k];
      } else {
        assert longer[|ranges|] == r;
      }
    }
  }

  /** The states follow these ranges. */
  ghost predicate Following(workList: seq<BitFieldNodeState>, ranges: seq<BitRange>)
    reads workList
  {
    && |workList| == |ranges| && (forall k :: 0 <= k < |ranges| ==> workList[k].bitsField == ranges[k])
    && forall k, l :: 0 <= k < l < |workList| ==> workList[k] != workList[l]
  }

  /** All bits of a variable. */
  predicate Whole(r: BitRange, size: nat) {
    r.byteSize == size && r.leastSigBit == 0 && r.numBits == 8 * size
  }

  function FieldEnd(r: BitRange, bits: BitRange): int {
    TranslateLSB(r, bits) + bits.numBits
  }

  function Upto(a: int, b: int): int {
    if a > b then b else a
  }

  /** The fields overlap the variable and follow each other from least to most significant. */
  predicate FieldsInOrder(r: BitRange, overlap: seq<(BitRange, Field)>) {
    && (forall k :: 0 <= k < |overlap| ==>
          && overlap[k].0.numBits == overlap[k].1.numBits > 0 && overlap[k].0.bigEndian == r.bigEndian
          && OverlapTest(r, overlap[k].0) != -1 && OverlapTest(r, overlap[k].0) != 1)
    && forall k :: 0 < k < |overlap| ==> FieldEnd(r, overlap[k - 1].0) <= TranslateLSB(r, overlap[k].0)
  }

  /** Where the first n fields end in the variable. */
  function PosAfter(r: BitRange, overlap: seq<(BitRange, Field)>, n: nat): int
    requires n <= |overlap|
  {
    if n == 0 then 0 else Upto(FieldEnd(r, overlap[n - 1].0), 8 * r.byteSize)
  }

  /** The hole before field k, if there is one, and the field; or its part of the variable, if it is not all in it. */
  function RangesOf(r: BitRange, overlap: seq<(BitRange, Field)>, k: nat): seq<BitRange>
    requires k < |overlap|
  {
    var pos, start := PosAfter(r, overlap, k), Upto(TranslateLSB(r, overlap[k].0), 8 * r.byteSize);
    var at := if start > pos then start else pos;
    var code := OverlapTest(r, overlap[k].0);
    (if start > pos then [r.(leastSigBit := pos, numBits := start - pos)] else []) +
    [if code == 0 || code == 3 then MoveTo(overlap[k].0, r.byteOffset, r.byteSize)
     else r.(leastSigBit := at, numBits := PosAfter(r, overlap, k + 1) - at)]
  }

  function RangesUpTo(r: BitRange, overlap: seq<(BitRange, Field)>, n: nat): seq<BitRange>
    requires n <= |overlap|
  {
    if n == 0 then [] else RangesUpTo(r, overlap, n - 1) + RangesOf(r, overlap, n - 1)
  }

  /** All ranges that are traced: the fields and the holes before, between and after them. */
  function TracedRanges(r: BitRange, overlap: seq<(BitRange, Field)>): seq<BitRange> {
    var pos := PosAfter(r, overlap, |overlap|);
    RangesUpTo(r, overlap, |overlap|) + if pos < 8 * r.byteSize
        then [r.(leastSigBit := pos, numBits := 8 * r.byteSize - pos)] else []
  }

  /** Which of these is a field, and which. */
  function NamesOf(r: BitRange, overlap: seq<(BitRange, Field)>, k: nat): (names: seq<Option<Field>>)
    requires k < |overlap|
    ensures |names| == |RangesOf(r, overlap, k)|
  {
    var pos, start := PosAfter(r, overlap, k), Upto(TranslateLSB(r, overlap[k].0), 8 * r.byteSize);
    var code := OverlapTest(r, overlap[k].0);
    (if start > pos then [None] else []) + [if code == 0 || code == 3 then Some(overlap[k].1) else None]
  }

  function NamesUpTo(r: BitRange, overlap: seq<(BitRange, Field)>, n: nat): (names: seq<Option<Field>>)
    requires n <= |overlap|
    ensures |names| == |RangesUpTo(r, overlap, n)|
  {
    if n == 0 then [] else NamesUpTo(r, overlap, n - 1) + NamesOf(r, overlap, n - 1)
  }

  function TracedNames(r: BitRange, overlap: seq<(BitRange, Field)>): (names: seq<Option<Field>>)
    ensures |names| == |TracedRanges(r, overlap)|
  {
    NamesUpTo(r, overlap, |overlap|) + if PosAfter(r, overlap, |overlap|) < 8 * r.byteSize then [None] else []
  }

  lemma NoneTracedYet(r: BitRange, overlap: seq<(BitRange, Field)>)
    ensures RangesUpTo(r, overlap, 0) == [] && NamesUpTo(r, overlap, 0) == [] && PosAfter(r, overlap, 0) == 0
  {
  }

  lemma TracedNext(r: BitRange, overlap: seq<(BitRange, Field)>, i: nat)
    requires i < |overlap|
    ensures RangesUpTo(r, overlap, i + 1) == RangesUpTo(r, overlap, i) + RangesOf(r, overlap, i)
    ensures NamesUpTo(r, overlap, i + 1) == NamesUpTo(r, overlap, i) + NamesOf(r, overlap, i)
  {
    hide RangesOf, NamesOf;
  }

  /** The hole, if there is one, and the field were added. */
  lemma FieldTraced(r: BitRange, overlap: seq<(BitRange, Field)>, i: nat, ranges0: seq<BitRange>,
                    names0: seq<Option<Field>>, ranges: seq<BitRange>, names: seq<Option<Field>>)
    requires i < |overlap|
    requires var pos, start := PosAfter(r, overlap, i), Upto(TranslateLSB(r, overlap[i].0), 8 * r.byteSize);
      var at := if start > pos then start else pos;
      var code := OverlapTest(r, overlap[i].0);
      && ranges == (if start > pos then ranges0 + [r.(leastSigBit := pos, numBits := start - pos)] else ranges0) +
                   [if code == 0 || code == 3 then MoveTo(overlap[i].0, r.byteOffset, r.byteSize)
                    else r.(leastSigBit := at, numBits := PosAfter(r, overlap, i + 1) - at)]
      && names == (if start > pos then names0 + [None] else names0) +
                  [if code == 0 || code == 3 then Some(overlap[i].1) else None]
    ensures ranges == ranges0 + RangesOf(r, overlap, i) && names == names0 + NamesOf(r, overlap, i)
  {
    hide OverlapTest, MoveTo, TranslateLSB;
  }

  lemma TracedAre(r: BitRange, overlap: seq<(BitRange, Field)>)
    ensures var pos, n := PosAfter(r, overlap, |overlap|), 8 * r.byteSize;
      var ranges, names := RangesUpTo(r, overlap, |overlap|), NamesUpTo(r, overlap, |overlap|);
      && TracedRanges(r, overlap) ==
           (if pos < n then ranges + [r.(leastSigBit := pos, numBits := n - pos)] else ranges)
      && TracedNames(r, overlap) == if pos < n then names + [None] else names
  {
    hide RangesUpTo, NamesUpTo;
  }

  /** The states have these fields, and all bits of the variable matter at first. */
  ghost predicate Named(workList: seq<BitFieldNodeState>, names: seq<Option<Field>>, used: BitRange)
    reads workList
  {
    |workList| == |names| && forall k :: 0 <= k < |names| ==>
      workList[k].field == names[k] && workList[k].bitsUsed == used
  }

  lemma BegunNone()
    ensures Following([], []) && forall used :: Named([], [], used)
  {
  }

  lemma {:induction false} RangesInside(r: BitRange, overlap: seq<(BitRange, Field)>, n: nat, size: nat)
    requires Whole(r, size) && size > 0 && FieldsInOrder(r, overlap) && n <= |overlap|
    ensures 0 <= PosAfter(r, overlap, n) <= 8 * size
    ensures forall k :: 0 <= k < |RangesUpTo(r, overlap, n)| ==> Inside(RangesUpTo(r, overlap, n)[k], 8 * size)
  {
    if n > 0 {
      RangesInside(r, overlap, n - 1, size);
      hide OverlapTest, MoveTo, TranslateLSB, FieldsInOrder;
      FieldOverlaps(r, overlap, n - 1, 8 * size);
      var last := RangesOf(r, overlap, n - 1);
      assert forall k :: 0 <= k < |last| ==> Inside(last[k], 8 * size);
    }
  }

  predicate Inside(r: BitRange, n: nat) {
    0 <= r.leastSigBit && r.numBits > 0 && EndOf(r) <= n
  }

  lemma TracedInside(r: BitRange, overlap: seq<(BitRange, Field)>, size: nat)
    requires Whole(r, size) && size > 0 && FieldsInOrder(r, overlap)
    ensures forall k :: 0 <= k < |TracedRanges(r, overlap)| ==> Inside(TracedRanges(r, overlap)[k], 8 * size)
  {
    RangesInside(r, overlap, |overlap|, size);
  }

  /** The traces of all fields and holes of variable vn. */
  ghost function TracedStarts(g: Graph, vn: nat, r: BitRange, overlap: seq<(BitRange, Field)>): (starts: seq<Start>)
    requires vn < |g| && g[vn].size > 0 && Whole(r, g[vn].size) && FieldsInOrder(r, overlap)
    ensures |starts| == |TracedRanges(r, overlap)| && forall k :: 0 <= k < |starts| ==> StartFits(g, starts[k])
  {
    TracedInside(r, overlap, g[vn].size);
    var ranges, names := TracedRanges(r, overlap), TracedNames(r, overlap);
    seq(|ranges|, k requires 0 <= k < |ranges| && Inside(ranges[k], 8 * g[vn].size) =>
      Start(names[k], ranges[k].numBits, Place(vn, ranges[k].leastSigBit, 0, 8 * g[vn].size)))
  }

  function NothingMayGo(r: BitRange, overlap: seq<(BitRange, Field)>): (none: seq<bool>)
    ensures |none| == |TracedRanges(r, overlap)|
  {
    seq(|TracedRanges(r, overlap)|, _ => false)
  }

  lemma FieldOverlaps(r: BitRange, overlap: seq<(BitRange, Field)>, i: nat, size: int)
    requires FieldsInOrder(r, overlap) && i < |overlap| && r.leastSigBit == 0 && r.numBits == size > 0
    ensures TranslateLSB(r, overlap[i].0) < size && FieldEnd(r, overlap[i].0) > 0
    ensures overlap[i].0.numBits == overlap[i].1.numBits > 0
    ensures MoveTo(overlap[i].0, r.byteOffset, r.byteSize) ==
              BitRange(r.byteOffset, r.byteSize, TranslateLSB(r, overlap[i].0), overlap[i].0.numBits, r.bigEndian)
    ensures i > 0 ==> Upto(FieldEnd(r, overlap[i - 1].0), size) <= TranslateLSB(r, overlap[i].0)
    ensures OverlapTest(r, overlap[i].0) == 0 || OverlapTest(r, overlap[i].0) == 3 ==>
              0 <= TranslateLSB(r, overlap[i].0) && FieldEnd(r, overlap[i].0) <= size
  {
  }

  /** When every field was traced, inserting the records into the original value, or into zero if none was found,
      gives the root back: all of it, unless holes were let go because they are overwritten later. */
  lemma {:induction false} InsertsRebuildRoot(recs: seq<InsertRecord>, orig: Option<nat>, val: seq<nat>, root: nat,
                                              o: nat, size: nat, ranges: seq<BitRange>)
    requires forall k :: 0 <= k < |recs| ==>
               RecordRight(root, recs[k], val) && recs[k].pos + recs[k].numBits <= 8 * size
    requires forall k :: 0 <= k < |ranges| ==> FieldKnown(ranges[k], recs, orig, root, o)
    requires Covering(ranges, 8 * size)
    requires root < Pow2(8 * size) && o < Pow2(8 * size)
    ensures InsertAll(if orig.Some? then o else 0, recs, val) == root
  {
    var base := if orig.Some? then o else 0;
    var all := InsertAll(base, recs, val);
    forall i: nat ensures Bit(all, i) == Bit(root, i) {
      InsertAllBit(base, recs, val, root, i);
      if i < 8 * size {
        assert InSomeField(ranges, i);
      } else {
        assert !Covered(recs, i);
        SmallBits(root, 8 * size, i);
        SmallBits(o, 8 * size, i);
        ZeroHasNoBits(i);
      }
    }
    EqualBits(all, root);
  }

  /** Every bit of the field is known: a record writes it, or it is the original bit. */
  ghost predicate FieldKnown(r: BitRange, recs: seq<InsertRecord>, orig: Option<nat>, root: nat, o: nat) {
    forall i: nat :: r.leastSigBit <= i < r.leastSigBit + r.numBits ==>
        Covered(recs, i) || (orig.Some? && (Bit(root, i) <==> Bit(o, i)))
  }

  lemma NewlyKnown(r: BitRange, before: seq<InsertRecord>, after: seq<InsertRecord>, orig: Option<nat>, root: nat,
                   o: nat)
    requires Contained(r)
    requires (after == before && orig.Some? && Agree(root, r.leastSigBit, o, r.leastSigBit, r.numBits)) ||
             (|after| == |before| + 1 && after[|before|].pos == r.leastSigBit && after[|before|].numBits == r.numBits)
    ensures FieldKnown(r, after, orig, root, o)
  {
    forall i: nat | r.leastSigBit <= i < r.leastSigBit + r.numBits && |after| == |before| + 1
      ensures Covered(after, i)
    {
      var rec := after[|before|];
      assert rec.pos <= i < rec.pos + rec.numBits;
    }
  }

  lemma KnownStays(r: BitRange, before: seq<InsertRecord>, after: seq<InsertRecord>, orig0: Option<nat>,
                   orig1: Option<nat>, root: nat, o: nat)
    requires |before| <= |after| && after[..|before|] == before && (orig0.Some? ==> orig1.Some?)
    requires FieldKnown(r, before, orig0, root, o)
    ensures FieldKnown(r, after, orig1, root, o)
  {
    forall i: nat | Covered(before, i) ensures Covered(after, i) {
      var k :| 0 <= k < |before| && before[k].pos <= i < before[k].pos + before[k].numBits;
      assert after[k] == before[k];
    }
  }

  /** Some pull takes the field from the original value, but does not hold it where the original does. */
  predicate Misread(g: Graph, bases: set<nat>, at: int, n: int)
    requires WellFormed(g)
  {
    exists vn: nat :: vn < |g| && Pulls(g, bases, vn, at, n) && PullMoves(g[vn].def.code, at, n)
  }

  /** The pulled bits are found elsewhere, unless the field is at position zero, or is one bit and spread as a sign. */
  predicate PullMoves(code: OpCode, at: int, n: int) {
    at != 0 && (code == Spull ==> n != 1)
  }

  lemma AllSupported(g: Graph, i: nat, r: BitRange)
    requires WellFormed(g) && Supported(g) && i < |g| && Contained(r) && r.numBits > 0 && r.byteSize == g[i].size
    ensures StepRight(g, i, r)
  {
    if ByConstant(g, i) { SupportedIsExact(g, i); }
  }

  lemma ValuesFit(g: Graph, val: seq<nat>)
    requires WellFormed(g) && Valued(g, val)
    ensures |val| == |g|
  {
  }

  lemma Defined(g: Graph, val: seq<nat>, op: nat)
    requires WellFormed(g) && Valued(g, val) && op < |g| && g[op].def.Written?
    ensures |val| == |g| && Typed(g, op) && Computed(g, val, op)
  {
  }

  /** A pull that does not move the field holds the original's bits. */
  lemma PulledInPlace(g: Graph, val: seq<nat>, bases: set<nat>, root: nat, s: Snap, o: nat)
    requires WellFormed(g) && Valued(g, val) && s.node.Some? && s.node.value < |g| && s.bitsField.leastSigBit >= 0 &&
               s.bitsField.numBits > 0
    requires Contained(s.bitsField) && s.bitsField.byteSize == g[s.node.value].size &&
               8 * g[s.node.value].size < 0x8000_0000
    requires Pulls(g, bases, s.node.value, s.bitsField.leastSigBit, s.bitsField.numBits)
    requires forall b :: b in bases && b < |val| ==> val[b] == o
    requires Carries(val, root, s.bitsField.leastSigBit, s) &&
               !Misread(g, bases, s.bitsField.leastSigBit, s.bitsField.numBits)
    ensures Agree(root, s.bitsField.leastSigBit, o, s.bitsField.leastSigBit, s.bitsField.numBits)
  {
    hide ZpullOf, SpullOf, Bit, Pow2, Misread;
    var vn, n, at := s.node.value, s.bitsField.numBits, s.bitsField.leastSigBit;
    NotMoved(g, bases, at, n, vn);
    Defined(g, val, vn);
    NarrowIsKept(g[g[vn].def.ins[1]].def.offset);
    NarrowIsKept(g[g[vn].def.ins[2]].def.offset);
    if g[vn].def.code == Zpull {
      ZpullIsOriginal(at, n, g[vn].size);
    } else {
      SpullIsOriginal(at, n, g[vn].size);
    }
    assert Agree(val[vn], at, o, at, n);
  }

  lemma NotMoved(g: Graph, bases: set<nat>, at: int, n: int, vn: nat)
    requires WellFormed(g) && vn < |g| && Pulls(g, bases, vn, at, n) && !Misread(g, bases, at, n)
    ensures !PullMoves(g[vn].def.code, at, n)
  {
  }

  lemma AllMasked(v: nat, nzm: nat, r: BitRange)
    requires Contained(r) && r.byteSize <= 8 && Masked(v, nzm) && IntersectMask(r, nzm).numBits == 0
    ensures FieldClear(v, r)
  {
    hide IntersectMask, GetMask;
    forall i: nat | r.leastSigBit <= i < r.leastSigBit + r.numBits ensures !Bit(v, i) {
      MaskedIsLeastCover(r, nzm, i);
      FieldMask(r, i);
    }
  }

  /** A field of at least one bit, in a word, has a non-empty mask. */
  lemma MaskOfField(r: BitRange)
    requires Contained(r) && r.byteSize <= 8 && r.numBits > 0
    ensures GetMask(r) != 0
  {
    FieldMask(r, r.leastSigBit);
    NoBitsOfZero();
  }

  /** The constant, masked, shifted down and sign-extended, has the root's bits at its low end. */
  lemma ConstantKept(root: nat, at: nat, c: nat, r: BitRange, signed: bool)
    requires Contained(r) && r.byteSize <= 8 && Agree(root, at, c, r.leastSigBit, r.numBits)
    ensures var v := Shr(And(c, GetMask(r)), r.leastSigBit);
      Agree(root, at, if signed then ExtendSignbit(v, r.numBits, r.byteSize) else v, 0, r.numBits)
  {
    hide GetMask, And, Shr, ExtendSignbit;
    var v := Shr(And(c, GetMask(r)), r.leastSigBit);
    forall i: nat | at <= i < at + r.numBits
      ensures Bit(root, i) <==> Bit(if signed then ExtendSignbit(v, r.numBits, r.byteSize) else v, i - at + 0)
    {
      var k := i - at + r.leastSigBit;
      ShrBit(And(c, GetMask(r)), r.leastSigBit, i - at);
      AndBit(c, GetMask(r), k);
      FieldMask(r, k);
      ExtendSignbitKeeps(v, r.numBits, r.byteSize, i - at);
    }
  }

  /** The mask c misses the field: the field of a & c is zero. */
  lemma AndClears(r: BitRange, a: nat, c: nat)
    requires Contained(r) && r.byteSize <= 8 && And(GetMask(r), c) == 0
    ensures FieldClear(And(a, c), r)
  {
    AndZero(GetMask(r), c);
    hide GetMask, And;
    forall i: nat | r.leastSigBit <= i < r.leastSigBit + r.numBits ensures !Bit(And(a, c), i) {
      AndBit(a, c, i);
      FieldMask(r, i);
    }
  }
}
