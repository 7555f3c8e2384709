/** When a bit-field of a value can be traced back, by the operators that built the value and the bits they move. */
module Traces {

  import opened Wrappers
  import opened Bits
  import opened BitRanges
  import opened Pcode
  import opened BitFields

  /** Bits [pos, pos + n) of variable v are looked for, and only bits [lo, hi) of v matter. */
  datatype Place = Place(v: nat, pos: nat, lo: nat, hi: nat)

  /** A field, or a hole between fields, at the start of its trace. */
  datatype Start = Start(field: Option<Field>, n: nat, place: Place)

  /** Variables read from the storage that is written, and calls that return the structure itself. */
  datatype Sources = Sources(bases: set<nat>, calls: set<nat>)

  datatype Move = To(place: Place) | Cleared | Stuck

  /** The trace ends without result, at a variable of so many bytes; or the bits are those of the original value, which
      is in the given variable; or a record says what they are. */
  datatype Outcome = Lost(bytes: nat) | InOriginal(base: nat) | Recorded

  /** No bit of m in [lo, hi) is set. */
  ghost predicate Clear(m: nat, lo: nat, hi: nat) {
    forall b: nat :: lo <= b < hi ==> !Bit(m, b)
  }

  /** All of them are. */
  ghost predicate Full(m: nat, lo: nat, hi: nat) {
    forall b: nat :: lo <= b < hi ==> Bit(m, b)
  }

  /** The first set bit of m in [lo, hi). */
  function FirstIn(m: nat, lo: nat, hi: nat): (b: nat)
    requires lo <= hi
    ensures lo <= b <= hi && (b < hi ==> Bit(m, b)) && forall i: nat :: lo <= i < b ==> !Bit(m, i)
    decreases hi - lo
  {
    if lo == hi || Bit(m, lo) then lo else FirstIn(m, lo + 1, hi)
  }

  /** The position after the last one. */
  function EndIn(m: nat, lo: nat, hi: nat): (e: nat)
    requires lo <= hi
    ensures lo <= e <= hi && (lo < e ==> Bit(m, e - 1)) && forall i: nat :: e <= i < hi ==> !Bit(m, i)
    decreases hi - lo
  {
    if lo == hi || Bit(m, hi - 1) then hi else EndIn(m, lo, hi - 1)
  }

  function Below(a: nat, k: nat): nat {
    if a >= k then a - k else 0
  }

  ghost predicate Fits(g: Graph, n: nat, p: Place) {
    p.v < |g| && n > 0 && p.lo <= p.pos && p.pos + n <= p.hi <= 8 * g[p.v].size
  }

  /** The bits are k lower in the input. */
  function Lower(p: Place, v: nat, k: nat): Place
    requires p.pos >= k
  {
    Place(v, p.pos - k, Below(p.lo, k), Below(p.hi, k))
  }

  /** What the operator that defines the variable does to the bits: they come from an input, are zero, or neither is
      known. */
  ghost function Step(g: Graph, n: nat, p: Place): Move
    requires WellFormed(g) && Fits(g, n, p) && g[p.v].def.Written?
  {
    assert Typed(g, p.v);
    var ins, size, end := g[p.v].def.ins, g[p.v].size, p.pos + n;
    match g[p.v].def.code
    case Copy => To(p.(v := ins[0]))
    case IntAnd =>
      if size > 8 || !g[ins[1]].def.Constant? then Stuck
      else
        var c := g[ins[1]].def.offset;
        if Full(c, p.pos, end) then To(Place(ins[0], p.pos, FirstIn(c, p.lo, p.hi), EndIn(c, p.lo, p.hi)))
        else if Clear(c, p.pos, end) then Cleared
        else Stuck
    case IntOr =>
      var c0, c1 := Clear(g[ins[0]].nzm, p.pos, end), Clear(g[ins[1]].nzm, p.pos, end);
      if size > 8 then Stuck
      else if c0 && !c1 then To(p.(v := ins[1]))
      else if c1 && !c0 then To(p.(v := ins[0]))
      else if g[ins[1]].def.Constant? && Full(g[ins[1]].nzm, p.pos, end) then To(p.(v := ins[1]))
      else Stuck
    case IntAdd =>
      var c0, c1 := Clear(g[ins[0]].nzm, p.pos, end), Clear(g[ins[1]].nzm, p.pos, end);
      if size > 8 || !Disjoint(g[ins[0]].nzm, g[ins[1]].nzm) then Stuck
      else if c0 && !c1 then To(p.(v := ins[1]))
      else if c1 && !c0 then To(p.(v := ins[0]))
      else Stuck
    case IntLeft =>
      if !g[ins[1]].def.Constant? || !(0 <= Int4(g[ins[1]].def.offset) < 64) then Stuck
      else
        var k: nat := Int4(g[ins[1]].def.offset);
        if p.pos >= k then To(Lower(p, ins[0], k)) else if end <= k then Cleared else Stuck
    case IntMult =>
      if !g[ins[1]].def.Constant? || g[ins[1]].def.offset == 0 || PopCount(g[ins[1]].def.offset) != 1 then Stuck
      else
        var k := LeastSet(g[ins[1]].def.offset);
        if p.pos >= k then To(Lower(p, ins[0], k)) else Stuck
    case IntSright =>
      if !g[ins[1]].def.Constant? || !(0 <= Int4(g[ins[1]].def.offset) < 64) then Stuck
      else
        var k: nat := Int4(g[ins[1]].def.offset);
        if end + k <= 8 * size
          then To(Place(ins[0], p.pos + k, p.lo + k, if p.hi + k <= 8 * size then p.hi + k else 8 * size)) else Stuck
    case IntZext =>
      var most := 8 * g[ins[0]].size;
      if end <= most then To(Place(ins[0], p.pos, p.lo, if p.hi <= most then p.hi else most)) else Stuck
    case Subpiece =>
      var k := 8 * g[ins[1]].def.offset;
      if p.pos >= k then To(Lower(p, ins[0], k)) else Stuck
    case Zpull => Stuck
    case Spull => Stuck
    case OtherOp => Stuck
  }

  lemma TypedAt(g: Graph, v: nat)
    requires WellFormed(g) && v < |g| && g[v].def.Written?
    ensures Typed(g, v)
  {
  }

  lemma StepFits(g: Graph, n: nat, p: Place)
    requires WellFormed(g) && Fits(g, n, p) && g[p.v].def.Written? && Step(g, n, p).To?
    ensures var q := Step(g, n, p).place; Fits(g, n, q) && q.v < p.v
  {
    hide PopCount, LeastSet, Int4, FirstIn, EndIn, Bit, Clear, Full, Disjoint, WellFormed;
    TypedAt(g, p.v);
    if g[p.v].def.code == IntAnd { FullHeld(g[g[p.v].def.ins[1]].def.offset, n, p); }
  }

  /** The ends of the set bits are not inside a full field. */
  lemma FullHeld(c: nat, n: nat, p: Place)
    requires Full(c, p.pos, p.pos + n) && n > 0 && p.lo <= p.pos && p.pos + n <= p.hi
    ensures p.lo <= FirstIn(c, p.lo, p.hi) <= p.pos && p.pos + n <= EndIn(c, p.lo, p.hi) <= p.hi
    ensures !Clear(c, p.lo, p.hi) && !Clear(c, p.pos, p.pos + n)
  {
    hide FirstIn, EndIn, Bit;
    assert Bit(c, p.pos) && Bit(c, p.pos + n - 1);
  }

  predicate IsPull(code: OpCode) {
    code == Zpull || code == Spull
  }

  /** vn is a pull of n bits from position least of the original value. */
  predicate Pulls(g: Graph, bases: set<nat>, vn: nat, least: int, n: int)
    requires WellFormed(g) && vn < |g|
  {
    && g[vn].def.Written? && IsPull(g[vn].def.code)
    && assert Typed(g, vn);
       Int4(g[g[vn].def.ins[1]].def.offset) == least && Int4(g[g[vn].def.ins[2]].def.offset) == n &&
           g[vn].def.ins[0] in bases
  }

  /** The bits cannot be set, or no other bit that matters can. */
  ghost predicate NoneBeside(g: Graph, n: nat, p: Place)
    requires p.v < |g|
  {
    || Clear(g[p.v].nzm, p.pos, p.pos + n)
    || forall b: nat :: p.lo <= b < p.hi && Bit(g[p.v].nzm, b) ==> p.pos <= b < p.pos + n
  }

  /** Where the trace of a field (or, if it is not named, a hole) that starts at bit at of the written value ends. found
      is the variable that is known to hold the original value. */
  ghost function Trace(g: Graph, from: Sources, found: Option<nat>, at: nat, named: bool, n: nat, p: Place): Outcome
    requires WellFormed(g) && Fits(g, n, p)
    decreases p.v
  {
    var vn := g[p.v];
    if vn.def.Constant? then if named && vn.size <= 8 then Recorded else Lost(vn.size)
    else if p.pos == at && found == Some(p.v) then InOriginal(p.v)
    else if p.pos == at && Pulls(g, from.bases, p.v, p.pos, n) then InOriginal(vn.def.ins[0])
    else if p.pos == at && p.v in from.bases then InOriginal(p.v)
    else if named && p.lo == p.pos == 0 && p.hi == n then Recorded
    else if !vn.def.Written? then Lost(vn.size)
    else if p.pos == at && p.v in from.calls && found.None? then InOriginal(p.v)
    else
      match Step(g, n, p)
      case To(q) =>
        StepFits(g, n, p);
        Trace(g, from, found, at, named, n, q)
      case Cleared => if named then Recorded else Lost(vn.size)
      case Stuck => if named && vn.size <= 8 && NoneBeside(g, n, p) then Recorded else Lost(vn.size)
  }

  ghost predicate StartFits(g: Graph, s: Start) {
    Fits(g, s.n, s.place)
  }

  ghost function End(g: Graph, from: Sources, found: Option<nat>, s: Start): Outcome
    requires WellFormed(g) && StartFits(g, s)
  {
    Trace(g, from, found, s.place.pos, s.field.Some?, s.n, s.place)
  }

  /** The variable known to hold the original value when the first k traces are done. */
  ghost function FoundAfter(g: Graph, from: Sources, found: Option<nat>, starts: seq<Start>, k: nat): Option<nat>
    requires WellFormed(g) && k <= |starts| && forall i :: 0 <= i < |starts| ==> StartFits(g, starts[i])
  {
    if k == 0 then found
    else
      var before := FoundAfter(g, from, found, starts, k - 1);
      var end := End(g, from, before, starts[k - 1]);
      if end.InOriginal? then Some(end.base) else before
  }

  /** Where trace k ends. */
  ghost function Ending(g: Graph, from: Sources, found: Option<nat>, starts: seq<Start>, k: nat): Outcome
    requires WellFormed(g) && k < |starts| && forall i :: 0 <= i < |starts| ==> StartFits(g, starts[i])
  {
    End(g, from, FoundAfter(g, from, found, starts, k), starts[k])
  }

  lemma FoundNext(g: Graph, from: Sources, found: Option<nat>, starts: seq<Start>, k: nat)
    requires WellFormed(g) && k < |starts| && forall i :: 0 <= i < |starts| ==> StartFits(g, starts[i])
    ensures var end := Ending(g, from, found, starts, k);
      FoundAfter(g, from, found, starts, k + 1) ==
        if end.InOriginal? then Some(end.base) else FoundAfter(g, from, found, starts, k)
  {
  }

  /** The trace of a hole that may go ended at a variable of at most eight bytes. */
  ghost predicate LetGo(end: Outcome, s: Start, mayGo: bool) {
    mayGo && s.field.None? && end.Lost? && end.bytes <= 8
  }

  /** Every trace has a result, but for those of holes that may go; and some trace ends with a record. */
  ghost predicate AllTraced(g: Graph, from: Sources, found: Option<nat>, starts: seq<Start>, mayGo: seq<bool>)
    requires WellFormed(g) && |mayGo| == |starts| && forall i :: 0 <= i < |starts| ==> StartFits(g, starts[i])
  {
    && (forall k :: 0 <= k < |starts| ==>
          !Ending(g, from, found, starts, k).Lost? || LetGo(Ending(g, from, found, starts, k), starts[k], mayGo[k]))
    && exists k :: 0 <= k < |starts| && Ending(g, from, found, starts, k).Recorded?
  }

  // ---------- the ranges and masks of the code ----------

  /** The bits that matter hold the field, and lie in its container. */
  ghost predicate InUse(s: Snap) {
    && Contained(s.bitsUsed) && s.bitsUsed.byteSize == s.bitsField.byteSize
    && s.bitsUsed.leastSigBit <= s.bitsField.leastSigBit
    && s.bitsField.leastSigBit + s.bitsField.numBits <= s.bitsUsed.leastSigBit + s.bitsUsed.numBits
  }

  ghost function PlaceOf(g: Graph, field: Option<Field>, s: Snap): (p: Place)
    requires Shaped(g, field, s) && InUse(s)
    ensures Fits(g, s.bitsField.numBits, p)
  {
    Place(s.node.value, s.bitsField.leastSigBit, s.bitsUsed.leastSigBit, s.bitsUsed.leastSigBit + s.bitsUsed.numBits)
  }

  /** A handler does what the operator does to the bits. */
  ghost predicate Moved(g: Graph, field: Option<Field>, s0: Snap, s1: Snap, followed: bool, move: Move) {
    match move
    case To(q) =>
      followed && Shaped(g, field, s1) && InUse(s1) && PlaceOf(g, field, s1) == q
      && s1.bitsField.numBits == s0.bitsField.numBits
    case Cleared => followed == field.Some? && s1 == s0.(node := None)
    case Stuck => !followed && s1 == s0
  }

  ghost predicate Follows(g: Graph, field: Option<Field>, s0: Snap, s1: Snap, followed: bool) {
    WellFormed(g) && Shaped(g, field, s0) && InUse(s0) && g[s0.node.value].def.Written? ==>
      Moved(g, field, s0, s1, followed, Step(g, s0.bitsField.numBits, PlaceOf(g, field, s0)))
  }

  lemma AndSwaps(a: nat, b: nat)
    ensures And(a, b) == And(b, a)
  {
    forall i: nat ensures Bit(And(a, b), i) == Bit(And(b, a), i) {
      AndBit(a, b, i);
      AndBit(b, a, i);
    }
    EqualBits(And(a, b), And(b, a));
  }

  lemma MaskClear(r: BitRange, m: nat)
    requires Contained(r) && r.byteSize <= 8
    ensures And(m, GetMask(r)) == And(GetMask(r), m)
    ensures And(m, GetMask(r)) == 0 <==> Clear(m, r.leastSigBit, r.leastSigBit + r.numBits)
  {
    hide GetMask, And, Bit;
    AndSwaps(m, GetMask(r));
    AndZero(m, GetMask(r));
    forall i: nat ensures Bit(GetMask(r), i) <==> r.leastSigBit <= i < r.leastSigBit + r.numBits { FieldMask(r, i); }
  }

  lemma MaskFull(r: BitRange, m: nat)
    requires Contained(r) && r.byteSize <= 8
    ensures And(GetMask(r), m) == GetMask(r) <==> Full(m, r.leastSigBit, r.leastSigBit + r.numBits)
    ensures And(m, GetMask(r)) == And(GetMask(r), m)
  {
    hide GetMask, And, Bit;
    AndSwaps(m, GetMask(r));
    AndFull(GetMask(r), m);
    forall i: nat ensures Bit(GetMask(r), i) <==> r.leastSigBit <= i < r.leastSigBit + r.numBits { FieldMask(r, i); }
  }

  /** The cover of the common bits goes from the first to the last of them. */
  lemma CoverEnds(r: BitRange, m: nat)
    requires Contained(r) && r.byteSize <= 8
    ensures var lo: nat, hi: nat := r.leastSigBit, r.leastSigBit + r.numBits; var s := IntersectMask(r, m);
      && (s.numBits == 0 <==> Clear(m, lo, hi)) && Contained(s) && s.byteSize == r.byteSize
      && (s.numBits > 0 ==> s.leastSigBit == FirstIn(m, lo, hi) && s.leastSigBit + s.numBits == EndIn(m, lo, hi))
  {
    var lo: nat, hi: nat := r.leastSigBit, r.leastSigBit + r.numBits;
    var s := IntersectMask(r, m);
    hide GetMask, And, Bit, IntersectMask, FirstIn, EndIn;
    forall i: nat
      ensures Bit(GetMask(r), i) <==> lo <= i < hi
      ensures Bit(m, i) && lo <= i < hi ==> s.leastSigBit <= i < s.leastSigBit + s.numBits
    {
      FieldMask(r, i);
      MaskedIsLeastCover(r, m, i);
    }
    MaskedIsLeastCover(r, m, 0);
    if s.numBits > 0 {
      var a: nat, b: nat := s.leastSigBit, s.leastSigBit + s.numBits - 1;
      assert Bit(m, a) && Bit(m, b) && Bit(GetMask(r), a) && Bit(GetMask(r), b) by { CoverInMask(r, m); }
      var first, end := FirstIn(m, lo, hi), EndIn(m, lo, hi);
      assert lo <= a <= b < hi;
      assert Bit(m, first) && Bit(m, end - 1);
    }
  }

  lemma CoverInMask(r: BitRange, m: nat)
    requires Contained(r) && IntersectMask(r, m).numBits > 0
    ensures var s := IntersectMask(r, m);
      && s.leastSigBit >= 0 && Bit(m, s.leastSigBit) && Bit(m, s.leastSigBit + s.numBits - 1)
      && Bit(GetMask(r), s.leastSigBit) && Bit(GetMask(r), s.leastSigBit + s.numBits - 1)
  {
    var both := And(m, GetMask(r));
    hide GetMask, And, Bit;
    AndBit(m, GetMask(r), LeastSet(both));
    AndBit(m, GetMask(r), MostSet(both));
    MaskBit(r, LeastSet(both));
    MaskBit(r, MostSet(both));
  }

  lemma InnerEnds(m: nat, lo: nat, pos: nat, end: nat, hi: nat)
    requires lo <= pos < end <= hi && !Clear(m, pos, end)
    ensures lo <= FirstIn(m, lo, hi) <= FirstIn(m, pos, end) < EndIn(m, pos, end) <= EndIn(m, lo, hi)
    ensures pos <= FirstIn(m, pos, end) && EndIn(m, pos, end) <= end
  {
    hide FirstIn, EndIn, Bit;
    var b: nat :| pos <= b < end && Bit(m, b);
  }

  /** A wider range has the same ends exactly when it adds no set bit. */
  lemma SameEnds(m: nat, lo: nat, pos: nat, end: nat, hi: nat)
    requires lo <= pos < end <= hi && !Clear(m, pos, end)
    ensures EndIn(m, pos, end) - FirstIn(m, pos, end) == EndIn(m, lo, hi) - FirstIn(m, lo, hi) <==>
              forall b: nat :: lo <= b < hi && Bit(m, b) ==> pos <= b < end
  {
    hide FirstIn, EndIn, Bit;
    InnerEnds(m, lo, pos, end, hi);
    var f, e := FirstIn(m, lo, hi), EndIn(m, lo, hi);
    assert Bit(m, f) && Bit(m, e - 1);
  }

  /** The two covers are of the same width exactly when no bit beside the field can be set. */
  lemma WidthsTell(g: Graph, field: Option<Field>, s: Snap)
    requires Shaped(g, field, s) && InUse(s) && s.bitsField.byteSize <= 8
    ensures var m := g[s.node.value].nzm; var few := IntersectMask(s.bitsField, m);
      NoneBeside(g, s.bitsField.numBits, PlaceOf(g, field, s)) <==>
        few.numBits == 0 || few.numBits == IntersectMask(s.bitsUsed, m).numBits
  {
    hide IntersectMask, Bit, FirstIn, EndIn, Clear;
    var m := g[s.node.value].nzm;
    var p, n := PlaceOf(g, field, s), s.bitsField.numBits;
    CoverEnds(s.bitsField, m);
    CoverEnds(s.bitsUsed, m);
    if !Clear(m, p.pos, p.pos + n) {
      WiderNotClear(m, p.lo, p.pos, p.pos + n, p.hi);
      SameEnds(m, p.lo, p.pos, p.pos + n, p.hi);
    }
  }

  lemma WiderNotClear(m: nat, lo: nat, pos: nat, end: nat, hi: nat)
    requires lo <= pos <= end <= hi && !Clear(m, pos, end)
    ensures !Clear(m, lo, hi)
  {
    hide Bit;
    var b: nat :| pos <= b < end && Bit(m, b);
  }

  // ---------- the handlers ----------

  ghost predicate DefinedBy(g: Graph, field: Option<Field>, s: Snap, code: OpCode) {
    WellFormed(g) && Shaped(g, field, s) && g[s.node.value].def.Written? && g[s.node.value].def.code == code &&
        Typed(g, s.node.value)
  }

  function Input(g: Graph, s: Snap, i: nat): nat
    requires s.node.Some? && s.node.value < |g| && g[s.node.value].def.Written? && i < |g[s.node.value].def.ins|
  {
    g[s.node.value].def.ins[i]
  }

  lemma CopyFollows(g: Graph, field: Option<Field>, s: Snap)
    requires DefinedBy(g, field, s, Copy)
    ensures Follows(g, field, s, s.(node := Some(Input(g, s, 0))), true)
  {
  }

  lemma AndFollows(g: Graph, field: Option<Field>, s0: Snap, s1: Snap, followed: bool)
    requires DefinedBy(g, field, s0, IntAnd)
    requires var c := g[Input(g, s0, 1)].def; var mask := GetMask(s0.bitsField);
      if !c.Constant? || s0.bitsField.byteSize > 8 then !followed && s1 == s0
      else if And(mask, c.offset) == mask then
        followed && s1 == Snap(Some(Input(g, s0, 0)), s0.bitsField, IntersectMask(s0.bitsUsed, c.offset))
      else if And(mask, c.offset) == 0 then followed == field.Some? && s1 == s0.(node := None)
      else !followed && s1 == s0
    ensures Follows(g, field, s0, s1, followed)
  {
    hide GetMask, And, FirstIn, EndIn, IntersectMask, Clear, Full, WellFormed;
    var c := g[Input(g, s0, 1)].def;
    if c.Constant? && s0.bitsField.byteSize <= 8 && InUse(s0) {
      MaskFull(s0.bitsField, c.offset);
      MaskClear(s0.bitsField, c.offset);
      CoverEnds(s0.bitsUsed, c.offset);
      var p, n := PlaceOf(g, field, s0), s0.bitsField.numBits;
      if Full(c.offset, p.pos, p.pos + n) { FullHeld(c.offset, n, p); }
    }
  }

  lemma OrFollows(g: Graph, field: Option<Field>, s0: Snap, s1: Snap, followed: bool)
    requires DefinedBy(g, field, s0, IntOr)
    requires var in0, in1 := g[Input(g, s0, 0)], g[Input(g, s0, 1)];
      var mask := GetMask(s0.bitsField);
      var c0, c1 := And(in0.nzm, mask) == 0, And(in1.nzm, mask) == 0;
      if s0.bitsField.byteSize > 8 then !followed && s1 == s0
      else if c0 != c1 then followed && s1 == s0.(node := Some(Input(g, s0, if c0 then 1 else 0)))
      else if in1.def.Constant? && And(in1.nzm, mask) == mask then followed && s1 == s0.(node := Some(Input(g, s0, 1)))
      else !followed && s1 == s0
    ensures Follows(g, field, s0, s1, followed)
  {
    hide GetMask, And, Clear, Full, WellFormed;
    if s0.bitsField.byteSize <= 8 {
      MaskClear(s0.bitsField, g[Input(g, s0, 0)].nzm);
      MaskClear(s0.bitsField, g[Input(g, s0, 1)].nzm);
      MaskFull(s0.bitsField, g[Input(g, s0, 1)].nzm);
    }
  }

  lemma AddFollows(g: Graph, field: Option<Field>, s0: Snap, s1: Snap, followed: bool)
    requires DefinedBy(g, field, s0, IntAdd)
    requires var m0, m1 := g[Input(g, s0, 0)].nzm, g[Input(g, s0, 1)].nzm;
      var mask := GetMask(s0.bitsField);
      var c0, c1 := And(m0, mask) == 0, And(m1, mask) == 0;
      if s0.bitsField.byteSize > 8 || And(m0, m1) != 0 || c0 == c1 then !followed && s1 == s0
      else followed && s1 == s0.(node := Some(Input(g, s0, if c0 then 1 else 0)))
    ensures Follows(g, field, s0, s1, followed)
  {
    hide GetMask, And, Bit;
    if s0.bitsField.byteSize <= 8 {
      MaskClear(s0.bitsField, g[Input(g, s0, 0)].nzm);
      MaskClear(s0.bitsField, g[Input(g, s0, 1)].nzm);
      AndZero(g[Input(g, s0, 0)].nzm, g[Input(g, s0, 1)].nzm);
    }
  }

  /** The state when the field is found k bits lower in the input. */
  function MovedDown(g: Graph, s: Snap, k: int): Snap
    requires s.node.Some? && s.node.value < |g| && g[s.node.value].def.Written? && |g[s.node.value].def.ins| > 0
  {
    Snap(Some(Input(g, s, 0)), Shift(s.bitsField, 0 - k), Shift(s.bitsUsed, 0 - k))
  }

  lemma LeftFollows(g: Graph, field: Option<Field>, s0: Snap, s1: Snap, followed: bool)
    requires DefinedBy(g, field, s0, IntLeft)
    requires var c := g[Input(g, s0, 1)].def;
      if !c.Constant? || !(0 <= Int4(c.offset) < 64) then !followed && s1 == s0
      else
        var left := Shift(s0.bitsField, 0 - Int4(c.offset)).numBits;
        if left == s0.bitsField.numBits then followed && s1 == MovedDown(g, s0, Int4(c.offset))
        else if left == 0 then followed == field.Some? && s1 == s0.(node := None)
        else !followed && s1 == s0
    ensures Follows(g, field, s0, s1, followed)
  {
    hide Int4;
  }

  lemma MultFollows(g: Graph, field: Option<Field>, s0: Snap, s1: Snap, followed: bool)
    requires DefinedBy(g, field, s0, IntMult)
    requires var c := g[Input(g, s0, 1)].def;
      if !c.Constant? || PopCount(c.offset) != 1 || c.offset == 0 then !followed && s1 == s0
      else if Shift(s0.bitsField, 0 - LeastSet(c.offset)).numBits == s0.bitsField.numBits then
        followed && s1 == MovedDown(g, s0, LeastSet(c.offset))
      else !followed && s1 == s0
    ensures Follows(g, field, s0, s1, followed)
  {
    hide PopCount, LeastSet;
  }

  lemma RightFollows(g: Graph, field: Option<Field>, s0: Snap, s1: Snap, followed: bool)
    requires DefinedBy(g, field, s0, IntSright)
    requires var c := g[Input(g, s0, 1)].def;
      if !c.Constant? || !(0 <= Int4(c.offset) < 64) then !followed && s1 == s0
      else if Shift(s0.bitsField, Int4(c.offset)).numBits == s0.bitsField.numBits then
        followed && s1 == MovedDown(g, s0, 0 - Int4(c.offset))
      else !followed && s1 == s0
    ensures Follows(g, field, s0, s1, followed)
  {
    hide Int4;
  }

  lemma ZextFollows(g: Graph, field: Option<Field>, s0: Snap, s1: Snap, followed: bool)
    requires DefinedBy(g, field, s0, IntZext)
    requires var num := g[s0.node.value].size - g[Input(g, s0, 0)].size;
      var r := TruncateMostSigBytes(s0.bitsField, num);
      if r.numBits == s0.bitsField.numBits then
        followed && s1 == Snap(Some(Input(g, s0, 0)), r, TruncateMostSigBytes(s0.bitsUsed, num))
      else !followed && s1 == s0
    ensures Follows(g, field, s0, s1, followed)
  {
  }

  lemma SubpieceFollows(g: Graph, field: Option<Field>, s0: Snap, s1: Snap, followed: bool)
    requires DefinedBy(g, field, s0, Subpiece)
    requires var num := g[Input(g, s0, 0)].size - g[s0.node.value].size;
      var k := 8 * g[Input(g, s0, 1)].def.offset;
      var r := Shift(ExtendBytes(s0.bitsField, num), 0 - k);
      if r.numBits == s0.bitsField.numBits then
        followed && s1 == Snap(Some(Input(g, s0, 0)), r, Shift(ExtendBytes(s0.bitsUsed, num), 0 - k))
      else !followed && s1 == s0
    ensures Follows(g, field, s0, s1, followed)
  {
    hide Shift, ExtendBytes, WellFormed;
    if InUse(s0) {
      var num, k := g[Input(g, s0, 0)].size - g[s0.node.value].size, 8 * g[Input(g, s0, 1)].def.offset;
      ExtendedDown(s0.bitsField, num, k);
      ExtendedDown(s0.bitsUsed, num, k);
    }
  }

  /** A range moved k bits down in a larger container. */
  lemma ExtendedDown(r: BitRange, num: nat, k: nat)
    requires Contained(r)
    ensures var s := Shift(ExtendBytes(r, num), 0 - k);
      && s.byteSize == r.byteSize + num && Contained(s)
      && (r.leastSigBit + r.numBits > k ==>
            s.leastSigBit == Below(r.leastSigBit, k) && s.leastSigBit + s.numBits == r.leastSigBit + r.numBits - k)
      && (r.leastSigBit + r.numBits <= k ==> s.numBits == 0)
  {
  }

  /** No operator of these kinds is followed. */
  lemma OtherFollows(g: Graph, field: Option<Field>, s: Snap)
    requires WellFormed(g) && Shaped(g, field, s) && g[s.node.value].def.Written?
    requires g[s.node.value].def.code in {Zpull, Spull, OtherOp}
    ensures Follows(g, field, s, s, false)
  {
    hide WellFormed;
  }

  // ---------- the whole trace ----------

  /** The variable holds the original value, or is pulled from one that does. */
  ghost predicate AtOriginal(g: Graph, bases: set<nat>, found: Option<nat>, at: nat, v: nat, pos: nat, n: nat)
    requires WellFormed(g) && v < |g|
  {
    pos == at && (found == Some(v) || Pulls(g, bases, v, pos, n) || v in bases)
  }

  /** Where a trace that stands at s ends. */
  ghost function TraceOf(g: Graph, from: Sources, found: Option<nat>, at: nat, field: Option<Field>, s: Snap): Outcome
    requires WellFormed(g) && Shaped(g, field, s) && InUse(s)
  {
    Trace(g, from, found, at, field.Some?, s.bitsField.numBits, PlaceOf(g, field, s))
  }

  /** What a trace that stood at s has done; bytes is the size of the container it came to. */
  ghost predicate Concluded(g: Graph, from: Sources, found: Option<nat>, at: nat, field: Option<Field>, s: Snap,
                            res: bool, found': Option<nat>, grown: bool, bytes: int) {
    WellFormed(g) && Shaped(g, field, s) && InUse(s) ==>
      var end := TraceOf(g, from, found, at, field, s);
      && (res <==> !end.Lost?) && (grown <==> end.Recorded?) && (end.Lost? ==> end.bytes == bytes)
      && found' == if end.InOriginal? then Some(end.base) else found
  }

  /** A trace that stands at s goes on as one that stands at t. */
  ghost predicate GoesOn(g: Graph, from: Sources, found: Option<nat>, at: nat, field: Option<Field>, s: Snap, t: Snap) {
    WellFormed(g) && Shaped(g, field, s) && InUse(s) ==>
      Shaped(g, field, t) && InUse(t) && TraceOf(g, from, found, at, field, s) == TraceOf(g, from, found, at, field, t)
  }

  lemma GoesOnSame(g: Graph, from: Sources, found: Option<nat>, at: nat, field: Option<Field>, s: Snap)
    ensures GoesOn(g, from, found, at, field, s, s)
  {
  }

  lemma ThenConcluded(g: Graph, from: Sources, found: Option<nat>, at: nat, field: Option<Field>, s: Snap, t: Snap,
                      res: bool, found': Option<nat>, grown: bool, bytes: int)
    requires GoesOn(g, from, found, at, field, s, t)
    requires Concluded(g, from, found, at, field, t, res, found', grown, bytes)
    ensures Concluded(g, from, found, at, field, s, res, found', grown, bytes)
  {
    hide TraceOf;
  }

  lemma ThenGoesOn(g: Graph, from: Sources, found: Option<nat>, at: nat, field: Option<Field>, s: Snap, t: Snap,
                   u: Snap)
    requires GoesOn(g, from, found, at, field, s, t) && GoesOn(g, from, found, at, field, t, u)
    ensures GoesOn(g, from, found, at, field, s, u)
  {
    hide TraceOf;
  }

  lemma ConstantConcluded(g: Graph, from: Sources, found: Option<nat>, at: nat, field: Option<Field>, s: Snap,
                          res: bool)
    requires WellFormed(g) && Shaped(g, field, s) && g[s.node.value].def.Constant?
    requires res <==> field.Some? && s.bitsField.byteSize <= 8
    ensures Concluded(g, from, found, at, field, s, res, found, res, s.bitsField.byteSize)
  {
  }

  lemma OriginalConcluded(g: Graph, from: Sources, found: Option<nat>, at: nat, field: Option<Field>, s: Snap,
                          found': Option<nat>)
    requires WellFormed(g) && Shaped(g, field, s) && !g[s.node.value].def.Constant?
    requires AtOriginal(g, from.bases, found, at, s.node.value, s.bitsField.leastSigBit, s.bitsField.numBits)
    requires found' == if found == s.node then found
             else if Pulls(g, from.bases, s.node.value, s.bitsField.leastSigBit, s.bitsField.numBits)
               then Some(g[s.node.value].def.ins[0])
             else s.node
    ensures Concluded(g, from, found, at, field, s, true, found', false, s.bitsField.byteSize)
  {
    hide Pulls;
  }

  /** The trace stands at no constant and not at the original value. */
  ghost predicate Beyond(g: Graph, from: Sources, found: Option<nat>, at: nat, field: Option<Field>, s: Snap) {
    WellFormed(g) && Shaped(g, field, s) && !g[s.node.value].def.Constant? &&
        !AtOriginal(g, from.bases, found, at, s.node.value, s.bitsField.leastSigBit, s.bitsField.numBits)
  }

  predicate Aligned(field: Option<Field>, s: Snap) {
    field.Some? && s.bitsField.leastSigBit == 0 && s.bitsField.numBits == s.bitsUsed.numBits
  }

  lemma AlignedConcluded(g: Graph, from: Sources, found: Option<nat>, at: nat, field: Option<Field>, s: Snap)
    requires Beyond(g, from, found, at, field, s) && Aligned(field, s)
    ensures Concluded(g, from, found, at, field, s, true, found, true, s.bitsField.byteSize)
  {
    hide Pulls, Step, WellFormed;
  }

  lemma UnwrittenConcluded(g: Graph, from: Sources, found: Option<nat>, at: nat, field: Option<Field>, s: Snap)
    requires Beyond(g, from, found, at, field, s) && !Aligned(field, s) && !g[s.node.value].def.Written?
    ensures Concluded(g, from, found, at, field, s, false, found, false, s.bitsField.byteSize)
  {
    hide Pulls, Step, WellFormed;
  }

  lemma CallConcluded(g: Graph, from: Sources, found: Option<nat>, at: nat, field: Option<Field>, s: Snap)
    requires Beyond(g, from, found, at, field, s) && !Aligned(field, s) && g[s.node.value].def.Written?
    requires s.node.value in from.calls && s.bitsField.leastSigBit == at && found.None?
    ensures Concluded(g, from, found, at, field, s, true, s.node, false, s.bitsField.byteSize)
  {
    hide Pulls, Step, WellFormed;
  }

  /** Where the trace goes on depends on the operator that defines the variable. */
  ghost predicate AtOperator(g: Graph, from: Sources, found: Option<nat>, at: nat, field: Option<Field>, s: Snap) {
    && Beyond(g, from, found, at, field, s) && !Aligned(field, s) && g[s.node.value].def.Written?
    && !(s.node.value in from.calls && s.bitsField.leastSigBit == at && found.None?)
  }

  lemma AtWritten(g: Graph, from: Sources, found: Option<nat>, at: nat, field: Option<Field>, s: Snap)
    requires AtOperator(g, from, found, at, field, s)
    ensures s.node.Some? && s.node.value < |g| && g[s.node.value].def.Written?
  {
  }

  /** An operator was looked at. */
  lemma StepConcluded(g: Graph, from: Sources, found: Option<nat>, at: nat, field: Option<Field>, s0: Snap, s1: Snap,
                      followed: bool)
    requires AtOperator(g, from, found, at, field, s0) && Follows(g, field, s0, s1, followed)
    ensures followed && s1.node.Some? ==> GoesOn(g, from, found, at, field, s0, s1)
    ensures followed && s1.node.None? ==>
              Concluded(g, from, found, at, field, s0, true, found, true, s1.bitsField.byteSize)
    ensures !followed && field.None? ==>
              Concluded(g, from, found, at, field, s0, false, found, false, s1.bitsField.byteSize)
    ensures !followed && field.Some? && InUse(s0) ==>
              s1 == s0 && TraceOf(g, from, found, at, field, s0) == if g[s0.node.value].size <= 8 &&
                NoneBeside(g, s0.bitsField.numBits, PlaceOf(g, field, s0)) then Recorded
                    else Lost(g[s0.node.value].size)
  {
    hide Pulls, Step, NoneBeside, WellFormed;
  }

  lemma LastResortConcluded(g: Graph, from: Sources, found: Option<nat>, at: nat, field: Option<Field>, s: Snap,
                            res: bool)
    requires field.Some?
    requires WellFormed(g) && Shaped(g, field, s) && InUse(s) ==>
      TraceOf(g, from, found, at, field, s) == if g[s.node.value].size <= 8 &&
        NoneBeside(g, s.bitsField.numBits, PlaceOf(g, field, s)) then Recorded else Lost(g[s.node.value].size)
    requires WellFormed(g) && Shaped(g, field, s) && InUse(s) ==>
      (res <==> s.bitsField.byteSize <= 8 && NoneBeside(g, s.bitsField.numBits, PlaceOf(g, field, s)))
    ensures Concluded(g, from, found, at, field, s, res, found, res, s.bitsField.byteSize)
  {
    hide TraceOf, NoneBeside;
  }

  // ---------- all traces ----------

  ghost predicate StartsFit(g: Graph, starts: seq<Start>, mayGo: seq<bool>) {
    WellFormed(g) && |mayGo| == |starts| && forall i :: 0 <= i < |starts| ==> StartFits(g, starts[i])
  }

  /** The first n traces are done; found' is known to hold the original value, and there is a record if recorded. */
  ghost predicate TracedUpTo(g: Graph, from: Sources, found: Option<nat>, starts: seq<Start>, mayGo: seq<bool>, n: nat,
                             found': Option<nat>, recorded: bool) {
    && StartsFit(g, starts, mayGo) && n <= |starts| && found' == FoundAfter(g, from, found, starts, n)
    && (forall k :: 0 <= k < n ==>
          !Ending(g, from, found, starts, k).Lost? || LetGo(Ending(g, from, found, starts, k), starts[k], mayGo[k]))
    && (recorded <==> exists k :: 0 <= k < n && Ending(g, from, found, starts, k).Recorded?)
  }

  lemma NoneTraced(g: Graph, from: Sources, found: Option<nat>, starts: seq<Start>, mayGo: seq<bool>)
    requires StartsFit(g, starts, mayGo)
    ensures TracedUpTo(g, from, found, starts, mayGo, 0, found, false)
  {
  }

  lemma AllTracedAre(g: Graph, from: Sources, found: Option<nat>, starts: seq<Start>, mayGo: seq<bool>,
                     found': Option<nat>, recorded: bool)
    requires TracedUpTo(g, from, found, starts, mayGo, |starts|, found', recorded)
    ensures |mayGo| == |starts| && AllTraced(g, from, found, starts, mayGo) == recorded
  {
    hide Ending;
  }

  /** The state that the next trace starts in. */
  ghost predicate StartsIn(g: Graph, start: Start, s: Snap) {
    Shaped(g, start.field, s) && InUse(s) &&
        start == Start(start.field, s.bitsField.numBits, PlaceOf(g, start.field, s))
  }

  lemma OneMoreTraced(g: Graph, from: Sources, found: Option<nat>, starts: seq<Start>, mayGo: seq<bool>, n: nat,
                      s: Snap,
                      before: Option<nat>, recorded: bool, res: bool, after: Option<nat>, grown: bool, bytes: int)
    requires TracedUpTo(g, from, found, starts, mayGo, n, before, recorded) && n < |starts| && StartsIn(g, starts[n], s)
    requires Concluded(g, from, before, s.bitsField.leastSigBit, starts[n].field, s, res, after, grown, bytes)
    ensures if res || (mayGo[n] && starts[n].field.None? && bytes <= 8) then
              TracedUpTo(g, from, found, starts, mayGo, n + 1, after, recorded || grown)
            else !AllTraced(g, from, found, starts, mayGo)
  {
    hide Ending, FoundAfter, Concluded, WellFormed;
    EndingIs(g, from, found, starts, n, s, res, after, grown, bytes);
    FoundNext(g, from, found, starts, n);
  }

  /** The trace of state s is trace k. */
  lemma EndingIs(g: Graph, from: Sources, found: Option<nat>, starts: seq<Start>, k: nat, s: Snap, res: bool,
                 found': Option<nat>, grown: bool, bytes: int)
    requires WellFormed(g) && k < |starts| && forall i :: 0 <= i < |starts| ==> StartFits(g, starts[i])
    requires StartsIn(g, starts[k], s)
    requires Concluded(g, from, FoundAfter(g, from, found, starts, k), s.bitsField.leastSigBit, starts[k].field, s, res,
               found', grown, bytes)
    ensures var end := Ending(g, from, found, starts, k);
      && (res <==> !end.Lost?) && (grown <==> end.Recorded?) && (end.Lost? ==> end.bytes == bytes)
      && found' == if end.InOriginal? then Some(end.base) else FoundAfter(g, from, found, starts, k)
  {
    hide Trace, FoundAfter;
  }

  // ---------- two fields put together ----------

  lemma ThenNotLost(g: Graph, from: Sources, found: Option<nat>, at: nat, n: nat, p: Place)
    requires WellFormed(g) && Fits(g, n, p) && g[p.v].def.Written? && Step(g, n, p).To?
    requires Fits(g, n, Step(g, n, p).place) && !Trace(g, from, found, at, true, n, Step(g, n, p).place).Lost?
    ensures !Trace(g, from, found, at, true, n, p).Lost?
  {
    hide Step, Pulls, WellFormed;
  }

  /** A variable that holds the field at its low end, with nothing beside it that matters, ends a trace. */
  lemma AloneNotLost(g: Graph, from: Sources, found: Option<nat>, at: nat, n: nat, p: Place)
    requires WellFormed(g) && Fits(g, n, p) && g[p.v].size <= 8 && p.pos == p.lo == 0 && p.hi == n
    ensures !Trace(g, from, found, at, true, n, p).Lost?
  {
    hide Step, Pulls, WellFormed;
  }

  /** v is a masked part of x below bit k, and y shifted up by k, put together by an or. */
  ghost predicate TwoParts(g: Graph, v: nat, x: nat, y: nat, k: nat) {
    && WellFormed(g) && v < |g| && g[v].def.Written? && g[v].def.code == IntOr && Typed(g, v) && g[v].size <= 8
    && var a, b := g[v].def.ins[0], g[v].def.ins[1];
       && g[a].def.Written? && g[a].def.code == IntAnd && Typed(g, a) && g[a].def.ins[0] == x
       && g[b].def.Written? && g[b].def.code == IntLeft && Typed(g, b) && g[b].def.ins[0] == y
       && g[g[a].def.ins[1]].def == Constant(Pow2(k) - 1)
       && g[b].def.ins[1] < |g| && g[g[b].def.ins[1]].def == Constant(k)
       && 0 < k < 8 * g[v].size
       && Clear(g[b].nzm, 0, k) && !Clear(g[a].nzm, 0, k)
       && Clear(g[a].nzm, k, 8 * g[v].size) && !Clear(g[b].nzm, k, 8 * g[v].size)
  }

  /** Such a value can be traced: both its fields are found. */
  lemma TwoPartsTraced(g: Graph, from: Sources, found: Option<nat>, v: nat, x: nat, y: nat, k: nat)
    requires TwoParts(g, v, x, y, k)
    ensures var n := 8 * g[v].size;
      && Fits(g, k, Place(v, 0, 0, n)) && !Trace(g, from, found, 0, true, k, Place(v, 0, 0, n)).Lost?
      && Fits(g, n - k, Place(v, k, 0, n)) && !Trace(g, from, found, k, true, n - k, Place(v, k, 0, n)).Lost?
  {
    LowPartTraced(g, from, found, v, x, y, k);
    HighPartTraced(g, from, found, v, x, y, k);
  }

  lemma LowPartTraced(g: Graph, from: Sources, found: Option<nat>, v: nat, x: nat, y: nat, k: nat)
    requires TwoParts(g, v, x, y, k)
    ensures !Trace(g, from, found, 0, true, k, Place(v, 0, 0, 8 * g[v].size)).Lost?
  {
    hide Pow2, Bit, Clear, Int4, WellFormed, Trace;
    var n, a := 8 * g[v].size, g[v].def.ins[0];
    LowOnes(k, n);
    assert Step(g, k, Place(a, 0, 0, n)) == To(Place(x, 0, 0, k));
    AloneNotLost(g, from, found, 0, k, Place(x, 0, 0, k));
    ThenNotLost(g, from, found, 0, k, Place(a, 0, 0, n));
    assert Step(g, k, Place(v, 0, 0, n)) == To(Place(a, 0, 0, n));
    ThenNotLost(g, from, found, 0, k, Place(v, 0, 0, n));
  }

  /** The first k bits are the set ones. */
  lemma LowOnes(k: nat, n: nat)
    requires 0 < k < n
    ensures var c := Pow2(k) - 1; Full(c, 0, k) && FirstIn(c, 0, n) == 0 && EndIn(c, 0, n) == k
  {
    hide Pow2, Bit, FirstIn, EndIn;
    var c := Pow2(k) - 1;
    forall i: nat ensures Bit(c, i) <==> i < k { OnesBit(k, i); }
    assert Bit(c, 0) && Bit(c, k - 1);
  }

  lemma HighPartTraced(g: Graph, from: Sources, found: Option<nat>, v: nat, x: nat, y: nat, k: nat)
    requires TwoParts(g, v, x, y, k)
    ensures !Trace(g, from, found, k, true, 8 * g[v].size - k, Place(v, k, 0, 8 * g[v].size)).Lost?
  {
    hide Pow2, Bit, Clear, Int4, WellFormed, Trace;
    var n, b := 8 * g[v].size, g[v].def.ins[1];
    NarrowIsKept(k);
    assert Step(g, n - k, Place(b, k, 0, n)) == To(Place(y, 0, 0, n - k));
    AloneNotLost(g, from, found, k, n - k, Place(y, 0, 0, n - k));
    ThenNotLost(g, from, found, k, n - k, Place(b, k, 0, n));
    assert Step(g, n - k, Place(v, k, 0, n)) == To(Place(b, k, 0, n));
    ThenNotLost(g, from, found, k, n - k, Place(v, k, 0, n));
  }

  /** (x & 0xf) | (y << 4) in one byte; x and y are variables 0 and 1. */
  ghost function NibblesTogether(): Graph {
    [Varnode(1, Free, 0xff), Varnode(1, Free, 0xff), Varnode(1, Constant(0xf), 0xf), Varnode(1, Constant(4), 4),
     Varnode(1, Written(IntAnd, [0, 2]), 0xf), Varnode(1, Written(IntLeft, [1, 3]), 0xf0),
     Varnode(1, Written(IntOr, [4, 5]), 0xff)]
  }

  lemma NibbleBits()
    ensures Clear(0xf0, 0, 4) && !Clear(0xf, 0, 4) && Clear(0xf, 4, 8) && !Clear(0xf0, 4, 8)
  {
    assert Pow2(4) == 0x10 && Shl(0xf, 4) == 0xf0;
    hide Bit, Pow2, Shl;
    forall i: nat
      ensures Bit(0xf, i) <==> i < 4
      ensures Bit(0xf0, i) <==> 4 <= i < 8
    {
      OnesBit(4, i);
      ShlBit(0xf, 4, i);
      if i >= 4 { OnesBit(4, i - 4); }
    }
    assert Bit(0xf, 0) && Bit(0xf0, 4);
  }

  lemma NibblePowers()
    ensures Pow2(4) == 0x10 < Pow2(WORD)
  {
    assert Pow2(4) == 0x10;
    assert Pow2(8) == 0x100;
    Pow2Monotonic(8, 64);
  }

  lemma NibblesWellFormed()
    ensures WellFormed(NibblesTogether())
  {
    hide Pow2;
    NibblePowers();
  }

  lemma NibblesAreTwoParts()
    ensures TwoParts(NibblesTogether(), 6, 0, 1, 4)
  {
    hide Bit, Clear, Pow2, WellFormed;
    NibbleBits();
    NibblePowers();
    NibblesWellFormed();
  }
}
