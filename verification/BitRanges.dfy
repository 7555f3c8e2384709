/** Ranges of bits inside a byte container, under either byte order, and the bit utilities that go with them. */
module BitRanges {

  import opened Bits

  /** The bits [leastSigBit, leastSigBit + numBits) of the bytes [byteOffset, byteOffset + byteSize). */
  datatype BitRange = BitRange(byteOffset: int, byteSize: int, leastSigBit: int, numBits: int, bigEndian: bool)

  /** The width of uintb. */
  const UINTB_BITS: nat := 64

  // ---------- a range as a set of absolute bit positions ----------

  /** The absolute position of bit 0 of the container. With big endian bytes significance falls as addresses rise,
      so positions count from the end of the container. */
  function Origin(r: BitRange): int {
    if r.bigEndian then -8 * (r.byteOffset + r.byteSize) else 8 * r.byteOffset
  }

  predicate InRange(r: BitRange, p: int) {
    r.leastSigBit <= p - Origin(r) < r.leastSigBit + r.numBits
  }

  predicate InContainer(r: BitRange, p: int) {
    0 <= p - Origin(r) < 8 * r.byteSize
  }

  /** The range lies in its container. */
  predicate Contained(r: BitRange) {
    0 <= r.byteSize && 0 <= r.leastSigBit && 0 <= r.numBits && r.leastSigBit + r.numBits <= 8 * r.byteSize
  }

  // ---------- operations ----------

  /** op2 in a new container. */
  function MoveTo(op2: BitRange, off: int, sz: int): BitRange {
    var r := BitRange(off, sz, 0, op2.numBits, op2.bigEndian);
    r.(leastSigBit := TranslateLSB(r, op2))
  }

  function TranslateLSB(r: BitRange, op2: BitRange): int {
    if r.bigEndian then op2.leastSigBit + 8 * (r.byteOffset + r.byteSize - (op2.byteOffset + op2.byteSize))
    else op2.leastSigBit + 8 * (op2.byteOffset - r.byteOffset)
  }

  function OverlapTest(r: BitRange, op2: BitRange): int {
    var op2Sig := TranslateLSB(r, op2);
    var thisMost := r.leastSigBit + r.numBits;
    var op2Most := op2Sig + op2.numBits;
    if r.bigEndian && r.leastSigBit >= op2Most then -1
    else if r.bigEndian && op2Sig >= thisMost then 1
    else if !r.bigEndian && thisMost <= op2Sig then -1
    else if !r.bigEndian && op2Most <= r.leastSigBit then 1
    else if r.leastSigBit == op2Sig && thisMost == op2Most then 0
    else if op2Sig <= r.leastSigBit && op2Most >= thisMost then 2
    else if r.leastSigBit <= op2Sig && thisMost >= op2Most then 3
    else 4
  }

  /** Drops the bits below least and the bits from most on. */
  function Clip(r: BitRange, least: int, most: int): BitRange {
    var n := r.numBits - (if least > r.leastSigBit then least - r.leastSigBit else 0)
                       - (if most < r.leastSigBit + r.numBits then r.leastSigBit + r.numBits - most else 0);
    r.(leastSigBit := if least > r.leastSigBit then least else r.leastSigBit, numBits := n)
  }

  function Intersection(r: BitRange, op2: BitRange): BitRange {
    var op2Sig := TranslateLSB(r, op2);
    var s := Clip(r, op2Sig, op2Sig + op2.numBits);
    if s.numBits < 0 then s.(leastSigBit := 0, numBits := 0) else s
  }

  function Shift(r: BitRange, amount: int): BitRange {
    var least := r.leastSigBit + amount;
    var most := least + r.numBits;
    var s := if least < 0 then r.(leastSigBit := 0, numBits := r.numBits + least)
             else if most > r.byteSize * 8 then r.(leastSigBit := least, numBits := r.numBits - (most - r.byteSize * 8))
             else r.(leastSigBit := least);
    if s.numBits < 0 then s.(leastSigBit := 0, numBits := 0) else s
  }

  function TruncateMostSigBytes(r: BitRange, num: int): BitRange {
    var s := r.(byteOffset := if r.bigEndian then r.byteOffset + num else r.byteOffset, byteSize := r.byteSize - num);
    var maxOffset := s.leastSigBit + s.numBits;
    var n := if maxOffset > s.byteSize * 8 then s.numBits - (maxOffset - s.byteSize * 8) else s.numBits;
    s.(numBits := if n < 0 then 0 else n)
  }

  function TruncateLeastSigBytes(r: BitRange, num: int): BitRange {
    var s := r.(byteOffset := if r.bigEndian then r.byteOffset else r.byteOffset + num, byteSize := r.byteSize - num,
                leastSigBit := r.leastSigBit - num * 8);
    if s.leastSigBit >= 0 then s
    else s.(leastSigBit := 0, numBits := if s.numBits + s.leastSigBit < 0 then 0 else s.numBits + s.leastSigBit)
  }

  function ExtendBytes(r: BitRange, num: int): BitRange {
    r.(byteOffset := if r.bigEndian then r.byteOffset - num else r.byteOffset, byteSize := r.byteSize + num)
  }

  function MinimizeContainer(r: BitRange): BitRange
    requires Contained(r)
  {
    var trunc := r.leastSigBit / 8;
    var s := r.(byteSize := if r.bigEndian then r.byteSize - trunc else r.byteSize,
                byteOffset := if r.bigEndian then r.byteOffset
                    else r.byteOffset + trunc, leastSigBit := r.leastSigBit % 8);
    var num := s.byteSize - (s.leastSigBit + s.numBits + 7) / 8;
    if num > 0 then s.(byteOffset := if s.bigEndian then s.byteOffset + num
        else s.byteOffset, byteSize := s.byteSize - num) else s
  }

  function GetMask(r: BitRange): (m: nat)
    requires r.leastSigBit >= 0 && r.numBits >= 0
  {
    var res := if r.numBits >= UINTB_BITS then 0 else Pow2(r.numBits);
    var ones := if res == 0 then Pow2(UINTB_BITS) - 1 else res - 1;     // res - 1 wraps around
    Low(Shl(ones, r.leastSigBit), UINTB_BITS)
  }

  /** The least cover of the common bits. */
  function IntersectMask(r: BitRange, mask: nat): BitRange
    requires r.leastSigBit >= 0 && r.numBits >= 0
  {
    var m := And(mask, GetMask(r));
    if m == 0 then r.(leastSigBit := 0, numBits := 0) else Clip(r, LeastSet(m), MostSet(m) + 1)
  }

  // ---------- what they do to the set ----------

  lemma IntersectionIsIntersection(r: BitRange, s: BitRange, p: int)
    requires r.bigEndian == s.bigEndian && r.numBits >= 0 && s.numBits >= 0
    ensures InRange(Intersection(r, s), p) <==> InRange(r, p) && InRange(s, p)
    ensures Intersection(r, s).byteOffset == r.byteOffset && Intersection(r, s).byteSize == r.byteSize &&
              Intersection(r, s).numBits >= 0
  {
    assert p - Origin(s) + TranslateLSB(r, s) == p - Origin(r) + s.leastSigBit;
  }

  /** The code tells apart the ways two sets can lie;
      -1 and 1 say which of two disjoint ranges has the lower address. */
  lemma OverlapTestDecides(r: BitRange, s: BitRange)
    requires r.bigEndian == s.bigEndian && r.numBits > 0 && s.numBits > 0
    ensures var c := OverlapTest(r, s);
      && (c == -1 || c == 1 <==> forall p :: !(InRange(r, p) && InRange(s, p)))
      && (c == -1 ==> forall p, q :: InRange(r, p) && InRange(s, q) ==> if r.bigEndian then q < p else p < q)
      && (c == 1 ==> forall p, q :: InRange(r, p) && InRange(s, q) ==> if r.bigEndian then p < q else q < p)
      && (c == 0 <==> forall p :: InRange(r, p) <==> InRange(s, p))
      && (c == 0 || c == 2 <==> forall p :: InRange(r, p) ==> InRange(s, p))
      && (c == 0 || c == 3 <==> forall p :: InRange(s, p) ==> InRange(r, p))
      && -1 <= c <= 4
  {
    var r0, s0 := Origin(r) + r.leastSigBit, Origin(s) + s.leastSigBit;
    var r1, s1 := r0 + r.numBits - 1, s0 + s.numBits - 1;
    assert TranslateLSB(r, s) - r.leastSigBit == s0 - r0;
    assert InRange(r, r0) && InRange(r, r1) && InRange(s, s0) && InRange(s, s1);
    assert InRange(s, r0) <==> s0 <= r0 <= s1;
    assert InRange(r, s0) <==> r0 <= s0 <= r1;
    assert InRange(s, r1) <==> s0 <= r1 <= s1;
    assert InRange(r, s1) <==> r0 <= s1 <= r1;
  }

  /** Shifting moves every position, and loses the ones that leave the container. */
  lemma ShiftMoves(r: BitRange, k: int, p: int)
    requires Contained(r)
    ensures InRange(Shift(r, k), p) <==> InRange(r, p - k) && InContainer(r, p)
    ensures Contained(Shift(r, k)) && Shift(r, k).byteSize == r.byteSize && Origin(Shift(r, k)) == Origin(r)
  {
  }

  /** A shift is undone by the opposite shift exactly when no bit is lost. */
  lemma ShiftUndone(r: BitRange, k: int)
    requires Contained(r) && r.numBits > 0
    ensures Shift(Shift(r, k), -k) == r <==> Shift(r, k).numBits == r.numBits
    ensures Shift(r, k).numBits == r.numBits <==>
              0 <= r.leastSigBit + k && r.leastSigBit + k + r.numBits <= 8 * r.byteSize
  {
  }

  lemma TruncationIsIntersection(r: BitRange, num: nat, p: int)
    requires Contained(r) && num <= r.byteSize
    ensures var s := TruncateMostSigBytes(r, num);
      (InRange(s, p) <==> InRange(r, p) && InContainer(s, p)) && s.byteSize == r.byteSize - num
    ensures var s := TruncateLeastSigBytes(r, num);
      (InRange(s, p) <==> InRange(r, p) && InContainer(s, p)) && s.byteSize == r.byteSize - num
    ensures forall q :: InContainer(TruncateMostSigBytes(r, num), q) <==>
              InContainer(r, q) && q < Origin(r) + 8 * (r.byteSize - num)
    ensures forall q :: InContainer(TruncateLeastSigBytes(r, num), q) <==> InContainer(r, q) && q >= Origin(r) + 8 * num
  {
  }

  lemma ExtendKeepsSet(r: BitRange, num: nat, p: int)
    ensures InRange(ExtendBytes(r, num), p) <==> InRange(r, p)
    ensures InContainer(ExtendBytes(r, num), p) <==> 0 <= p - Origin(r) < 8 * (r.byteSize + num)
  {
  }

  /** The minimized container still holds the range, and no container holds it with fewer bytes. */
  lemma MinimizedIsLeast(r: BitRange, p: int, c: BitRange)
    requires Contained(r)
    ensures var s := MinimizeContainer(r);
      && (InRange(s, p) <==> InRange(r, p)) && Contained(s)
      && (r.numBits > 0 && c.bigEndian == r.bigEndian && (forall q :: InRange(r, q) ==> InContainer(c, q)) ==>
         s.byteSize <= c.byteSize)
  {
    if r.numBits > 0 && c.bigEndian == r.bigEndian && forall q :: InRange(r, q) ==> InContainer(c, q) {
      LeastBytes(r, c);
    }
  }

  /** A container that holds both ends of the range has at least the bytes of the minimized one. */
  lemma LeastBytes(r: BitRange, c: BitRange)
    requires Contained(r) && r.numBits > 0 && c.bigEndian == r.bigEndian
    requires forall q :: InRange(r, q) ==> InContainer(c, q)
    ensures MinimizeContainer(r).byteSize <= c.byteSize
  {
    var lo := Origin(r) + r.leastSigBit;
    var bytes := if r.bigEndian then r.byteOffset + r.byteSize - c.byteOffset - c.byteSize
      else c.byteOffset - r.byteOffset;
    assert InRange(r, lo) && InRange(r, lo + r.numBits - 1);
    assert InContainer(c, lo) && InContainer(c, lo + r.numBits - 1);
    BytesNeeded(r.leastSigBit, r.numBits, bytes, c.byteSize);
  }

  /** Bits low .. low + num - 1 inside size bytes that start bytes higher. */
  lemma BytesNeeded(low: int, num: int, bytes: int, size: int)
    requires 0 <= low - 8 * bytes && low + num - 1 - 8 * bytes < 8 * size
    ensures (low % 8 + num + 7) / 8 <= size
  {
    assert bytes <= low / 8;
    assert low % 8 + num <= 8 * size;
  }

  lemma {:induction false} MaskBit(r: BitRange, i: nat)
    requires r.leastSigBit >= 0 && r.numBits >= 0
    ensures Bit(GetMask(r), i) <==> r.leastSigBit <= i < r.leastSigBit + r.numBits && i < UINTB_BITS
  {
    var n := if r.numBits >= UINTB_BITS then UINTB_BITS else r.numBits;
    LowBit(Shl(Pow2(n) - 1, r.leastSigBit), UINTB_BITS, i);
    ShlBit(Pow2(n) - 1, r.leastSigBit, i);
    if i >= r.leastSigBit { OnesBit(n, i - r.leastSigBit); }
  }

  /** The result is the least range that holds the bits of the range that are also in the mask. */
  lemma {:induction false} MaskedIsLeastCover(r: BitRange, mask: nat, i: nat)
    requires Contained(r)
    ensures var s := IntersectMask(r, mask);
      && s.byteOffset == r.byteOffset && s.byteSize == r.byteSize && Contained(s)
      && (s.numBits == 0 <==> forall j: nat :: !(Bit(mask, j) && Bit(GetMask(r), j)))
      && (Bit(mask, i) && Bit(GetMask(r), i) ==> s.leastSigBit <= i < s.leastSigBit + s.numBits)
      && (s.numBits > 0 ==> Bit(mask, s.leastSigBit) && Bit(mask, s.leastSigBit + s.numBits - 1))
  {
    hide GetMask, And, Bit;
    var m := And(mask, GetMask(r));
    forall j: nat ensures Bit(m, j) <==> Bit(mask, j) && Bit(GetMask(r), j) {
      AndBit(mask, GetMask(r), j);
    }
    NoBitsOfZero();
    if m > 0 {
      MaskBit(r, LeastSet(m));
      MaskBit(r, MostSet(m));
      assert Bit(m, LeastSet(m)) && Bit(m, MostSet(m));
    }
  }

  // ---------- searching for a bit ----------

  /** Halves the width of the search. */
  method LeastSigBitSet(val0: nat) returns (res: int)
    requires val0 < Pow2(UINTB_BITS)
    ensures res == if val0 == 0 then -1 else LeastSet(val0)
  {
    hide Pow2, Shr, And, LeastSet;
    if val0 == 0 { return -1; }
    var val := val0;
    res := 0;
    var sz: nat := UINTB_BITS / 2;
    var mask: nat := Pow2(UINTB_BITS) - 1;
    ghost var width: nat := UINTB_BITS;
    BelowWidth(val0, UINTB_BITS);
    while sz != 0
      invariant val > 0 && 0 <= res && LeastSet(val) + res == LeastSet(val0) && LeastSet(val) < width
      invariant mask == Pow2(width) - 1
      invariant sz in {32, 16, 8, 4, 2, 1, 0} && width == if sz == 0 then 1 else 2 * sz
      decreases sz
    {
      OnesShifted(width, sz);
      mask := Shr(mask, sz);
      LowHalf(val, sz);
      if And(mask, val) == 0 {
        res := res + sz;
        val := Shr(val, sz);
      }
      width := sz;
      sz := sz / 2;
    }
  }

  lemma {:induction false} BelowWidth(v: nat, n: nat)
    requires 0 < v < Pow2(n)
    ensures LeastSet(v) < n
  {
    if LeastSet(v) >= n { SmallBits(v, n, LeastSet(v)); }
  }

  lemma {:induction false} OnesShifted(n: nat, k: nat)
    requires n == 2 * k
    ensures Shr(Pow2(n) - 1, k) == Pow2(k) - 1
  {
    var a, b := Shr(Pow2(n) - 1, k), Pow2(k) - 1;
    forall i: nat ensures Bit(a, i) == Bit(b, i) {
      ShrBit(Pow2(n) - 1, k, i);
      OnesBit(n, i + k);
      OnesBit(k, i);
    }
    EqualBits(a, b);
  }

  /** The k low bits of v are all zero exactly when its least bit is above them; shifting them out moves it down. */
  lemma {:induction false} LowHalf(v: nat, k: nat)
    requires v > 0
    ensures And(Pow2(k) - 1, v) == 0 <==> LeastSet(v) >= k
    ensures LeastSet(v) >= k ==> Shr(v, k) > 0 && LeastSet(Shr(v, k)) == LeastSet(v) - k
  {
    var l := LeastSet(v);
    AndZero(Pow2(k) - 1, v);
    if l < k {
      OnesBit(k, l);
    } else {
      forall i: nat ensures !(Bit(Pow2(k) - 1, i) && Bit(v, i)) { OnesBit(k, i); }
      ShrBit(v, k, l - k);
      NoBitsOfZero();
      var s := LeastSet(Shr(v, k));
      ShrBit(v, k, s);
      assert s + k >= l;
      assert s <= l - k;
    }
  }
}
