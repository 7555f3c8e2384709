/** Values of p-code variables: what the operators followed by the bit-field trace compute, bit by bit. */
module Pcode {

  import opened Bits

  datatype OpCode = Copy | IntAnd | IntOr | IntAdd | IntLeft | IntSright | IntZext | IntMult | Subpiece | Zpull |
      Spull | OtherOp

  datatype Def = Constant(offset: nat) | Free | Written(code: OpCode, ins: seq<nat>)

  /** A variable: its size in bytes, where it comes from, and the mask of bits that can be non-zero. */
  datatype Varnode = Varnode(size: nat, def: Def, nzm: nat)

  type Graph = seq<Varnode>

  const WORD: nat := 64

  // ---------- operators ----------

  function Left(a: nat, k: nat, size: nat): nat {
    if k >= 8 * size then 0 else Low(Shl(a, k), 8 * size)
  }

  function Sright(a: nat, k: nat, size: nat): nat
    requires size > 0
  {
    var n := 8 * size;
    if k >= n then (if Bit(a, n - 1) then Pow2(n) - 1 else 0)
    else if Bit(a, n - 1) then Or(Shr(a, k), Shl(Pow2(k) - 1, n - k))
    else Shr(a, k)
  }

  function SubpieceOf(a: nat, off: nat, size: nat): nat {
    Low(Shr(a, 8 * off), 8 * size)
  }

  /** Bits [pos, pos + num) of a. */
  function PullOf(a: nat, pos: nat, num: nat): nat {
    Low(Shr(a, pos), num)
  }

  /** The first numbits bits of val as a signed value, sign-extended to size bytes. */
  function ExtendSignbit(val: nat, numbits: nat, size: nat): nat {
    if numbits < 8 * size then
      var low := Low(val, numbits);
      if numbits > 0 && Bit(val, numbits - 1) then Or(low, Shl(Pow2(8 * size - numbits) - 1, numbits)) else low
    else val
  }

  function ZpullOf(a: nat, pos: nat, num: nat, size: nat): nat {
    Low(PullOf(a, pos, num), 8 * size)
  }

  function SpullOf(a: nat, pos: nat, num: nat, size: nat): nat {
    Low(ExtendSignbit(PullOf(a, pos, num), num, size), 8 * size)
  }

  /** base with bits [pos, pos + num) replaced by the low bits of v. */
  function Insert(base: nat, v: nat, pos: nat, num: nat): nat {
    var high := Shl(Shr(base, pos + num), pos + num);
    Or(Or(Low(base, pos), Shl(Low(v, num), pos)), high)
  }

  predicate FourBytes(d: Def) {
    d.Constant? && d.offset < 0x1_0000_0000
  }

  /** The number of inputs an operator has, and their sizes. */
  predicate Typed(g: Graph, i: nat)
    requires i < |g| && g[i].def.Written?
  {
    var d, n := g[i].def, g[i].size;
    && (forall k :: 0 <= k < |d.ins| ==> d.ins[k] < i)
    && match d.code
       case Copy => |d.ins| == 1 && g[d.ins[0]].size == n
       case IntZext => |d.ins| == 1 && g[d.ins[0]].size <= n
       case IntAnd => |d.ins| == 2 && g[d.ins[0]].size == n && g[d.ins[1]].size == n
       case IntOr => |d.ins| == 2 && g[d.ins[0]].size == n && g[d.ins[1]].size == n
       case IntAdd => |d.ins| == 2 && g[d.ins[0]].size == n && g[d.ins[1]].size == n
       case IntMult => |d.ins| == 2 && g[d.ins[0]].size == n && g[d.ins[1]].size == n
       case IntLeft => |d.ins| == 2 && g[d.ins[0]].size == n
       case IntSright => |d.ins| == 2 && g[d.ins[0]].size == n
       case Subpiece => |d.ins| == 2 && g[d.ins[1]].def.Constant? && g[d.ins[1]].def.offset + n <= g[d.ins[0]].size
       case Zpull => |d.ins| == 3 && FourBytes(g[d.ins[1]].def) && FourBytes(g[d.ins[2]].def)
       case Spull => |d.ins| == 3 && FourBytes(g[d.ins[1]].def) && FourBytes(g[d.ins[2]].def)
       case OtherOp => true
  }

  /** Every variable is defined from earlier ones; a constant is its own mask. */
  predicate WellFormed(g: Graph) {
    forall i: nat :: i < |g| ==>
      && g[i].size > 0
      && (g[i].def.Constant? ==> g[i].def.offset < Pow2(WORD) && g[i].nzm == g[i].def.offset)
      && (g[i].def.Written? ==> Typed(g, i))
  }

  ghost predicate Computed(g: Graph, val: seq<nat>, i: nat)
    requires WellFormed(g) && i < |g| == |val| && g[i].def.Written?
  {
    assert Typed(g, i);
    var ins, n := g[i].def.ins, g[i].size;
    match g[i].def.code
    case Copy => val[i] == val[ins[0]]
    case IntZext => val[i] == val[ins[0]]
    case IntAnd => val[i] == And(val[ins[0]], val[ins[1]])
    case IntOr => val[i] == Or(val[ins[0]], val[ins[1]])
    case IntAdd => val[i] == Low(val[ins[0]] + val[ins[1]], 8 * n)
    case IntMult => val[i] == Low(val[ins[0]] * val[ins[1]], 8 * n)
    case IntLeft => val[i] == Left(val[ins[0]], val[ins[1]], n)
    case IntSright => val[i] == Sright(val[ins[0]], val[ins[1]], n)
    case Subpiece => val[i] == SubpieceOf(val[ins[0]], val[ins[1]], n)
    case Zpull => val[i] == ZpullOf(val[ins[0]], val[ins[1]], val[ins[2]], n)
    case Spull => val[i] == SpullOf(val[ins[0]], val[ins[1]], val[ins[2]], n)
    case OtherOp => true
  }

  /** No bit of v outside the mask is set; masks only know the bits of a machine word. */
  ghost predicate Masked(v: nat, nzm: nat) {
    forall b: nat :: b < WORD && Bit(v, b) ==> Bit(nzm, b)
  }

  /** Values for all variables that fit their sizes, agree with the operators and respect the non-zero masks. */
  ghost predicate Valued(g: Graph, val: seq<nat>)
    requires WellFormed(g)
  {
    && |val| == |g|
    && forall i: nat :: i < |g| ==>
         && val[i] < Pow2(8 * g[i].size) && Masked(val[i], g[i].nzm)
         && (g[i].def.Constant? ==> val[i] == g[i].def.offset)
         && (g[i].def.Written? ==> Computed(g, val, i))
  }

  // ---------- one bit of each result ----------

  lemma LeftBit(a: nat, k: nat, size: nat, i: nat)
    requires i < 8 * size
    ensures Bit(Left(a, k, size), i) <==> i >= k && Bit(a, i - k)
  {
    if k >= 8 * size {
      ZeroHasNoBits(i);
    } else {
      LowBit(Shl(a, k), 8 * size, i);
      ShlBit(a, k, i);
    }
  }

  lemma SrightBit(a: nat, k: nat, size: nat, i: nat)
    requires size > 0 && i + k < 8 * size
    ensures Bit(Sright(a, k, size), i) == Bit(a, i + k)
  {
    var n := 8 * size;
    ShrBit(a, k, i);
    OrBit(Shr(a, k), Shl(Pow2(k) - 1, n - k), i);
    ShlBit(Pow2(k) - 1, n - k, i);
  }

  /** Bits moved in from above are copies of the sign bit. */
  lemma SrightSign(a: nat, k: nat, size: nat, i: nat)
    requires size > 0 && i < 8 * size <= i + k && a < Pow2(8 * size)
    ensures Bit(Sright(a, k, size), i) == Bit(a, 8 * size - 1)
  {
    var n := 8 * size;
    if k >= n {
      OnesBit(n, i);
      ZeroHasNoBits(i);
    } else {
      ShrBit(a, k, i);
      SmallBits(a, n, i + k);
      OrBit(Shr(a, k), Shl(Pow2(k) - 1, n - k), i);
      ShlBit(Pow2(k) - 1, n - k, i);
      OnesBit(k, i - (n - k));
    }
  }

  lemma SubpieceBit(a: nat, off: nat, size: nat, i: nat)
    requires i < 8 * size
    ensures Bit(SubpieceOf(a, off, size), i) == Bit(a, i + 8 * off)
  {
    LowBit(Shr(a, 8 * off), 8 * size, i);
    ShrBit(a, 8 * off, i);
  }

  lemma PullBit(a: nat, pos: nat, num: nat, i: nat)
    ensures Bit(PullOf(a, pos, num), i) <==> i < num && Bit(a, pos + i)
  {
    LowBit(Shr(a, pos), num, i);
    ShrBit(a, pos, i);
  }

  lemma ZpullBit(a: nat, pos: nat, num: nat, size: nat, i: nat)
    requires i < 8 * size
    ensures Bit(ZpullOf(a, pos, num, size), i) <==> i < num && Bit(a, pos + i)
  {
    LowBit(PullOf(a, pos, num), 8 * size, i);
    PullBit(a, pos, num, i);
  }

  /** Above the field every bit is its sign bit. */
  lemma SpullBit(a: nat, pos: nat, num: nat, size: nat, i: nat)
    requires i < 8 * size && num > 0
    ensures Bit(SpullOf(a, pos, num, size), i) <==> Bit(a, pos + if i < num then i else num - 1)
  {
    var v := PullOf(a, pos, num);
    LowBit(ExtendSignbit(v, num, size), 8 * size, i);
    PullBit(a, pos, num, i);
    PullBit(a, pos, num, num - 1);
    if num < 8 * size {
      var ones := Pow2(8 * size - num) - 1;
      LowBit(v, num, i);
      OrBit(Low(v, num), Shl(ones, num), i);
      ShlBit(ones, num, i);
      if i >= num { OnesBit(8 * size - num, i - num); }
    }
  }

  /** Multiplying by a power of two shifts. */
  lemma MultBit(a: nat, k: nat, size: nat, i: nat)
    requires i < 8 * size
    ensures Bit(Low(a * Pow2(k), 8 * size), i) <==> i >= k && Bit(a, i - k)
  {
    LowBit(Shl(a, k), 8 * size, i);
    ShlBit(a, k, i);
  }

  /** With no bit in common there is no carry. */
  lemma AddBit(a: nat, b: nat, size: nat, i: nat)
    requires Disjoint(a, b) && i < 8 * size
    ensures Bit(Low(a + b, 8 * size), i) <==> Bit(a, i) || Bit(b, i)
  {
    AddIsOr(a, b);
    OrBit(a, b, i);
    LowBit(a + b, 8 * size, i);
  }

  lemma InsertBit(base: nat, v: nat, pos: nat, num: nat, i: nat)
    ensures Bit(Insert(base, v, pos, num), i) <==> if pos <= i < pos + num then Bit(v, i - pos) else Bit(base, i)
  {
    var high := Shl(Shr(base, pos + num), pos + num);
    var mid := Shl(Low(v, num), pos);
    OrBit(Or(Low(base, pos), mid), high, i);
    OrBit(Low(base, pos), mid, i);
    LowBit(base, pos, i);
    ShlBit(Low(v, num), pos, i);
    if i >= pos { LowBit(v, num, i - pos); }
    ShlBit(Shr(base, pos + num), pos + num, i);
    if i >= pos + num { ShrBit(base, pos + num, i - (pos + num)); }
  }
}
