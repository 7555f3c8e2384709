/** The operators that BitFieldInsertTransform::apply puts in place of the write, and what they leave behind. */
module InsertOps {

  import opened Wrappers
  import opened Bits
  import opened Pcode
  import opened BitFields

  /** An input of an operator: not set, the value that was stored before, the constant zero, the original value of the
      structure, or what another operator put out. */
  datatype Input = Unset | Root | Zero | Original | Out(id: nat)

  /** A LOAD or a STORE at the address of the structure, or an INSERT of what a record says. */
  datatype Operator = Load(id: nat) | Insertion(id: nat, base: Input, rec: InsertRecord) | Store(value: Input)

  /** The bytes at the address, and the values put out so far. */
  datatype Machine = Machine(mem: nat, outs: map<nat, nat>)

  /** The values that do not change while the operators run. */
  datatype Given = Given(root: nat, original: nat, val: seq<nat>)

  function Read(x: Input, m: Machine, v: Given): nat {
    match x
    case Unset => 0
    case Root => v.root
    case Zero => 0
    case Original => v.original
    case Out(id) => if id in m.outs then m.outs[id] else 0
  }

  /** base with the record's value in its field. */
  function Inserted(base: nat, rec: InsertRecord, val: seq<nat>): nat {
    Insert(base, Shr(RecordValue(rec, val), rec.shiftAmount), rec.pos, rec.numBits)
  }

  function Step(op: Operator, m: Machine, v: Given): Machine {
    match op
    case Load(id) => m.(outs := m.outs[id := m.mem])
    case Insertion(id, base, rec) => m.(outs := m.outs[id := Inserted(Read(base, m, v), rec, v.val)])
    case Store(value) => m.(mem := Read(value, m, v))
  }

  function Run(ops: seq<Operator>, m: Machine, v: Given): Machine {
    if ops == [] then m else Run(ops[1..], Step(ops[0], m, v), v)
  }

  function Put(ops: seq<Operator>, i: nat, op: Operator): seq<Operator>
    requires i <= |ops|
  {
    ops[..i] + [op] + ops[i..]
  }

  lemma {:induction false} RunBoth(a: seq<Operator>, b: seq<Operator>, m: Machine, v: Given)
    ensures Run(a + b, m, v) == Run(b, Run(a, m, v), v)
  {
    if a == [] {
      assert a + b == b;
    } else {
      assert (a + b)[0] == a[0] && (a + b)[1..] == a[1..] + b;
      RunBoth(a[1..], b, Step(a[0], m, v), v);
    }
  }

  // ---------- the order in which records are written ----------

  function Backward(recs: seq<InsertRecord>): (r: seq<InsertRecord>)
    ensures |r| == |recs| && forall k :: 0 <= k < |recs| ==> r[k] == recs[|recs| - 1 - k]
  {
    if recs == [] then [] else [recs[|recs| - 1]] + Backward(recs[..|recs| - 1])
  }

  lemma {:induction false} InsertBoth(base: nat, a: seq<InsertRecord>, b: seq<InsertRecord>, val: seq<nat>)
    ensures InsertAll(base, a + b, val) == InsertAll(InsertAll(base, a, val), b, val)
  {
    if b == [] {
      assert a + b == a;
    } else {
      var c := b[..|b| - 1];
      assert (a + b)[..|a + b| - 1] == a + c;
      InsertBoth(base, a, c, val);
    }
  }

  lemma InsertOne(base: nat, rec: InsertRecord, val: seq<nat>)
    ensures InsertAll(base, [rec], val) == Inserted(base, rec, val)
  {
    assert [rec][..0] == [];
  }

  /** The rest of the records is written last one first. */
  lemma FirstThenBackward(base: nat, recs: seq<InsertRecord>, val: seq<nat>)
    requires recs != []
    ensures InsertAll(base, Backward(recs), val) ==
              InsertAll(Inserted(base, recs[|recs| - 1], val), Backward(recs[..|recs| - 1]), val)
  {
    InsertBoth(base, [recs[|recs| - 1]], Backward(recs[..|recs| - 1]), val);
    InsertOne(base, recs[|recs| - 1], val);
  }

  // ---------- the operators for a STORE ----------

  /** What is added for a record behind the first: its own STORE, with its own LOAD if there is one to copy. */
  function Group(rec: InsertRecord, k: nat, load: bool): seq<Operator> {
    if load then [Load(2 * k), Insertion(2 * k + 1, Out(2 * k), rec), Store(Out(2 * k + 1))]
    else [Insertion(2 * k + 1, Zero, rec), Store(Out(2 * k + 1))]
  }

  /** All of them, newest first, since each goes right behind the first STORE. */
  function Groups(recs: seq<InsertRecord>, load: bool): seq<Operator> {
    if |recs| <= 1 then [] else Group(recs[|recs| - 1], |recs| - 1, load) + Groups(recs[..|recs| - 1], load)
  }

  function FirstGroup(rec: InsertRecord, load: bool): seq<Operator> {
    [Insertion(1, if load then Original else Zero, rec), Store(Out(1))]
  }

  function StoreOps(recs: seq<InsertRecord>, load: bool): seq<Operator> {
    if recs == [] then [Store(Root)] else FirstGroup(recs[0], load) + Groups(recs, load)
  }

  lemma OneGroup(recs: seq<InsertRecord>, load: bool)
    requires recs != []
    ensures StoreOps(recs[..1], load) == FirstGroup(recs[0], load)
  {
    assert recs[..1] == [recs[0]];
  }

  lemma OneMoreGroup(recs: seq<InsertRecord>, k: nat, load: bool)
    requires 0 < k < |recs|
    ensures var b := StoreOps(recs[..k], load);
      |b| >= 2 && StoreOps(recs[..k + 1], load) == b[..2] + Group(recs[k], k, load) + b[2..]
  {
    var first, more, a := FirstGroup(recs[0], load), Groups(recs[..k], load), recs[..k + 1];
    assert |first| == 2;
    hide Group, FirstGroup;
    assert a[..|a| - 1] == recs[..k] && a[|a| - 1] == recs[k] && recs[..k][0] == a[0] == recs[0];
    assert StoreOps(recs[..k], load) == first + more;
    assert Groups(a, load) == Group(recs[k], k, load) + more;
    hide Groups;
    assert (first + more)[..2] == first && (first + more)[2..] == more;
  }

  /** A group built from its STORE forwards, behind the first two operators. */
  lemma PutGroup(b: seq<Operator>, rec: InsertRecord, k: nat, load: bool)
    requires |b| >= 2
    ensures var store := Put(b, 2, Store(Unset));
      var loaded := if load then Put(store, 2, Load(2 * k)) else store;
      var at := if load then 3 else 2;
      Put(loaded[at := Store(Out(2 * k + 1))], at, Insertion(2 * k + 1, if load then Out(2 * k) else Zero, rec)) ==
        b[..2] + Group(rec, k, load) + b[2..]
  {
    var store := Put(b, 2, Store(Unset));
    if load {
      var loaded := Put(store, 2, Load(2 * k));
      assert loaded == b[..2] + [Load(2 * k), Store(Unset)] + b[2..];
      assert loaded[3 := Store(Out(2 * k + 1))] == b[..2] + [Load(2 * k), Store(Out(2 * k + 1))] + b[2..];
    } else {
      assert store[2 := Store(Out(2 * k + 1))] == b[..2] + [Store(Out(2 * k + 1))] + b[2..];
    }
  }

  lemma FirstGroupRuns(rec: InsertRecord, load: bool, m: Machine, v: Given)
    ensures Run(FirstGroup(rec, load), m, v).mem == Inserted(if load then v.original else 0, rec, v.val)
  {
    var ops := FirstGroup(rec, load);
    var m1 := Step(ops[0], m, v);
    assert ops[1..] == [ops[1]] && [ops[1]][1..] == [];
    assert Run([ops[1]], m1, v) == Step(ops[1], m1, v);
  }

  lemma GroupRuns(rec: InsertRecord, k: nat, load: bool, m: Machine, v: Given)
    ensures Run(Group(rec, k, load), m, v).mem == Inserted(if load then m.mem else 0, rec, v.val)
  {
    var ops := Group(rec, k, load);
    if load {
      assert ops[1..] == [ops[1], ops[2]] && [ops[1], ops[2]][1..] == [ops[2]] && [ops[2]][1..] == [];
      var m1 := Step(ops[0], m, v);
      var m2 := Step(ops[1], m1, v);
      assert Run([ops[2]], m2, v) == Step(ops[2], m2, v);
      assert Run([ops[1], ops[2]], m1, v) == Run([ops[2]], m2, v);
    } else {
      assert ops[1..] == [ops[1]] && [ops[1]][1..] == [];
      var m1 := Step(ops[0], m, v);
      assert Run([ops[1]], m1, v) == Step(ops[1], m1, v);
    }
  }

  lemma {:induction false} GroupsRun(recs: seq<InsertRecord>, load: bool, m: Machine, v: Given)
    requires recs != []
    ensures load ==> Run(Groups(recs, load), m, v).mem == InsertAll(m.mem, Backward(recs[1..]), v.val)
    ensures !load ==> Run(Groups(recs, load), m, v).mem == if |recs| == 1 then m.mem else Inserted(0, recs[1], v.val)
  {
    if |recs| > 1 {
      var n := |recs| - 1;
      var group := Group(recs[n], n, load);
      var m1 := Run(group, m, v);
      GroupRuns(recs[n], n, load, m, v);
      RunBoth(group, Groups(recs[..n], load), m, v);
      GroupsRun(recs[..n], load, m1, v);
      FirstThenBackward(m.mem, recs[1..], v.val);
      assert recs[1..][..n - 1] == recs[..n][1..];
    }
  }

  /** With a LOAD to copy, every record ends up in memory. */
  lemma StoresWithLoad(recs: seq<InsertRecord>, m: Machine, v: Given)
    requires recs != []
    ensures Run(StoreOps(recs, true), m, v).mem == InsertAll(v.original, [recs[0]] + Backward(recs[1..]), v.val)
  {
    var m1 := Run(FirstGroup(recs[0], true), m, v);
    FirstGroupRuns(recs[0], true, m, v);
    RunBoth(FirstGroup(recs[0], true), Groups(recs, true), m, v);
    GroupsRun(recs, true, m1, v);
    InsertBoth(v.original, [recs[0]], Backward(recs[1..]), v.val);
    InsertOne(v.original, recs[0], v.val);
  }

  /** The record whose STORE comes last. */
  function LastStored(recs: seq<InsertRecord>): nat
    requires recs != []
  {
    if |recs| == 1 then 0 else 1
  }

  /** Without one, every STORE starts from zero, and only the last is left. */
  lemma StoresWithoutLoad(recs: seq<InsertRecord>, m: Machine, v: Given)
    requires recs != []
    ensures Run(StoreOps(recs, false), m, v).mem == Inserted(0, recs[LastStored(recs)], v.val)
  {
    var m1 := Run(FirstGroup(recs[0], false), m, v);
    FirstGroupRuns(recs[0], false, m, v);
    RunBoth(FirstGroup(recs[0], false), Groups(recs, false), m, v);
    GroupsRun(recs, false, m1, v);
  }

  // ---------- the operators for a mapped variable ----------

  /** A chain of INSERTs, each based on the one before it; the last one, number 0, puts out the variable. */
  function Links(recs: seq<InsertRecord>, base: Input): seq<Operator>
    requires recs != []
  {
    var n := |recs| - 1;
    if n == 0 then [Insertion(0, base, recs[0])]
    else [Insertion(n, base, recs[n])] + Links(recs[..n], Out(n))
  }

  /** The first operator of the chain gets another base. */
  lemma Rebased(recs: seq<InsertRecord>, base: Input, other: Input)
    requires recs != []
    ensures var ops := Links(recs, base);
      |ops| > 0 && ops[0].Insertion? && [ops[0].(base := other)] + ops[1..] == Links(recs, other)
  {
  }

  lemma {:induction false} LinksRun(recs: seq<InsertRecord>, base: Input, m: Machine, v: Given)
    requires recs != []
    ensures var r := Run(Links(recs, base), m, v);
      0 in r.outs && r.outs[0] == InsertAll(Read(base, m, v), Backward(recs), v.val)
  {
    var n := |recs| - 1;
    var ops := Links(recs, base);
    var m1 := Step(ops[0], m, v);
    FirstThenBackward(Read(base, m, v), recs, v.val);
    if n > 0 {
      assert ops[1..] == Links(recs[..n], Out(n));
      LinksRun(recs[..n], Out(n), m1, v);
    } else {
      assert ops[1..] == [];
    }
  }

  // ---------- what is left of the value ----------

  /** The fields of the records follow each other. */
  ghost predicate Ascending(recs: seq<InsertRecord>) {
    forall j, k :: 0 <= j < k < |recs| ==> recs[j].pos + recs[j].numBits <= recs[k].pos
  }

  ghost predicate AllRecordsRight(root: nat, recs: seq<InsertRecord>, val: seq<nat>) {
    forall k :: 0 <= k < |recs| ==> RecordRight(root, recs[k], val)
  }

  /** In whatever order right records are written, the value is the same. */
  lemma OrderAside(base: nat, a: seq<InsertRecord>, b: seq<InsertRecord>, val: seq<nat>, root: nat)
    requires AllRecordsRight(root, a, val) && forall rec :: rec in a <==> rec in b
    ensures InsertAll(base, a, val) == InsertAll(base, b, val)
  {
    forall k | 0 <= k < |b| ensures RecordRight(root, b[k], val) { assert b[k] in a; }
    forall i: nat ensures Bit(InsertAll(base, a, val), i) <==> Bit(InsertAll(base, b, val), i) {
      InsertAllBit(base, a, val, root, i);
      InsertAllBit(base, b, val, root, i);
      if Covered(a, i) {
        var k :| 0 <= k < |a| && a[k].pos <= i < a[k].pos + a[k].numBits;
        assert a[k] in b;
      }
      if Covered(b, i) {
        var k :| 0 <= k < |b| && b[k].pos <= i < b[k].pos + b[k].numBits;
        assert b[k] in a;
      }
    }
    EqualBits(InsertAll(base, a, val), InsertAll(base, b, val));
  }

  lemma BackwardMembers(recs: seq<InsertRecord>)
    requires recs != []
    ensures forall rec :: rec in recs <==> rec in Backward(recs)
    ensures forall rec :: rec in recs <==> rec in [recs[0]] + Backward(recs[1..])
  {
    var b, c := Backward(recs), [recs[0]] + Backward(recs[1..]);
    forall rec | rec in recs ensures rec in b && rec in c {
      var k :| 0 <= k < |recs| && recs[k] == rec;
      assert b[|recs| - 1 - k] == rec;
      assert c[if k == 0 then 0 else |recs| - k] == rec;
    }
  }

  /** The record puts no bit into its field. */
  predicate WritesZero(rec: InsertRecord, val: seq<nat>) {
    Inserted(0, rec, val) == 0
  }

  lemma OneRecordBit(rec: InsertRecord, val: seq<nat>, root: nat, i: nat)
    requires RecordRight(root, rec, val)
    ensures Bit(Inserted(0, rec, val), i) <==> rec.pos <= i < rec.pos + rec.numBits && Bit(root, i)
  {
    InsertOne(0, rec, val);
    InsertAllBit(0, [rec], val, root, i);
    ZeroHasNoBits(i);
    if rec.pos <= i < rec.pos + rec.numBits { assert [rec][0] == rec; }
  }

  lemma OthersAreZero(recs: seq<InsertRecord>, last: nat, val: seq<nat>, root: nat, k: nat)
    requires last < |recs| && k < |recs| && k != last && Ascending(recs) && AllRecordsRight(root, recs, val)
    requires Inserted(0, recs[last], val) == root
    ensures WritesZero(recs[k], val)
  {
    hide Inserted, RecordRight;
    forall i: nat ensures Bit(Inserted(0, recs[k], val), i) <==> Bit(0, i) {
      OneRecordBit(recs[k], val, root, i);
      OneRecordBit(recs[last], val, root, i);
      ZeroHasNoBits(i);
    }
    EqualBits(Inserted(0, recs[k], val), 0);
  }

  lemma LastHasAll(recs: seq<InsertRecord>, last: nat, val: seq<nat>, root: nat)
    requires last < |recs| && AllRecordsRight(root, recs, val) && root == InsertAll(0, recs, val)
    requires forall k :: 0 <= k < |recs| && k != last ==> WritesZero(recs[k], val)
    ensures Inserted(0, recs[last], val) == root
  {
    hide Inserted, RecordRight, InsertAll;
    forall i: nat ensures Bit(Inserted(0, recs[last], val), i) <==> Bit(root, i) {
      OneRecordBit(recs[last], val, root, i);
      InsertAllBit(0, recs, val, root, i);
      ZeroHasNoBits(i);
      if Bit(root, i) {
        var k :| 0 <= k < |recs| && recs[k].pos <= i < recs[k].pos + recs[k].numBits;
        OneRecordBit(recs[k], val, root, i);
      }
    }
    EqualBits(Inserted(0, recs[last], val), root);
  }

  /** The last STORE alone gives the value of all records exactly when all others write zero. */
  lemma LastAloneIsRight(recs: seq<InsertRecord>, last: nat, val: seq<nat>, root: nat)
    requires last < |recs| && Ascending(recs) && AllRecordsRight(root, recs, val) && root == InsertAll(0, recs, val)
    ensures Inserted(0, recs[last], val) == root <==>
              forall k :: 0 <= k < |recs| && k != last ==> WritesZero(recs[k], val)
  {
    hide WritesZero, Inserted, Ascending, AllRecordsRight;
    if Inserted(0, recs[last], val) == root {
      forall k | 0 <= k < |recs| && k != last ensures WritesZero(recs[k], val) {
        OthersAreZero(recs, last, val, root, k);
      }
    }
    if forall k :: 0 <= k < |recs| && k != last ==> WritesZero(recs[k], val) {
      LastHasAll(recs, last, val, root);
    }
  }

  /** Records with fields apart from each other are right for the value they build. */
  lemma {:induction false} ChainIsRight(base: nat, recs: seq<InsertRecord>, val: seq<nat>)
    requires Ascending(recs) && forall k :: 0 <= k < |recs| && recs[k].vn.Some? ==> recs[k].vn.value < |val|
    ensures AllRecordsRight(InsertAll(base, recs, val), recs, val)
  {
    if recs != [] {
      var n := |recs| - 1;
      var rest, all := InsertAll(base, recs[..n], val), InsertAll(base, recs, val);
      ChainIsRight(base, recs[..n], val);
      var v := Shr(RecordValue(recs[n], val), recs[n].shiftAmount);
      forall k | 0 <= k < |recs| ensures RecordRight(all, recs[k], val) {
        forall i: nat | recs[k].pos <= i < recs[k].pos + recs[k].numBits
          ensures Bit(all, i) <==> Bit(RecordValue(recs[k], val), i - recs[k].pos + recs[k].shiftAmount)
        {
          InsertBit(rest, v, recs[n].pos, recs[n].numBits, i);
          if k == n {
            ShrBit(RecordValue(recs[n], val), recs[n].shiftAmount, i - recs[n].pos);
          } else {
            assert RecordRight(rest, recs[..n][k], val);
          }
        }
      }
    }
  }

  /** The record writes zero whatever the values: it has no bits, or is a constant without any in the field. */
  predicate AlwaysZero(rec: InsertRecord) {
    rec.numBits == 0 || (rec.vn.None? && WritesZero(rec, []))
  }

  lemma AlwaysMeansNow(rec: InsertRecord, val: seq<nat>)
    requires AlwaysZero(rec)
    ensures WritesZero(rec, val)
  {
    if rec.numBits == 0 {
      forall i: nat ensures Bit(Inserted(0, rec, val), i) <==> Bit(0, i) {
        InsertBit(0, Shr(RecordValue(rec, val), rec.shiftAmount), rec.pos, rec.numBits, i);
      }
      EqualBits(Inserted(0, rec, val), 0);
    }
  }

  /** Values for which a variable's record writes a bit. */
  function SomeBit(rec: InsertRecord, n: nat): (val: seq<nat>)
    ensures |val| == n
  {
    seq(n, i => if rec.vn == Some(i) then Pow2(rec.shiftAmount) else 0)
  }

  lemma NotAlways(rec: InsertRecord, n: nat)
    requires (rec.vn.Some? ==> rec.vn.value < n) && !AlwaysZero(rec)
    ensures !WritesZero(rec, SomeBit(rec, n))
  {
    if rec.vn.Some? {
      var v := RecordValue(rec, SomeBit(rec, n));
      assert v == Pow2(rec.shiftAmount);
      InsertBit(0, Shr(v, rec.shiftAmount), rec.pos, rec.numBits, rec.pos);
      ShrBit(v, rec.shiftAmount, 0);
      Pow2Bit(rec.shiftAmount, rec.shiftAmount);
      ZeroHasNoBits(rec.pos);
    }
  }

  /** For all values of the variables: exactly when all records but the last stored one are constants that are zero. */
  lemma LastAloneIsAlwaysRight(recs: seq<InsertRecord>, last: nat, n: nat)
    requires last < |recs| && Ascending(recs)
    requires forall k :: 0 <= k < |recs| && recs[k].vn.Some? ==> recs[k].vn.value < n
    ensures (forall val: seq<nat> :: |val| == n ==> Inserted(0, recs[last], val) == InsertAll(0, recs, val)) <==>
              forall k :: 0 <= k < |recs| && k != last ==> AlwaysZero(recs[k])
  {
    hide WritesZero, Inserted, Ascending, AllRecordsRight, AlwaysZero, InsertAll, SomeBit;
    forall val: seq<nat> | |val| == n
      ensures Inserted(0, recs[last], val) == InsertAll(0, recs, val) <==>
                forall k :: 0 <= k < |recs| && k != last ==> WritesZero(recs[k], val)
    {
      ChainIsRight(0, recs, val);
      LastAloneIsRight(recs, last, val, InsertAll(0, recs, val));
    }
    if forall k :: 0 <= k < |recs| && k != last ==> AlwaysZero(recs[k]) {
      forall val: seq<nat>, k | 0 <= k < |recs| && k != last ensures WritesZero(recs[k], val) {
        AlwaysMeansNow(recs[k], val);
      }
    } else {
      var k :| 0 <= k < |recs| && k != last && !AlwaysZero(recs[k]);
      NotAlways(recs[k], n);
      assert |SomeBit(recs[k], n)| == n;
    }
  }

  // ---------- two fields of four bits ----------

  const LOW_FIELD := InsertRecord(Some(0), 0, 0, 4, 0)
  const HIGH_FIELD := InsertRecord(Some(1), 0, 4, 4, 0)

  /** *p = (x & 15) | (y << 4) with x == 3 and y == 5, the old value of *p not loaded: 0x53 is to be stored, 0x50 is. */
  lemma TwoFieldsStored(m: Machine, v: Given)
    requires v.val == [3, 5]
    ensures InsertAll(0, [LOW_FIELD, HIGH_FIELD], v.val) == 0x53
    ensures Run(StoreOps([LOW_FIELD, HIGH_FIELD], false), m, v).mem == 0x50
    ensures Run(StoreOps([LOW_FIELD, HIGH_FIELD], true), m, v).mem ==
              InsertAll(v.original, [LOW_FIELD, HIGH_FIELD], v.val)
  {
    hide Inserted, InsertAll, Run, StoreOps, Backward;
    var recs := [LOW_FIELD, HIGH_FIELD];
    StoresWithoutLoad(recs, m, v);
    StoresWithLoad(recs, m, v);
    assert recs[1..] == [HIGH_FIELD] && recs == [LOW_FIELD] + [HIGH_FIELD];
    assert Backward([HIGH_FIELD]) == [HIGH_FIELD];
    InsertBoth(0, [LOW_FIELD], [HIGH_FIELD], v.val);
    InsertOne(0, LOW_FIELD, v.val);
    InsertOne(3, HIGH_FIELD, v.val);
    FourBits();
  }

  lemma OrNothing(a: nat)
    ensures Or(a, 0) == a && Or(0, a) == a
  {
    forall i: nat ensures !Bit(0, i) { ZeroHasNoBits(i); }
    AddIsOr(a, 0);
  }

  lemma SmallPowers()
    ensures Pow2(0) == 1 && Pow2(4) == 16 && Pow2(8) == 256
  {
    assert Pow2(1) == 2 && Pow2(2) == 4 && Pow2(3) == 8 && Pow2(4) == 16;
    assert Pow2(5) == 32 && Pow2(6) == 64 && Pow2(7) == 128 && Pow2(8) == 256;
  }

  lemma FourBits()
    ensures Inserted(0, LOW_FIELD, [3, 5]) == 3
    ensures Inserted(3, HIGH_FIELD, [3, 5]) == 0x53 && Inserted(0, HIGH_FIELD, [3, 5]) == 0x50
  {
    hide Or, Pow2;
    SmallPowers();
    OrNothing(0);
    OrNothing(3);
    OrNothing(0x50);
    OrNothing(0x53);
    OrAtInput();
  }

  lemma OrAtInput()
    ensures Or(3, 80) == 83
  {
    assert Or(1, 40) == 2 * Or(0, 20) + 1;
    assert Or(3, 80) == 2 * Or(1, 40) + 1;
  }
}
