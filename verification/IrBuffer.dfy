/** Values of the running program, and the growing SSA buffer of one trace with
    its per-opcode search chains. */
module IrBuffer {

  /** A floating-point number: not a number, or a value that orders by `key`.
      `bits` keeps numbers apart that compare equal (the two zeros). */
  datatype Number = NaN(bits: int) | Fin(key: real, bits: int)

  predicate NumLess(x: Number, y: Number) { x.Fin? && y.Fin? && x.key < y.key }
  predicate NumLessEq(x: Number, y: Number) { x.Fin? && y.Fin? && x.key <= y.key }
  predicate NumEq(x: Number, y: Number) { x.Fin? && y.Fin? && x.key == y.key }

  // IR types.
  const IRT_NIL := 0
  const IRT_FALSE := 1
  const IRT_TRUE := 2
  const IRT_STR := 4
  const IRT_FUNC := 8
  const IRT_TAB := 11
  const IRT_UDATA := 12
  const IRT_NUM := 14
  const IRT_INT := 19
  const IRT_I64 := 21
  const IRT_PGC := 9

  type GcType = t: int | 3 <= t <= IRT_UDATA witness IRT_STR

  /** A Lua value; strings, tables and other objects by type and identity. */
  datatype Value = Nil | False | True | Num(n: Number) | Gc(t: GcType, id: int)

  function TypeOf(v: Value): int {
    match v case Nil => IRT_NIL case False => IRT_FALSE case True => IRT_TRUE case Num(_) => IRT_NUM case Gc(t, _) => t
  }

  predicate Truthy(v: Value) { v != Nil && v != False }
  function PriValue(t: int): Value { if t == IRT_NIL then Nil else if t == IRT_FALSE then False else True }

  // IR opcodes. Comparisons flip with the lowest bit; adding 4 makes them
  // unordered.
  const LT := 0
  const GE := 1
  const LE := 2
  const GT := 3
  const ULT := 4
  const UGE := 5
  const ULE := 6
  const UGT := 7
  const EQ := 8
  const NE := 9
  const NOP := 12
  const BASE := 13
  const KPRI := 22
  const KINT := 23
  const KGC := 24
  const KNUM := 28
  const KINT64 := 29
  const ADD := 41
  const SUB := 42
  const MUL := 43
  const DIV := 44
  const MOD := 45
  const POW := 46
  const NEG := 47
  const FPMATH := 52
  const SLOAD := 71
  const IR_MAX := 101

  // SLOAD modes.
  const MODE_PARENT := 0x01
  const MODE_TYPECHECK := 0x04
  const MODE_READONLY := 0x10
  const MODE_INHERIT := 0x20

  /** Stack slots a trace can see. */
  const MAX_JSLOTS := 250

  const REF_BIAS := 0x8000
  const REF_NIL := 0x7fff
  const REF_FIRST := 0x8001
  const REF_DROP := 0xffff

  /** An instruction: opcode, type, guard flag, operands and the link to the
      instruction of the same opcode before it. */
  datatype IRIns = IRIns(op: int, t: int, guard: bool, op1: int, op2: int, prev: int)

  /** A constant with its payload: bits of a number, an object, an integer. */
  datatype KVal = KPri | KNumber(n: Number) | KObject(v: Value) | KInteger(i: int)
  datatype KIns = KIns(op: int, t: int, val: KVal, prev: int)

  /** Tagged reference of a stack slot; `None` is the all-zero word. */
  datatype TRef = None | Ref(ref: int, t: int)

  function PriRef(t: int): TRef { Ref(REF_NIL - t, t) }

  function Fresh(op: int, t: int, guard: bool, op1: int, op2: int): IRIns { IRIns(op, t, guard, op1, op2, 0) }

  /** The last instruction of opcode `op` among the first `n`, 0 if none. */
  function LastIns(ins: seq<IRIns>, op: int, n: int): int
    requires 0 <= n <= |ins|
  {
    if n == 0 then 0 else if ins[n - 1].op == op then REF_BIAS + n - 1 else LastIns(ins, op, n - 1)
  }

  function LastK(k: seq<KIns>, op: int, n: int): int
    requires 0 <= n <= |k|
  {
    if n == 0 then 0 else if k[n - 1].op == op then REF_NIL - (n - 1) else LastK(k, op, n - 1)
  }

  predicate IsConstOp(op: int) { KPRI <= op <= KINT64 }

  lemma {:induction false} LastInsPrefix(a: seq<IRIns>, b: seq<IRIns>, op: int, n: int)
    requires 0 <= n <= |a| && n <= |b| && a[..n] == b[..n]
    ensures LastIns(a, op, n) == LastIns(b, op, n)
  {
    if n > 0 {
      assert a[n - 1] == a[..n][n - 1] && b[n - 1] == b[..n][n - 1];
      assert a[..n - 1] == a[..n][..n - 1] && b[..n - 1] == b[..n][..n - 1];
      LastInsPrefix(a, b, op, n - 1);
    }
  }

  lemma {:induction false} LastKPrefix(a: seq<KIns>, b: seq<KIns>, op: int, n: int)
    requires 0 <= n <= |a| && n <= |b| && a[..n] == b[..n]
    ensures LastK(a, op, n) == LastK(b, op, n)
  {
    if n > 0 {
      assert a[n - 1] == a[..n][n - 1] && b[n - 1] == b[..n][n - 1];
      assert a[..n - 1] == a[..n][..n - 1] && b[..n - 1] == b[..n][..n - 1];
      LastKPrefix(a, b, op, n - 1);
    }
  }

  /** Where a chain of constants is, it is at the newest one not yet visited. */
  lemma {:induction false} LastKFacts(k: seq<KIns>, op: int, n: int)
    requires 0 <= n <= |k| && |k| <= REF_NIL
    ensures var r := LastK(k, op, n);
      && (r != 0 ==> REF_NIL - n < r <= REF_NIL && k[REF_NIL - r].op == op)
      && (forall i :: (if r == 0 then 0 else REF_NIL - r + 1) <= i < n ==> k[i].op != op)
  {
    if n > 0 && k[n - 1].op != op { LastKFacts(k, op, n - 1); }
  }

  /** The members of one opcode's chain, newest first. */
  function Members(k: seq<KIns>, op: int, n: int): (s: seq<int>)
    requires 0 <= n <= |k|
  {
    if n == 0 then [] else if k[n - 1].op == op then [REF_NIL - (n - 1)] + Members(k, op, n - 1) else Members(k, op, n - 1)
  }

  /** Every constant of the opcode is a member, exactly once, in reverse order
      of creation (references of newer constants are lower). */
  lemma {:induction false} MembersExact(k: seq<KIns>, op: int, n: int)
    requires 0 <= n <= |k|
    ensures forall i :: 0 <= i < n ==> (k[i].op == op <==> REF_NIL - i in Members(k, op, n))
    ensures forall r :: r in Members(k, op, n) ==> REF_NIL - n < r <= REF_NIL
    ensures forall a, b :: 0 <= a < b < |Members(k, op, n)| ==> Members(k, op, n)[a] < Members(k, op, n)[b]
  {
    if n > 0 {
      MembersExact(k, op, n - 1);
      var s := Members(k, op, n - 1);
      forall a, b | 0 <= a < b < |Members(k, op, n)| ensures Members(k, op, n)[a] < Members(k, op, n)[b] {
        if k[n - 1].op == op && a == 0 { assert Members(k, op, n)[b] == s[b - 1] && s[b - 1] in s; }
      }
    }
  }

  /** The references met by following the links from `r`. */
  ghost function Walk(k: seq<KIns>, r: int): (s: seq<int>)
    requires Linked(k) && (r == 0 || 3 <= REF_NIL - r < |k|)
    decreases if r == 0 then 0 else REF_NIL - r
  {
    if r == 0 then []
    else
      var i := REF_NIL - r;
      assert KLinked(k, i);
      KpriFirst(k, k[i].op, i);
      [r] + Walk(k, k[i].prev)
  }

  ghost predicate Linked(k: seq<KIns>) {
    && 3 <= |k| <= REF_NIL && (forall i {:trigger k[i]} :: 0 <= i < 3 ==> k[i].op == KPRI)
    && forall i {:trigger KLinked(k, i)} :: 3 <= i < |k| ==> KLinked(k, i)
  }

  /** Walking a chain from its newest member visits exactly the constants of
      its opcode, newest first. */
  lemma {:induction false} WalkVisitsAll(k: seq<KIns>, op: int, n: int)
    requires Linked(k) && 0 <= n <= |k| && IsConstOp(op) && op != KPRI
    ensures LastK(k, op, n) == 0 || 3 <= REF_NIL - LastK(k, op, n) < n
    ensures Walk(k, LastK(k, op, n)) == Members(k, op, n)
    decreases n
  {
    KpriFirst(k, op, n);
    if n > 0 {
      WalkVisitsAll(k, op, n - 1);
      if k[n - 1].op == op {
        assert KLinked(k, n - 1);
        WalkStep(k, REF_NIL - (n - 1), op);
      }
    }
  }

  lemma WalkStep(k: seq<KIns>, r: int, op: int)
    requires Linked(k) && 3 <= REF_NIL - r < |k| && k[REF_NIL - r].op == op
    ensures var p := LastK(k, op, REF_NIL - r);
      (p == 0 || 3 <= REF_NIL - p < |k|) && Walk(k, r) == [r] + Walk(k, p)
  {
    assert KLinked(k, REF_NIL - r);
    KpriFirst(k, op, REF_NIL - r);
  }

  // -- The same for instructions --------------------------------------------------

  /** The instructions of one opcode, newest first. */
  function InsMembers(ins: seq<IRIns>, op: int, n: int): seq<int>
    requires 0 <= n <= |ins|
  {
    if n == 0 then [] else if ins[n - 1].op == op then [REF_BIAS + n - 1] + InsMembers(ins, op, n - 1) else InsMembers(ins, op, n - 1)
  }

  lemma {:induction false} InsMembersExact(ins: seq<IRIns>, op: int, n: int)
    requires 0 <= n <= |ins|
    ensures forall i :: 0 <= i < n ==> (ins[i].op == op <==> REF_BIAS + i in InsMembers(ins, op, n))
    ensures forall r :: r in InsMembers(ins, op, n) ==> REF_BIAS <= r < REF_BIAS + n
    ensures forall a, b :: 0 <= a < b < |InsMembers(ins, op, n)| ==> InsMembers(ins, op, n)[a] > InsMembers(ins, op, n)[b]
  {
    if n > 0 {
      InsMembersExact(ins, op, n - 1);
      var s := InsMembers(ins, op, n - 1);
      forall a, b | 0 <= a < b < |InsMembers(ins, op, n)| ensures InsMembers(ins, op, n)[a] > InsMembers(ins, op, n)[b] {
        if ins[n - 1].op == op && a == 0 { assert InsMembers(ins, op, n)[b] == s[b - 1] && s[b - 1] in s; }
      }
    }
  }

  /** Behind the base instruction, every link leads to the one before. */
  ghost predicate InsChained(ins: seq<IRIns>) {
    1 <= |ins| && ins[0].op == BASE && forall i {:trigger InsLinked(ins, i)} :: 0 < i < |ins| ==> InsLinked(ins, i)
  }

  lemma {:induction false} LastInsFacts(ins: seq<IRIns>, op: int, n: int)
    requires InsChained(ins) && 0 <= n <= |ins| && op != BASE
    ensures var r := LastIns(ins, op, n); r != 0 ==> 0 < r - REF_BIAS < n && ins[r - REF_BIAS].op == op
  {
    if n > 0 && ins[n - 1].op != op { LastInsFacts(ins, op, n - 1); }
  }

  ghost function InsWalk(ins: seq<IRIns>, r: int): seq<int>
    requires InsChained(ins) && (r == 0 || 0 < r - REF_BIAS < |ins|)
    decreases r
  {
    if r == 0 then []
    else
      var i := r - REF_BIAS;
      assert InsLinked(ins, i);
      LastInsFacts(ins, ins[i].op, i);
      [r] + InsWalk(ins, ins[i].prev)
  }

  /** Walking an instruction chain from its head visits exactly the
      instructions of its opcode, newest first, and ends. */
  lemma {:induction false} InsWalkVisitsAll(ins: seq<IRIns>, op: int, n: int)
    requires InsChained(ins) && 0 <= n <= |ins| && op != BASE
    ensures LastIns(ins, op, n) == 0 || 0 < LastIns(ins, op, n) - REF_BIAS < n
    ensures InsWalk(ins, LastIns(ins, op, n)) == InsMembers(ins, op, n)
  {
    LastInsFacts(ins, op, n);
    if n > 0 {
      InsWalkVisitsAll(ins, op, n - 1);
      if ins[n - 1].op == op { assert InsLinked(ins, n - 1); }
    }
  }

  /** `val` is interned under `op`: found, or appended to the constants. */
  predicate Interned(k0: seq<KIns>, k1: seq<KIns>, op: int, val: KVal, r: int) {
    && 0 <= REF_NIL - r < |k1| && k1[REF_NIL - r].op == op && k1[REF_NIL - r].val == val
    && if HasConst(k0, op, val) then k1 == k0 else |k1| == |k0| + 1 && k1[..|k0|] == k0 && r == REF_NIL - |k0|
  }

  predicate HasConst(k: seq<KIns>, op: int, val: KVal) { exists i :: 0 <= i < |k| && k[i].op == op && k[i].val == val }

  /** No constant is stored twice. */
  predicate NoDuplicates(k: seq<KIns>) {
    forall i, j :: 3 <= i < j < |k| && k[i].op == k[j].op ==> k[i].val != k[j].val
  }

  class IrBuf {
    var ins: seq<IRIns>
    var k: seq<KIns>
    /** Head of the chain of each opcode. */
    var chain: seq<int>
    /** Was a guard emitted since the last snapshot? */
    var guardemit: bool

    ghost predicate Valid()
      reads this
    {
      && |chain| == IR_MAX && 1 <= |ins| <= REF_DROP - REF_BIAS && 3 <= |k| <= REF_NIL
      && ins[0].op == BASE && (forall i {:trigger k[i]} :: 0 <= i < 3 ==> k[i].op == KPRI && k[i].t == i && k[i].val == KPri)
      && (forall i {:trigger InsLinked(ins, i)} :: 0 < i < |ins| ==> InsLinked(ins, i))
      && (forall i {:trigger KLinked(k, i)} :: 3 <= i < |k| ==> KLinked(k, i))
      && (forall op {:trigger HeadOf(ins, k, op)} {:trigger chain[op]} :: 0 <= op < IR_MAX ==> chain[op] == HeadOf(ins, k, op))
      && NoDuplicates(k)
    }

    /** A fresh buffer: the three primitive constants and the base. */
    constructor ()
      ensures Valid() && !guardemit
      ensures ins == [Fresh(BASE, IRT_PGC, false, 0, 0)]
      ensures k == [KIns(KPRI, IRT_NIL, KPri, 0), KIns(KPRI, IRT_FALSE, KPri, 0), KIns(KPRI, IRT_TRUE, KPri, 0)]
    {
      ins := [Fresh(BASE, IRT_PGC, false, 0, 0)];
      k := [KIns(KPRI, IRT_NIL, KPri, 0), KIns(KPRI, IRT_FALSE, KPri, 0), KIns(KPRI, IRT_TRUE, KPri, 0)];
      chain := seq(IR_MAX, _ => 0);
      guardemit := false;
      new;
      forall op | 0 <= op < IR_MAX ensures HeadOf(ins, k, op) == 0 {
        assert op != KPRI ==> LastK(k, op, 0) == LastK(k, op, 1) == LastK(k, op, 2) == LastK(k, op, 3);
        assert op != BASE ==> LastIns(ins, op, 0) == LastIns(ins, op, 1);
      }
    }

    function Nins(): int reads this { REF_BIAS + |ins| }
    function Nk(): int reads this { REF_BIAS - |k| }

    /** Searches the chain of `op`, from the newest constant to the oldest. */
    method Find(op: int, val: KVal) returns (r: int)
      requires Valid() && IsConstOp(op) && op != KPRI
      ensures r != 0 ==> 0 <= REF_NIL - r < |k| && k[REF_NIL - r].op == op && k[REF_NIL - r].val == val
      ensures r == 0 <==> !HasConst(k, op, val)
    {
      r := chain[op];
      ghost var n := |k|;
      assert r == HeadOf(ins, k, op);
      LastKFacts(k, op, n);
      KpriFirst(k, op, n);
      while r != 0
        invariant 0 <= n <= |k| && r == LastK(k, op, n) && (r != 0 ==> 3 <= REF_NIL - r < n && k[REF_NIL - r].op == op)
        invariant forall i {:trigger k[i]} :: 0 <= i < |k| && k[i].op == op && k[i].val == val ==> i < n
        invariant forall i {:trigger k[i]} :: 0 <= i < n && k[i].op == op ==> r != 0 && i <= REF_NIL - r
        decreases n
      {
        if k[REF_NIL - r].val == val {
          return;
        }
        n := REF_NIL - r;
        r := k[REF_NIL - r].prev;
        assert KLinked(k, n);
        LastKFacts(k, op, n);
        KpriFirst(k, op, n);
      }
    }

    method PushK(op: int, t: int, val: KVal) returns (r: int)
      requires Valid() && IsConstOp(op) && op != KPRI && |k| < REF_NIL && !HasConst(k, op, val)
      modifies this`k, this`chain
      ensures Valid() && Interned(old(k), k, op, val, r)
    {
      ghost var k0 := k;
      assert chain[op] == HeadOf(ins, k, op);
      k := k + [KIns(op, t, val, chain[op])];
      r := REF_BIAS - |k|;
      chain := chain[op := r];
      PushedK(k0, k, ins);
      assert KLinked(k, |k0|);
      assert forall i :: 0 <= i < |k0| ==> k[i] == k0[i];
    }

    /** Interns an integer constant. */
    method KInt(i: int) returns (tr: TRef)
      requires Valid() && |k| < REF_NIL
      modifies this`k, this`chain
      ensures Valid() && tr.Ref? && tr.t == IRT_INT && Interned(old(k), k, KINT, KInteger(i), tr.ref)
    {
      var r := Find(KINT, KInteger(i));
      if r == 0 {
        r := PushK(KINT, IRT_INT, KInteger(i));
      }
      tr := Ref(r, IRT_INT);
    }

    /** Interns a number by its exact bits, so the two zeros stay apart. */
    method KNum(n: Number) returns (tr: TRef)
      requires Valid() && |k| < REF_NIL
      modifies this`k, this`chain
      ensures Valid() && tr.Ref? && tr.t == IRT_NUM && Interned(old(k), k, KNUM, KNumber(n), tr.ref)
    {
      var r := Find(KNUM, KNumber(n));
      if r == 0 {
        r := PushK(KNUM, IRT_NUM, KNumber(n));
      }
      tr := Ref(r, IRT_NUM);
    }

    method KInt64(u: int) returns (tr: TRef)
      requires Valid() && |k| < REF_NIL
      modifies this`k, this`chain
      ensures Valid() && tr.Ref? && tr.t == IRT_I64 && Interned(old(k), k, KINT64, KInteger(u), tr.ref)
    {
      var r := Find(KINT64, KInteger(u));
      if r == 0 {
        r := PushK(KINT64, IRT_I64, KInteger(u));
      }
      tr := Ref(r, IRT_I64);
    }

    /** Interns an object, keyed by the value alone. */
    method KGc(v: Value, t: int) returns (tr: TRef)
      requires Valid() && |k| < REF_NIL
      modifies this`k, this`chain
      ensures Valid() && tr.Ref? && tr.t == t && Interned(old(k), k, KGC, KObject(v), tr.ref)
    {
      var r := Find(KGC, KObject(v));
      if r == 0 {
        r := PushK(KGC, t, KObject(v));
      }
      tr := Ref(r, t);
    }

    /** Appends an instruction and links it into its chain. */
    method EmitIns(fins: IRIns) returns (tr: TRef)
      requires Valid() && 0 <= fins.op < IR_MAX && !IsConstOp(fins.op) && fins.op != BASE && |ins| < REF_DROP - REF_BIAS
      modifies this`ins, this`chain, this`guardemit
      ensures Valid() && ins == old(ins) + [fins.(prev := old(chain)[fins.op])] && tr == Ref(REF_BIAS + |old(ins)|, fins.t)
      ensures guardemit == (old(guardemit) || fins.guard)
    {
      var r := Nins();
      ghost var ins0 := ins;
      var i := fins.(prev := chain[fins.op]);
      assert chain[fins.op] == HeadOf(ins, k, fins.op);
      chain := chain[fins.op := r];
      guardemit := guardemit || i.guard;
      ins := ins + [i];
      PushedIns(ins0, ins, k);
      assert InsLinked(ins, |ins0|);
      tr := Ref(r, i.t);
    }

    method ClearGuard()
      requires Valid()
      modifies this`guardemit
      ensures Valid() && !guardemit
    {
      guardemit := false;
    }

    /** Takes back every instruction from `r` on; constants stay. Whatever was
        emitted or interned meanwhile, the chains are those of the shorter
        buffer. */
    method Rollback(r: int)
      requires Valid() && REF_FIRST <= r
      modifies this`ins, this`chain
      ensures Valid() && ins == if r < REF_BIAS + |old(ins)| then old(ins)[..r - REF_BIAS] else old(ins)
    {
      while Nins() > r
        invariant Valid() && |ins| <= |old(ins)| && ins == old(ins)[..|ins|]
        invariant Nins() >= r || ins == old(ins)
      {
        assert InsLinked(ins, |ins| - 1);
        var i := ins[|ins| - 1];
        ghost var ins0 := ins;
        ins := ins[..|ins| - 1];
        chain := chain[i.op := i.prev];
        PoppedIns(ins0, ins, k);
      }
    }
  }

  predicate InsLinked(ins: seq<IRIns>, i: int)
    requires 0 <= i < |ins|
  {
    0 <= ins[i].op < IR_MAX && !IsConstOp(ins[i].op) && ins[i].op != BASE && ins[i].prev == LastIns(ins, ins[i].op, i)
  }

  predicate KLinked(k: seq<KIns>, i: int)
    requires 0 <= i < |k|
  {
    IsConstOp(k[i].op) && k[i].op != KPRI && k[i].prev == LastK(k, k[i].op, i)
  }

  /** The head of a chain: the newest member; the base and the primitive
      constants are on none. */
  function HeadOf(ins: seq<IRIns>, k: seq<KIns>, op: int): int {
    if op == BASE || op == KPRI then 0 else if IsConstOp(op) then LastK(k, op, |k|) else LastIns(ins, op, |ins|)
  }

  lemma {:induction false} KpriFirst(k: seq<KIns>, op: int, n: int)
    requires 3 <= |k| <= REF_NIL && op != KPRI && (forall i {:trigger k[i]} :: 0 <= i < 3 ==> k[i].op == KPRI) && 0 <= n <= |k|
    ensures var r := LastK(k, op, n); r != 0 ==> 3 <= REF_NIL - r < n && r > 0
  {
    LastKFacts(k, op, n);
  }

  lemma PushedK(k0: seq<KIns>, k1: seq<KIns>, ins: seq<IRIns>)
    requires |k1| == |k0| + 1 && k1[..|k0|] == k0
    ensures forall op {:trigger HeadOf(ins, k1, op)} :: op != k1[|k0|].op ==> HeadOf(ins, k1, op) == HeadOf(ins, k0, op)
    ensures forall i {:trigger KLinked(k1, i)} :: 0 <= i < |k0| ==> KLinked(k1, i) == KLinked(k0, i)
    ensures LastK(k1, k1[|k0|].op, |k0|) == LastK(k0, k1[|k0|].op, |k0|)
  {
    assert k0[..|k0|] == k0;
    forall op, n | 0 <= n <= |k0| ensures LastK(k1, op, n) == LastK(k0, op, n) {
      assert k1[..n] == k1[..|k0|][..n] == k0[..n];
      LastKPrefix(k1, k0, op, n);
    }
    forall i | 0 <= i < |k0| ensures KLinked(k1, i) == KLinked(k0, i) { assert k1[i] == k1[..|k0|][i]; }
  }

  lemma PushedIns(i0: seq<IRIns>, i1: seq<IRIns>, k: seq<KIns>)
    requires |i1| == |i0| + 1 && i1[..|i0|] == i0
    ensures forall op {:trigger HeadOf(i1, k, op)} :: op != i1[|i0|].op ==> HeadOf(i1, k, op) == HeadOf(i0, k, op)
    ensures forall i {:trigger InsLinked(i1, i)} :: 0 <= i < |i0| ==> InsLinked(i1, i) == InsLinked(i0, i)
    ensures LastIns(i1, i1[|i0|].op, |i0|) == LastIns(i0, i1[|i0|].op, |i0|)
  {
    assert i0[..|i0|] == i0;
    forall op, n | 0 <= n <= |i0| ensures LastIns(i1, op, n) == LastIns(i0, op, n) {
      assert i1[..n] == i1[..|i0|][..n] == i0[..n];
      LastInsPrefix(i1, i0, op, n);
    }
    forall i | 0 <= i < |i0| ensures InsLinked(i1, i) == InsLinked(i0, i) { assert i1[i] == i1[..|i0|][i]; }
  }

  /** Popping the last instruction uncovers the chain head before it. */
  lemma PoppedIns(i1: seq<IRIns>, i0: seq<IRIns>, k: seq<KIns>)
    requires |i1| == |i0| + 1 && i1[..|i0|] == i0 && InsLinked(i1, |i0|)
    ensures forall op {:trigger HeadOf(i0, k, op)} :: HeadOf(i0, k, op) == if op == i1[|i0|].op then i1[|i0|].prev else HeadOf(i1, k, op)
    ensures forall i {:trigger InsLinked(i0, i)} :: 0 <= i < |i0| ==> InsLinked(i0, i) == InsLinked(i1, i)
  {
    PushedIns(i0, i1, k);
  }
}
