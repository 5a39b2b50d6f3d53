/** Meaning of a trace: what its instructions compute from the stack it was
    entered with, and what the recorder's slot map says about the interpreter. */
module TraceIr {
  import opened IrBuffer
  import opened TraceVm

  function KValue(c: KIns): Value {
    match c.val
    case KPri => PriValue(c.t)
    case KNumber(n) => Num(n)
    case KObject(v) => v
    case KInteger(i) => Num(Fin(i as real, 0))
  }

  function ReadRef(k: seq<KIns>, env: seq<Value>, r: int): Value {
    if r >= REF_BIAS then (if r - REF_BIAS < |env| then env[r - REF_BIAS] else Nil)
    else if 0 <= REF_NIL - r < |k| then KValue(k[REF_NIL - r])
    else Nil
  }

  function NumOf(v: Value): Number { if v.Num? then v.n else NaN(0) }

  /** A numeric comparison of the IR; the unordered ones hold for NaN. */
  predicate NumCmp(op: int, x: Number, y: Number) {
    if op == LT then NumLess(x, y)
    else if op == GE then NumLessEq(y, x)
    else if op == LE then NumLessEq(x, y)
    else if op == GT then NumLess(y, x)
    else if op == ULT then !NumLessEq(y, x)
    else if op == UGE then !NumLess(x, y)
    else if op == ULE then !NumLess(y, x)
    else if op == UGT then !NumLessEq(x, y)
    else if op == EQ then NumEq(x, y)
    else !NumEq(x, y)
  }

  predicate IsCmp(op: int) { LT <= op <= NE && op != -1 }

  /** The value an instruction puts into the environment. */
  function Compute(i: IRIns, k: seq<KIns>, env: seq<Value>, w: Arith, s: Stack): Value {
    var (x, y) := (NumOf(ReadRef(k, env, i.op1)), NumOf(ReadRef(k, env, i.op2)));
    if i.op == SLOAD then (if 0 <= i.op1 < MAX_JSLOTS then s[i.op1] else Nil)
    else if i.op == ADD then Num(w.add(x, y))
    else if i.op == SUB then Num(w.sub(x, y))
    else if i.op == MUL then Num(w.mul(x, y))
    else if i.op == DIV then Num(w.div(x, y))
    else if i.op == POW then Num(w.pow(x, y))
    else if i.op == NEG then Num(w.neg(x))
    else if i.op == FPMATH then Num(w.floor(x))
    else Nil
  }

  /** Does a guard let the trace go on? */
  predicate GuardHolds(i: IRIns, k: seq<KIns>, env: seq<Value>, s: Stack) {
    if i.op == SLOAD then 0 <= i.op1 < MAX_JSLOTS && TypeOf(s[i.op1]) == i.t
    else if IsCmp(i.op) then
      var (x, y) := (ReadRef(k, env, i.op1), ReadRef(k, env, i.op2));
      if i.t == IRT_NUM then NumCmp(i.op, NumOf(x), NumOf(y)) else (x == y) == (i.op == EQ)
    else true
  }

  predicate RefOk(n: int, m: int, r: int) { 0 <= r - REF_BIAS < n || 0 <= REF_NIL - r < m }

  /** Operands that are references point to earlier instructions or constants. */
  predicate OperandsOk(i: IRIns, n: int, m: int) {
    && (ADD <= i.op <= NEG || i.op == FPMATH || IsCmp(i.op) ==> RefOk(n, m, i.op1))
    && (ADD <= i.op <= NEG || IsCmp(i.op) ==> RefOk(n, m, i.op2))
    && (i.op == SLOAD ==> 0 <= i.op1 < MAX_JSLOTS)
    && (i.guard ==> i.op == SLOAD || IsCmp(i.op))
  }

  ghost predicate WfIr(ir: seq<IRIns>, m: int) {
    forall i {:trigger ir[i]} :: 0 <= i < |ir| ==> OperandsOk(ir[i], i, m)
  }

  /** The environment after the first `n` instructions. */
  function Env(ir: seq<IRIns>, k: seq<KIns>, w: Arith, s: Stack, n: nat): (env: seq<Value>)
    requires n <= |ir|
    ensures |env| == n
  {
    if n == 0 then []
    else
      var env := Env(ir, k, w, s, n - 1);
      env + [Compute(ir[n - 1], k, env, w, s)]
  }

  predicate GuardAt(ir: seq<IRIns>, k: seq<KIns>, w: Arith, s: Stack, i: nat)
    requires i < |ir|
  {
    ir[i].guard ==> GuardHolds(ir[i], k, Env(ir, k, w, s, i), s)
  }

  /** All guards among the first `n` instructions hold. */
  predicate Passes(ir: seq<IRIns>, k: seq<KIns>, w: Arith, s: Stack, n: nat)
    requires n <= |ir|
  {
    n == 0 || (Passes(ir, k, w, s, n - 1) && GuardAt(ir, k, w, s, n - 1))
  }

  lemma {:induction false} PassesLess(ir: seq<IRIns>, k: seq<KIns>, w: Arith, s: Stack, m: nat, n: nat)
    requires m <= n <= |ir| && Passes(ir, k, w, s, n)
    ensures Passes(ir, k, w, s, m)
  {
    if m < n { PassesLess(ir, k, w, s, m, n - 1); }
  }

  lemma {:induction false} EnvPrefix(ir: seq<IRIns>, k: seq<KIns>, w: Arith, s: Stack, m: nat, n: nat)
    requires m <= n <= |ir|
    ensures Env(ir, k, w, s, m) == Env(ir, k, w, s, n)[..m]
  {
    if m < n { EnvPrefix(ir, k, w, s, m, n - 1); }
  }

  /** Later instructions and constants change nothing earlier. */
  lemma {:induction false} Grown(ir: seq<IRIns>, k: seq<KIns>, ir2: seq<IRIns>, k2: seq<KIns>, w: Arith, s: Stack, n: nat)
    requires n <= |ir| && n <= |ir2| && ir2[..n] == ir[..n] && |k| <= |k2| && k2[..|k|] == k && WfIr(ir, |k|)
    ensures Env(ir2, k2, w, s, n) == Env(ir, k, w, s, n) && Passes(ir2, k2, w, s, n) == Passes(ir, k, w, s, n)
  {
    if n > 0 {
      assert ir2[..n - 1] == ir2[..n][..n - 1] == ir[..n - 1];
      assert ir2[n - 1] == ir2[..n][n - 1] == ir[..n][n - 1] == ir[n - 1];
      Grown(ir, k, ir2, k2, w, s, n - 1);
      var env := Env(ir, k, w, s, n - 1);
      SameOperands(ir[n - 1], k, k2, env, w, s);
    }
  }

  lemma SameOperands(i: IRIns, k: seq<KIns>, k2: seq<KIns>, env: seq<Value>, w: Arith, s: Stack)
    requires OperandsOk(i, |env|, |k|) && |k| <= |k2| && k2[..|k|] == k
    ensures Compute(i, k2, env, w, s) == Compute(i, k, env, w, s)
    ensures i.guard ==> GuardHolds(i, k2, env, s) == GuardHolds(i, k, env, s)
  {
    forall r | RefOk(|env|, |k|, r) ensures ReadRef(k2, env, r) == ReadRef(k, env, r) {
      if 0 <= REF_NIL - r < |k| { assert k2[..|k|][REF_NIL - r] == k[REF_NIL - r]; }
    }
  }

  // -- The recorder's view of the stack ----------------------------------------

  /** Instructions, constants, and what each stack slot now holds. */
  datatype Sym = Sym(ir: seq<IRIns>, k: seq<KIns>, slot: seq<TRef>)

  ghost predicate WfSym(m: Sym) {
    && |m.slot| == MAX_JSLOTS && WfIr(m.ir, |m.k|)
    && forall i {:trigger m.slot[i]} :: 0 <= i < MAX_JSLOTS && m.slot[i].Ref? ==> RefOk(|m.ir|, |m.k|, m.slot[i].ref) && LoadedTab(m.slot[i])
  }

  /** No constant is a table. */
  predicate LoadedTab(tr: TRef) { tr.Ref? && tr.t == IRT_TAB ==> tr.ref >= REF_BIAS }

  function EnvOf(m: Sym, w: Arith, s: Stack): seq<Value> { Env(m.ir, m.k, w, s, |m.ir|) }
  predicate Passing(m: Sym, w: Arith, s: Stack) { Passes(m.ir, m.k, w, s, |m.ir|) }
  function ValueOf(m: Sym, w: Arith, s: Stack, tr: TRef): Value
    requires tr.Ref?
  { ReadRef(m.k, EnvOf(m, w, s), tr.ref) }

  /** The stack the interpreter has where the recorder is. */
  function Look(m: Sym, w: Arith, s: Stack): (t: Stack)
    requires |m.slot| == MAX_JSLOTS
  {
    var env := EnvOf(m, w, s);
    seq(MAX_JSLOTS, i requires 0 <= i < MAX_JSLOTS => if m.slot[i].None? then s[i] else ReadRef(m.k, env, m.slot[i].ref))
  }

  predicate Typed(m: Sym, w: Arith, s: Stack)
    requires |m.slot| == MAX_JSLOTS
  {
    forall i {:trigger m.slot[i]} :: 0 <= i < MAX_JSLOTS && m.slot[i].Ref? ==> TypeOf(ValueOf(m, w, s, m.slot[i])) == m.slot[i].t
  }

  /** Whatever stack the trace is entered with: if all guards hold, the
      interpreter is at `pc` after `steps` steps, with the stack the slot map
      describes. */
  ghost predicate Tracks(p: Proto, m: Sym, pc0: int, steps: nat, pc: int)
    requires |m.slot| == MAX_JSLOTS
  {
    forall w, s {:trigger Passing(m, w, s)} :: Passing(m, w, s) ==> TracksAt(p, m, pc0, steps, pc, w, s)
  }

  predicate TracksAt(p: Proto, m: Sym, pc0: int, steps: nat, pc: int, w: Arith, s: Stack)
    requires |m.slot| == MAX_JSLOTS
  {
    BcRun(p, w, steps, pc0, s) == At(pc, Look(m, w, s)) && Typed(m, w, s)
  }

  /** `m2` has the instructions and constants of `m` and maybe more. */
  predicate Extends(m: Sym, m2: Sym) {
    |m.ir| <= |m2.ir| && m2.ir[..|m.ir|] == m.ir && |m.k| <= |m2.k| && m2.k[..|m.k|] == m.k
  }

  lemma ExtendsTrans(a: Sym, b: Sym, c: Sym)
    requires Extends(a, b) && Extends(b, c)
    ensures Extends(a, c)
  {
    assert c.ir[..|a.ir|] == c.ir[..|b.ir|][..|a.ir|] && c.k[..|a.k|] == c.k[..|b.k|][..|a.k|];
  }

  lemma ExtendedAt(m: Sym, m2: Sym, w: Arith, s: Stack)
    requires WfSym(m) && Extends(m, m2)
    ensures Passing(m2, w, s) ==> Passing(m, w, s)
    ensures EnvOf(m2, w, s)[..|m.ir|] == EnvOf(m, w, s)
    ensures forall r {:trigger RefOk(|m.ir|, |m.k|, r)} {:trigger ReadRef(m2.k, EnvOf(m2, w, s), r)} ::
      RefOk(|m.ir|, |m.k|, r) ==> ReadRef(m2.k, EnvOf(m2, w, s), r) == ReadRef(m.k, EnvOf(m, w, s), r)
  {
    assert m.ir[..|m.ir|] == m.ir;
    Grown(m.ir, m.k, m2.ir, m2.k, w, s, |m.ir|);
    EnvPrefix(m2.ir, m2.k, w, s, |m.ir|, |m2.ir|);
    if Passing(m2, w, s) { PassesLess(m2.ir, m2.k, w, s, |m.ir|, |m2.ir|); }
    forall r | RefOk(|m.ir|, |m.k|, r) ensures ReadRef(m2.k, EnvOf(m2, w, s), r) == ReadRef(m.k, EnvOf(m, w, s), r) {
      if r < REF_BIAS { assert m2.k[..|m.k|][REF_NIL - r] == m.k[REF_NIL - r]; }
      else { assert EnvOf(m2, w, s)[..|m.ir|][r - REF_BIAS] == EnvOf(m2, w, s)[r - REF_BIAS]; }
    }
  }

  /** Emitting and interning alone move nothing. */
  lemma TracksExtended(p: Proto, m: Sym, m2: Sym, pc0: int, steps: nat, pc: int)
    requires WfSym(m) && Extends(m, m2) && WfIr(m2.ir, |m2.k|) && m2.slot == m.slot && Tracks(p, m, pc0, steps, pc)
    ensures WfSym(m2) && Tracks(p, m2, pc0, steps, pc)
  {
    forall w, s | Passing(m2, w, s) ensures TracksAt(p, m2, pc0, steps, pc, w, s) {
      ExtendedAt(m, m2, w, s);
      LookExtended(m, m2, w, s);
      assert TracksAt(p, m, pc0, steps, pc, w, s);
    }
  }

  lemma LookExtended(m: Sym, m2: Sym, w: Arith, s: Stack)
    requires WfSym(m) && Extends(m, m2) && m2.slot == m.slot
    ensures Look(m2, w, s) == Look(m, w, s) && Typed(m2, w, s) == Typed(m, w, s)
  {
    ExtendedAt(m, m2, w, s);
    forall i | 0 <= i < MAX_JSLOTS && m.slot[i].Ref? ensures ValueOf(m2, w, s, m.slot[i]) == ValueOf(m, w, s, m.slot[i]) {
      assert RefOk(|m.ir|, |m.k|, m.slot[i].ref);
    }
    assert Look(m2, w, s) == Look(m, w, s);
  }

  /** Loading a slot for the first time: a guarded SLOAD pins its type. */
  function Loaded(m: Sym, i: int, t: int, prev: int): Sym
    requires 0 <= i < |m.slot|
  {
    var ins := Fresh(SLOAD, t, true, i, MODE_TYPECHECK).(prev := prev);
    Sym(m.ir + [ins], m.k, m.slot[i := if t <= IRT_TRUE then PriRef(t) else Ref(REF_BIAS + |m.ir|, t)])
  }

  lemma LoadTracks(p: Proto, m: Sym, pc0: int, steps: nat, pc: int, i: int, t: int, prev: int)
    requires WfSym(m) && Tracks(p, m, pc0, steps, pc) && 0 <= i < MAX_JSLOTS && m.slot[i].None? && 0 <= t && t != IRT_INT
    requires KPrimitives(m.k)
    ensures var m2 := Loaded(m, i, t, prev); Extends(m, m2) && WfSym(m2) && Tracks(p, m2, pc0, steps, pc)
    ensures forall w, s {:trigger Passing(Loaded(m, i, t, prev), w, s)} :: Passing(Loaded(m, i, t, prev), w, s) <==> Passing(m, w, s) && TypeOf(s[i]) == t
    ensures forall w, s {:trigger Passing(Loaded(m, i, t, prev), w, s)} :: Passing(Loaded(m, i, t, prev), w, s) ==> Look(Loaded(m, i, t, prev), w, s) == Look(m, w, s)
  {
    var m2 := Loaded(m, i, t, prev);
    assert m2.ir[..|m.ir|] == m.ir && m2.k[..|m.k|] == m.k;
    forall j | 0 <= j < |m2.ir| ensures OperandsOk(m2.ir[j], j, |m2.k|) { if j < |m.ir| { assert m2.ir[j] == m.ir[j]; } }
    forall w, s ensures (Passing(m2, w, s) <==> Passing(m, w, s) && TypeOf(s[i]) == t) && (Passing(m2, w, s) ==> TracksAt(p, m2, pc0, steps, pc, w, s) && Look(m2, w, s) == Look(m, w, s)) {
      ExtendedAt(m, m2, w, s);
      assert m.ir[..|m.ir|] == m.ir;
      Grown(m.ir, m.k, m2.ir, m2.k, w, s, |m.ir|);
      if Passing(m2, w, s) { LoadLook(p, m, pc0, steps, pc, i, t, prev, w, s); }
    }
  }

  predicate KPrimitives(k: seq<KIns>) {
    3 <= |k| && forall t {:trigger k[t]} :: 0 <= t < 3 ==> k[t].op == KPRI && k[t].t == t && k[t].val == KPri
  }

  lemma LoadLook(p: Proto, m: Sym, pc0: int, steps: nat, pc: int, i: int, t: int, prev: int, w: Arith, s: Stack)
    requires WfSym(m) && Tracks(p, m, pc0, steps, pc) && 0 <= i < MAX_JSLOTS && m.slot[i].None? && 0 <= t && t != IRT_INT
    requires KPrimitives(m.k) && Passing(m, w, s) && TypeOf(s[i]) == t
    ensures var m2 := Loaded(m, i, t, prev); Look(m2, w, s) == Look(m, w, s) && TracksAt(p, m2, pc0, steps, pc, w, s)
  {
    var m2 := Loaded(m, i, t, prev);
    assert m2.ir[..|m.ir|] == m.ir && m2.k[..|m.k|] == m.k;
    ExtendedAt(m, m2, w, s);
    assert TracksAt(p, m, pc0, steps, pc, w, s);
    assert EnvOf(m2, w, s)[|m.ir|] == s[i] by {
      assert EnvOf(m2, w, s) == Env(m2.ir, m2.k, w, s, |m.ir|) + [Compute(m2.ir[|m.ir|], m2.k, Env(m2.ir, m2.k, w, s, |m.ir|), w, s)];
    }
    assert ReadRef(m2.k, EnvOf(m2, w, s), m2.slot[i].ref) == s[i];
    forall j | 0 <= j < MAX_JSLOTS ensures Look(m2, w, s)[j] == Look(m, w, s)[j] {
      if j != i && m.slot[j].Ref? { assert RefOk(|m.ir|, |m.k|, m.slot[j].ref); }
    }
    forall j | 0 <= j < MAX_JSLOTS && m2.slot[j].Ref? ensures TypeOf(ValueOf(m2, w, s, m2.slot[j])) == m2.slot[j].t {
      if j != i { assert RefOk(|m.ir|, |m.k|, m.slot[j].ref) && m.slot[j].Ref?; }
    }
  }

  /** One bytecode instruction further, with one register set. */
  lemma StepTracks(p: Proto, m: Sym, pc0: int, steps: nat, pc: int, pc2: int, i: int, tr: TRef)
    requires WfSym(m) && Tracks(p, m, pc0, steps, pc) && 0 <= i < MAX_JSLOTS && tr.Ref? && RefOk(|m.ir|, |m.k|, tr.ref) && LoadedTab(tr)
    requires forall w, s {:trigger Passing(m, w, s)} :: Passing(m, w, s) ==>
      var v := ValueOf(m, w, s, tr); TypeOf(v) == tr.t && BcStep(p, w, pc, Look(m, w, s)) == At(pc2, Look(m, w, s)[i := v])
    ensures var m2 := m.(slot := m.slot[i := tr]); WfSym(m2) && Tracks(p, m2, pc0, steps + 1, pc2)
    ensures forall w, s {:trigger Passing(m, w, s)} :: Passing(m, w, s) ==> BcStep(p, w, pc, Look(m, w, s)) == At(pc2, Look(m.(slot := m.slot[i := tr]), w, s))
  {
    var m2 := m.(slot := m.slot[i := tr]);
    forall w, s | Passing(m, w, s) ensures TracksAt(p, m2, pc0, steps + 1, pc2, w, s) && BcStep(p, w, pc, Look(m, w, s)) == At(pc2, Look(m2, w, s)) {
      assert TracksAt(p, m, pc0, steps, pc, w, s);
      var v := ValueOf(m, w, s, tr);
      assert Look(m2, w, s) == Look(m, w, s)[i := v];
      assert BcRun(p, w, steps + 1, pc0, s) == BcStep(p, w, pc, Look(m, w, s));
      forall j | 0 <= j < MAX_JSLOTS && m2.slot[j].Ref? ensures TypeOf(ValueOf(m2, w, s, m2.slot[j])) == m2.slot[j].t {
        if j != i { assert m.slot[j].Ref?; }
      }
    }
    forall w, s | Passing(m2, w, s) ensures TracksAt(p, m2, pc0, steps + 1, pc2, w, s) { assert Passing(m, w, s); }
  }

  /** One bytecode instruction further, no register changed. */
  lemma JumpTracks(p: Proto, m: Sym, pc0: int, steps: nat, pc: int, pc2: int)
    requires WfSym(m) && Tracks(p, m, pc0, steps, pc)
    requires forall w, s {:trigger Passing(m, w, s)} :: Passing(m, w, s) ==> BcStep(p, w, pc, Look(m, w, s)) == At(pc2, Look(m, w, s))
    ensures Tracks(p, m, pc0, steps + 1, pc2)
  {
    forall w, s | Passing(m, w, s) ensures TracksAt(p, m, pc0, steps + 1, pc2, w, s) {
      assert TracksAt(p, m, pc0, steps, pc, w, s);
    }
  }
}
