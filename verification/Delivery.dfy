/** How half-compiled expression code delivers a value: where control leaves the
    code emitted so far, and what is known about the value there. */
module Delivery {
  import opened Bytecode
  import opened Exec
  import opened Patching

  /** What control falling out of the end of the code knows about the value: it
      is a constant, held in a register, the result `ins` would have, decided by
      a comparison whose jump is the last instruction, loaded by a last
      instruction that has no register yet, or known only for its truth. */
  datatype End = Const(v: Value) | Reg(i: int) | Ready(ins: Ins) | Cond(pc: int) | Reloc(pc: int) | Tested(b: bool)

  /** Code with its unresolved jumps: those of enclosing expressions (`ctx`),
      those pending to the next instruction (`js`), and the true and false
      lists of the expression itself. */
  datatype View = View(code: seq<Ins>, ctx: set<int>, js: set<int>, end: End, ts: set<int>, fs: set<int>)

  function Hanging(end: End): set<int> {
    if end.Cond? || end.Reloc? then {end.pc} else {}
  }

  function Lists(v: View): set<int> { v.ctx + v.js + v.ts + v.fs }
  function Opens(v: View): set<int> { Lists(v) + Hanging(v.end) }

  function EndValue(w: World, end: End, s: Regs): Value {
    if end.Const? then end.v
    else if end.Reg? then Get(s, end.i)
    else if end.Ready? then (if IsLoad(end.ins.op) then Loaded(w, end.ins, s) else Bool(Holds(w, end.ins, s)))
    else Nil
  }

  predicate AtEnd(v: View, q: int) { q == |v.code| || q in v.js }

  /** What an exit through a jump of a true (or false) list says. */
  predicate ExitValue(w: World, code: seq<Ins>, q: int, s: Regs, val: Value, b: bool) {
    0 < q <= |code| &&
    if Valued(code[q - 1]) then val == Carried(w, code[q - 1], s) && Truthy(val) == b else val == Bool(b)
  }

  predicate EndSays(w: World, v: View, q: int, s: Regs, val: Value) {
    match v.end
    case Cond(pc) => if q == pc then val == True else AtEnd(v, q) && val == False
    case Reloc(pc) => q == pc && 0 <= pc < |v.code| && val == Loaded(w, v.code[pc], s)
    case Tested(b) => AtEnd(v, q) && Truthy(val) == b
    case _ => AtEnd(v, q) && val == EndValue(w, v.end, s)
  }

  /** What a run is meant to do: leave through a jump of an enclosing
      expression, or deliver a value, where `r` holds the registers at the point
      the expression started. `v` is the value at the end of the code, `x` the
      value at the exits; they differ only in the middle of a negation. */
  datatype Goal = Elsewhere(q: int, r: Regs) | Here(r: Regs, v: Value, x: Value)

  predicate Delivers(w: World, v: View, q: int, s: Regs, goal: Goal)
    requires goal.Here?
  {
    if q in v.ts then ExitValue(w, v.code, q, s, goal.x, true)
    else if q in v.fs then ExitValue(w, v.code, q, s, goal.x, false)
    else EndSays(w, v, q, s, goal.v)
  }

  predicate Agree(r: Regs, s: Regs, base: int, skip: int) {
    forall i :: 0 <= i < base <= NO_REG && i != skip ==> r[i] == s[i]
  }

  predicate DenAt(w: World, v: View, start: int, base: int, skip: int, goal: Goal, r: Regs) {
    var (q, s) := Run(w, v.code, Opens(v), start, r);
    match goal
    case Elsewhere(q0, s0) => q == q0 && s == s0 && q in v.ctx
    case Here(r0, _, _) => q !in v.ctx && Agree(r0, s, base, skip) && Delivers(w, v, q, s, goal)
  }

  /** One compilation job: the constant tables so far, the point runs are
      observed from, the first free register, and what runs must do. */
  datatype Job = Job(kn: seq<real>, ks: seq<string>, start: int, base: int, goal: (World, Regs) -> Goal)

  /** A machine whose constant tables extend the ones compiled so far, and
      whose equality is symmetric when one side is a constant. */
  ghost predicate Fits(w: World, kn: seq<real>, ks: seq<string>) {
    && kn <= w.kn && ks <= w.ks
    && forall a: Value, b: Value :: !a.Other? ==> w.eq(a, b) == w.eq(b, a)
  }

  ghost predicate Den(job: Job, v: View, skip: int) {
    forall w, r :: Fits(w, job.kn, job.ks) ==> DenAt(w, v, job.start, job.base, skip, job.goal(w, r), r)
  }

  /** The shape every half-compiled expression keeps. `lim` is the last jump
      target, `start` the point runs are observed from. */
  ghost predicate Wf(v: View, start: int, lim: int) {
    && 1 <= start <= |v.code| && 0 <= lim <= |v.code|
    && (lim >= start || !IsNilLoad(v.code[start - 1]))
    && Flow(v.code, Opens(v), start, lim) && Shape(v.code) && Entries(v.code, Opens(v), start)
    && Jumps(v.code, Lists(v))
    && v.ctx !! v.js !! v.ts !! v.fs !! Hanging(v.end)
    && (v.js != {} ==> lim == |v.code|)
    && (forall q :: q in v.ts + v.fs ==> start <= q)
    && HangingOk(v, start, lim)
  }

  /** A comparison's jump, or a load without a register, ends the code. */
  ghost predicate HangingOk(v: View, start: int, lim: int) {
    Hanging(v.end) != {} ==>
      && v.js == {} && 0 < v.end.pc == |v.code| - 1
      && (v.end.Cond? ==>
            && start < v.end.pc && lim < v.end.pc && 1 < v.end.pc && v.end.pc - 1 !in Opens(v)
            && v.code[v.end.pc].op == JMP && IsCompare(v.code[v.end.pc - 1].op) && v.code[v.end.pc - 1].a != NO_REG)
      && (v.end.Reloc? ==> start <= v.end.pc && lim <= v.end.pc && v.code[v.end.pc].op in {NOT, UGET} && v.code[v.end.pc].a == 0)
  }

  /** The parts of well-formedness most steps need. */
  lemma WfFacts(v: View, start: int, lim: int)
    requires Wf(v, start, lim)
    ensures Shape(v.code) && v.ctx !! v.js !! v.ts !! v.fs
    ensures forall i :: i in Lists(v) ==> 0 < i < |v.code|
  {
  }

  lemma HangingFacts(v: View, start: int, lim: int)
    requires Wf(v, start, lim) && Hanging(v.end) != {}
    ensures v.js == {} && 0 < v.end.pc == |v.code| - 1
    ensures v.end.Cond? ==>
      v.code[v.end.pc].op == JMP && v.code[v.end.pc].a != NO_REG &&
      IsCompare(v.code[v.end.pc - 1].op) && v.code[v.end.pc - 1].a != NO_REG
    ensures v.end.Reloc? ==> v.code[v.end.pc].op in {NOT, UGET}
  {
    assert ShapeAt(v.code, v.end.pc);
  }
}
