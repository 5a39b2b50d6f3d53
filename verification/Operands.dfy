/** Source expressions and their values, and how the code of one operand is
    continued by the next. */
module Operands {
  import opened Bytecode
  import opened Exec
  import opened Patching
  import opened Delivery
  import opened Emission
  import opened Steps
  import opened Branches
  import opened Resolve
  import opened NilMerge

  datatype CmpOp = Ne | Eq | Lt | Ge | Le | Gt

  /** The expressions whose code is modelled. `Coal` is `a ?? b`, `Choose` is
      `c ? a : b`. */
  datatype Expr =
    | Lit(c: Value)
    | Local(slot: int)
    | Upval(idx: int)
    | Paren(x: Expr)
    | Not(x: Expr)
    | And(l: Expr, r: Expr)
    | Or(l: Expr, r: Expr)
    | Coal(l: Expr, r: Expr)
    | Compare(op: CmpOp, l: Expr, r: Expr)
    | Choose(cond: Expr, l: Expr, r: Expr)

  /** Locals are active, upvalue numbers and literals are ones the parser makes. */
  predicate Scoped(x: Expr, n: int) {
    match x
    case Lit(c) => !c.Other?
    case Local(slot) => 0 <= slot < n
    case Upval(idx) => 0 <= idx <= 255
    case Paren(y) => Scoped(y, n)
    case Not(y) => Scoped(y, n)
    case And(a, b) => Scoped(a, n) && Scoped(b, n)
    case Or(a, b) => Scoped(a, n) && Scoped(b, n)
    case Coal(a, b) => Scoped(a, n) && Scoped(b, n)
    case Compare(_, a, b) => Scoped(a, n) && Scoped(b, n)
    case Choose(c, a, b) => Scoped(c, n) && Scoped(a, n) && Scoped(b, n)
  }

  /** `a > b` is `b < a` and `a >= b` is `b <= a`. */
  predicate Related2(w: World, op: CmpOp, a: Value, b: Value) {
    match op
    case Ne => !w.eq(a, b)
    case Eq => w.eq(a, b)
    case Lt => w.lt(a, b)
    case Ge => w.le(b, a)
    case Le => w.le(a, b)
    case Gt => w.lt(b, a)
  }

  /** The Lua value of an expression. */
  function Eval(w: World, x: Expr, r: Regs): Value {
    match x
    case Lit(c) => c
    case Local(slot) => Get(r, slot)
    case Upval(idx) => w.upval(idx)
    case Paren(y) => Eval(w, y, r)
    case Not(y) => Bool(!Truthy(Eval(w, y, r)))
    case And(a, b) => if Truthy(Eval(w, a, r)) then Eval(w, b, r) else Eval(w, a, r)
    case Or(a, b) => if Truthy(Eval(w, a, r)) then Eval(w, a, r) else Eval(w, b, r)
    case Coal(a, b) => if w.eq(Eval(w, a, r), Nil) then Eval(w, b, r) else Eval(w, a, r)
    case Compare(op, a, b) => Bool(Related2(w, op, Eval(w, a, r), Eval(w, b, r)))
    case Choose(c, a, b) => if Truthy(Eval(w, c, r)) then Eval(w, a, r) else Eval(w, b, r)
  }

  /** Only the locals matter. */
  lemma {:induction false} EvalAgree(w: World, x: Expr, n: int, r: Regs, s: Regs)
    requires Scoped(x, n) && n <= NO_REG && Agree(r, s, n, NO_REG)
    ensures Eval(w, x, r) == Eval(w, x, s)
  {
    match x
    case Lit(_) =>
    case Local(slot) => assert r[slot] == s[slot];
    case Upval(_) =>
    case Paren(y) => EvalAgree(w, y, n, r, s);
    case Not(y) => EvalAgree(w, y, n, r, s);
    case And(a, b) => EvalAgree(w, a, n, r, s); EvalAgree(w, b, n, r, s);
    case Or(a, b) => EvalAgree(w, a, n, r, s); EvalAgree(w, b, n, r, s);
    case Coal(a, b) => EvalAgree(w, a, n, r, s); EvalAgree(w, b, n, r, s);
    case Compare(_, a, b) => EvalAgree(w, a, n, r, s); EvalAgree(w, b, n, r, s);
    case Choose(c, a, b) => EvalAgree(w, c, n, r, s); EvalAgree(w, a, n, r, s); EvalAgree(w, b, n, r, s);
  }

  /** The goal of delivering `x` where control gets to it. */
  function Toward(w: World, g: Goal, x: Expr): Goal {
    if g.Here? then Here(g.r, Eval(w, x, g.r), Eval(w, x, g.r)) else g
  }

  /** The job whose runs must deliver the value of `x`. */
  function AimGoal(goal: (World, Regs) -> Goal, x: Expr): (World, Regs) -> Goal {
    (w: World, r: Regs) => Toward(w, goal(w, r), x)
  }

  function Aim(job: Job, x: Expr): Job { job.(goal := AimGoal(job.goal, x)) }

  lemma AimPlain(job: Job, x: Expr)
    ensures Plain(Aim(job, x).goal)
  {
    var goal := Aim(job, x).goal;
    forall w, r | goal(w, r).Here? ensures goal(w, r).v == goal(w, r).x {
      assert goal(w, r) == Toward(w, job.goal(w, r), x);
    }
  }

  /** Runs of the code to come start where the runs of `v` arrive. */
  function BehindGoal(v: View, start: int): (World, Regs) -> Goal {
    (w: World, r: Regs) =>
      var (q, s) := Run(w, v.code, Opens(v), start, r);
      if AtEnd(v, q) then Here(s, Nil, Nil) else Elsewhere(q, s)
  }

  function Behind(job: Job, v: View, base: int): Job {
    job.(base := base, goal := BehindGoal(v, job.start))
  }

  /** The view an operand starts from: all exits of `v` belong to the outside. */
  function Opening(v: View): View { View(v.code, v.ctx + v.ts + v.fs, v.js, Const(Nil), {}, {}) }

  lemma EnterBehind(job: Job, v: View, lim: int, base: int)
    requires Wf(v, job.start, lim) && Hanging(v.end) == {} && base <= NO_REG
    ensures Wf(Opening(v), job.start, lim) && Den(Aim(Behind(job, v, base), Lit(Nil)), Opening(v), NO_REG)
  {
    var o := Opening(v);
    var jobB := Aim(Behind(job, v, base), Lit(Nil));
    assert Opens(o) == Opens(v) && Lists(o) == Lists(v);
    NewPositions(v, job.start, lim);
    FlowWider(v.code, Opens(v), job.start, lim);
    forall w, r | Fits(w, job.kn, job.ks) ensures DenAt(w, o, job.start, base, NO_REG, jobB.goal(w, r), r) {
      RunEnds(w, v.code, Opens(v), job.start, job.start, r);
      var (q, s) := Run(w, v.code, Opens(v), job.start, r);
      EndNotOpen(v, job.start, lim, q);
      var g := BehindGoal(v, job.start)(w, r);
      assert g == if AtEnd(v, q) then Here(s, Nil, Nil) else Elsewhere(q, s);
      assert g.Here? ==> Eval(w, Lit(Nil), g.r) == Nil;
      assert jobB.goal(w, r) == g;
    }
  }

  lemma EndNotOpen(v: View, start: int, lim: int, q: int)
    requires Wf(v, start, lim) && (q in Opens(v) || q == |v.code|) && Hanging(v.end) == {}
    ensures AtEnd(v, q) <==> q !in v.ctx + v.ts + v.fs
  {
    NewPositions(v, start, lim);
  }

  /** Goals of an inner job that belong to goals of the outer one. */
  predicate Corresponds(g: Goal, h: Goal, base: int) {
    if g.Here? then h.Here? && Agree(g.r, h.r, base, NO_REG) else h == g
  }

  /** Throughout the inner job, `end` still gives the value of `x`. */
  ghost predicate Held(kn: seq<real>, ks: seq<string>, job: Job, inner: Job, end: End, x: Expr) {
    && (end.Const? || (end.Reg? && 0 <= end.i < inner.base)) && job.base <= inner.base <= NO_REG && inner.start == job.start
    && forall w, r :: Fits(w, kn, ks) ==> HeldAt(w, job.goal(w, r), inner.goal(w, r), job.base, end, x)
  }

  predicate HeldAt(w: World, g: Goal, h: Goal, base: int, end: End, x: Expr) {
    Corresponds(g, h, base) && (g.Here? ==> EndValue(w, end, h.r) == Eval(w, x, g.r))
  }

  lemma HeldGrown(kn: seq<real>, ks: seq<string>, kn2: seq<real>, ks2: seq<string>, job: Job, inner: Job, end: End, x: Expr)
    requires Held(kn, ks, job, inner, end, x) && kn <= kn2 && ks <= ks2
    ensures Held(kn2, ks2, job, inner, end, x)
  {
    forall w, r | Fits(w, kn2, ks2) ensures HeldAt(w, job.goal(w, r), inner.goal(w, r), job.base, end, x) {
      assert Fits(w, kn, ks);
    }
  }

  ghost predicate Follows(kn: seq<real>, ks: seq<string>, job: Job, inner: Job) {
    && job.base <= inner.base <= NO_REG && inner.start == job.start
    && forall w, r :: Fits(w, kn, ks) ==> Corresponds(job.goal(w, r), inner.goal(w, r), job.base)
  }

  /** The value delivered at the end of `v` is held by the operand behind it. */
  lemma HeldBehind(job: Job, inner: Job, v: View, lim: int, x: Expr, base: int)
    requires Wf(v, inner.start, lim) && Den(Aim(inner, x), v, NO_REG) && v.ts == {} && v.fs == {}
    requires Follows(inner.kn, inner.ks, job, inner) && Scoped(x, job.base)
    requires v.end.Const? || (v.end.Reg? && 0 <= v.end.i < base)
    requires inner.base <= base <= NO_REG
    ensures Held(inner.kn, inner.ks, job, Behind(inner, v, base), v.end, x)
  {
    var next := Behind(inner, v, base);
    forall w, r | Fits(w, inner.kn, inner.ks) ensures HeldAt(w, job.goal(w, r), next.goal(w, r), job.base, v.end, x) {
      var g, h := job.goal(w, r), inner.goal(w, r);
      assert Corresponds(g, h, job.base);
      assert DenAt(w, v, inner.start, inner.base, NO_REG, Aim(inner, x).goal(w, r), r);
      if g.Here? { EvalAgree(w, x, job.base, g.r, h.r); }
      var q := Run(w, v.code, Opens(v), inner.start, r).0;
      if q in v.ctx { EndNotOpen(v, inner.start, lim, q); }
    }
  }

  /** Knowing something else at the end of the code, for an enclosing job. */
  lemma Redirect(job: Job, v: View, lim: int, end2: End, job2: Job)
    requires Wf(v, job.start, lim) && Den(job, v, NO_REG) && v.ts == {} && v.fs == {}
    requires (v.end.Const? || v.end.Reg? || v.end.Ready?) && (end2.Const? || end2.Reg? || end2.Ready?)
    requires job2.start == job.start && job2.kn == job.kn && job2.ks == job.ks && job2.base <= job.base <= NO_REG
    requires forall w, r :: Fits(w, job.kn, job.ks) ==> Turns(w, v.end, end2, job.base, job2.base, job.goal(w, r), job2.goal(w, r))
    ensures Wf(v.(end := end2), job.start, lim) && Den(job2, v.(end := end2), NO_REG)
  {
    var v2 := v.(end := end2);
    assert Opens(v2) == Opens(v) && Lists(v2) == Lists(v);
    forall w, r | Fits(w, job.kn, job.ks) ensures DenAt(w, v2, job.start, job2.base, NO_REG, job2.goal(w, r), r) {
      assert DenAt(w, v, job.start, job.base, NO_REG, job.goal(w, r), r);
      assert Turns(w, v.end, end2, job.base, job2.base, job.goal(w, r), job2.goal(w, r));
      var s := Run(w, v.code, Opens(v), job.start, r).1;
      assert TurnsOn(w, v.end, end2, job.base, job.goal(w, r), job2.goal(w, r), s);
    }
  }

  ghost predicate Turns(w: World, end: End, end2: End, base: int, base2: int, g: Goal, h: Goal) {
    if g.Here? then h.Here? && Agree(h.r, g.r, base2, NO_REG) && forall s :: TurnsOn(w, end, end2, base, g, h, s)
    else h == g
  }

  predicate TurnsOn(w: World, end: End, end2: End, base: int, g: Goal, h: Goal, s: Regs) {
    g.Here? && h.Here? && Agree(g.r, s, base, NO_REG) && EndValue(w, end, s) == g.v ==> EndValue(w, end2, s) == h.v
  }

  /** A comparison of two operands, `x` held and `y` just delivered, is ready. */
  lemma CompareReady(job: Job, inner: Job, v: View, lim: int, endX: End, x: Expr, y: Expr, ins: Ins, z: Expr, first: bool)
    requires Wf(v, job.start, lim) && Den(Aim(inner, y), v, NO_REG) && v.ts == {} && v.fs == {} && (v.end.Const? || v.end.Reg?)
    requires Held(inner.kn, inner.ks, job, inner, endX, x) && inner.kn == job.kn && inner.ks == job.ks
    requires Scoped(y, job.base) && IsCompare(ins.op)
    requires forall w, s :: Fits(w, job.kn, job.ks) ==> Decides(w, ins, endX, v.end, s, x, y, z, first)
    ensures Wf(v.(end := Ready(ins)), job.start, lim) && Den(Aim(job, z), v.(end := Ready(ins)), NO_REG)
  {
    hide Eval, EndValue, Holds, Related2, Wf, Den, Decides, TurnsOn, HeldAt;
    var from, to := Aim(inner, y), Aim(job, z);
    forall w, r | Fits(w, job.kn, job.ks) ensures Turns(w, v.end, Ready(ins), inner.base, job.base, from.goal(w, r), to.goal(w, r)) {
      var g, h := job.goal(w, r), inner.goal(w, r);
      assert HeldAt(w, g, h, job.base, endX, x);
      CompareGoals(w, g, h, job.base, inner.base, endX, v.end, x, y, ins, z, first);
      assert from.goal(w, r) == Toward(w, h, y) && to.goal(w, r) == Toward(w, g, z);
    }
    Redirect(from, v, lim, Ready(ins), to);
  }

  lemma CompareGoals(w: World, g: Goal, h: Goal, base: int, base2: int, endX: End, endY: End, x: Expr, y: Expr, ins: Ins, z: Expr, first: bool)
    requires HeldAt(w, g, h, base, endX, x) && (endX.Const? || (endX.Reg? && 0 <= endX.i < base2)) && base <= base2 <= NO_REG
    requires Scoped(y, base) && IsCompare(ins.op) && forall s :: Decides(w, ins, endX, endY, s, x, y, z, first)
    ensures Turns(w, endY, Ready(ins), base2, base, Toward(w, h, y), Toward(w, g, z))
  {
    hide Eval, EndValue, Holds, Related2, Decides;
    if g.Here? {
      EvalAgree(w, y, base, g.r, h.r);
      forall s ensures TurnsOn(w, endY, Ready(ins), base2, Toward(w, h, y), Toward(w, g, z), s) {
        if Agree(h.r, s, base2, NO_REG) && EndValue(w, endY, s) == Eval(w, y, h.r) {
          assert Decides(w, ins, endX, endY, s, x, y, z, first);
          StableEnd(w, endX, base2, h.r, s, ins);
          DecidesAt(w, ins, endX, endY, s, x, y, z, first, g.r);
        }
      }
    }
  }

  lemma StableEnd(w: World, end: End, base: int, r: Regs, s: Regs, ins: Ins)
    requires end.Const? || (end.Reg? && 0 <= end.i < base <= NO_REG)
    requires Agree(r, s, base, NO_REG) && IsCompare(ins.op)
    ensures EndValue(w, end, s) == EndValue(w, end, r) && EndValue(w, Ready(ins), s) == Bool(Holds(w, ins, s))
  {
  }

  /** `ins` tests `z`, the comparison of `x` and `y` (`x` on the left when
      `first`), given the two operands. */
  predicate Decides(w: World, ins: Ins, endX: End, endY: End, s: Regs, x: Expr, y: Expr, z: Expr, first: bool) {
    var (vx, vy) := (EndValue(w, endX, s), EndValue(w, endY, s));
    && z.Compare?
    && (if first then z.l == x && z.r == y else z.l == y && z.r == x)
    && Holds(w, ins, s) == if first then Related2(w, z.op, vx, vy) else Related2(w, z.op, vy, vx)
  }

  lemma DecidesAt(w: World, ins: Ins, endX: End, endY: End, s: Regs, x: Expr, y: Expr, z: Expr, first: bool, r: Regs)
    requires Decides(w, ins, endX, endY, s, x, y, z, first)
    requires EndValue(w, endX, s) == Eval(w, x, r) && EndValue(w, endY, s) == Eval(w, y, r)
    ensures Eval(w, z, r) == Bool(Holds(w, ins, s))
  {
    hide Eval, EndValue, Holds, Related2;
    EvalCompare(w, z, r);
  }

  lemma EvalCompare(w: World, z: Expr, r: Regs)
    requires z.Compare?
    ensures Eval(w, z, r) == Bool(Related2(w, z.op, Eval(w, z.l, r), Eval(w, z.r, r)))
  {
    hide Related2;
  }

  /** A constant left operand, still to be loaded behind the right one. */
  lemma ConstLeaf(job: Job, inner: Job, v: View, lim: int, c: Value, a: Expr, b: Expr, base: int)
    requires Wf(v, inner.start, lim) && Den(Aim(inner, b), v, NO_REG) && v.ts == {} && v.fs == {} && v.end.Reg? && 0 <= v.end.i < base
    requires Held(inner.kn, inner.ks, job, inner, Const(c), a) && Scoped(a, job.base) && Scoped(b, job.base)
    requires inner.base <= base <= NO_REG && inner.kn == job.kn && inner.ks == job.ks
    ensures var next := Behind(inner, v, base); var v2 := v.(end := Const(c));
      && Wf(v2, job.start, lim) && Den(Aim(next, a), v2, NO_REG)
      && Held(inner.kn, inner.ks, job, next, v.end, b)
  {
    hide Wf, Den, Eval, EndValue;
    var next := Behind(inner, v, base);
    assert Follows(inner.kn, inner.ks, job, inner) by {
      forall w, r | Fits(w, inner.kn, inner.ks) ensures Corresponds(job.goal(w, r), inner.goal(w, r), job.base) {
        assert HeldAt(w, job.goal(w, r), inner.goal(w, r), job.base, Const(c), a);
      }
    }
    HeldBehind(job, inner, v, lim, b, base);
    EnterBehind(inner, v, lim, base);
    var from, to := Aim(next, Lit(Nil)), Aim(next, a);
    forall w, r | Fits(w, job.kn, job.ks) ensures Turns(w, Const(Nil), Const(c), base, base, from.goal(w, r), to.goal(w, r)) {
      var g, h, n := job.goal(w, r), inner.goal(w, r), next.goal(w, r);
      assert HeldAt(w, g, h, job.base, Const(c), a) && HeldAt(w, g, n, job.base, v.end, b);
      assert from.goal(w, r) == Toward(w, n, Lit(Nil)) && to.goal(w, r) == Toward(w, n, a);
      ConstHolds(w, g, h, n, job.base, c, a, base);
    }
    Redirect(from, Opening(v), lim, Const(c), to);
    assert Opening(v).(end := Const(c)) == v.(end := Const(c));
  }

  lemma ConstHolds(w: World, g: Goal, h: Goal, n: Goal, base: int, c: Value, a: Expr, base2: int)
    requires HeldAt(w, g, h, base, Const(c), a) && Corresponds(g, n, base) && Scoped(a, base) && base <= base2 <= NO_REG
    ensures Turns(w, Const(Nil), Const(c), base2, base2, Toward(w, n, Lit(Nil)), Toward(w, n, a))
  {
    if g.Here? { EvalAgree(w, a, base, g.r, n.r); }
  }

  /** The constant tables recorded in the jobs do not matter here. */
  lemma SameHeld(kn: seq<real>, ks: seq<string>, job: Job, inner: Job, job2: Job, inner2: Job, end: End, x: Expr)
    requires Held(kn, ks, job, inner, end, x)
    requires job2 == job.(kn := job2.kn, ks := job2.ks) && inner2 == inner.(kn := inner2.kn, ks := inner2.ks)
    ensures Held(kn, ks, job2, inner2, end, x)
  {
  }

  lemma HeldStart(kn: seq<real>, ks: seq<string>, job: Job, inner: Job, end: End, x: Expr)
    requires Held(kn, ks, job, inner, end, x)
    ensures inner.start == job.start && job.base <= inner.base <= NO_REG
  {
  }

  lemma {:induction false} ScopedMore(x: Expr, n: int, m: int)
    requires Scoped(x, n) && n <= m
    ensures Scoped(x, m)
  {
    match x
    case Lit(_) =>
    case Local(_) =>
    case Upval(_) =>
    case Paren(y) => ScopedMore(y, n, m);
    case Not(y) => ScopedMore(y, n, m);
    case And(a, b) => ScopedMore(a, n, m); ScopedMore(b, n, m);
    case Or(a, b) => ScopedMore(a, n, m); ScopedMore(b, n, m);
    case Coal(a, b) => ScopedMore(a, n, m); ScopedMore(b, n, m);
    case Compare(_, a, b) => ScopedMore(a, n, m); ScopedMore(b, n, m);
    case Choose(c, a, b) => ScopedMore(c, n, m); ScopedMore(a, n, m); ScopedMore(b, n, m);
  }

  lemma DecidesEq(w: World, ins: Ins, endX: End, endY: End, s: Regs, x: Expr, y: Expr, z: Expr)
    requires z.Compare? && (z.op.Eq? || z.op.Ne?) && z.l == x && z.r == y
    requires Holds(w, ins, s) == (w.eq(EndValue(w, endX, s), EndValue(w, endY, s)) == z.op.Eq?)
    ensures Decides(w, ins, endX, endY, s, x, y, z, true)
  {
    hide Holds, EndValue;
  }

  /** Opcode and operands of an ordering: `ra` holds the left value, `rb` the
      right one; an odd opcode swaps them and becomes even. */
  function OrderIns(op: CmpOp, ra: int, rb: int): Ins {
    var code := ISLT + (match op case Lt => 0 case Ge => 1 case Le => 2 case _ => 3);
    if (code - ISLT) % 2 != 0 then Ins(3 - (code - ISLT) + ISLT, rb, ra) else Ins(code, ra, rb)
  }

  lemma DecidesOrder(w: World, ins: Ins, ra: int, rb: int, s: Regs, a: Expr, b: Expr, z: Expr)
    requires z.Compare? && z.l == a && z.r == b && !z.op.Eq? && !z.op.Ne? && ins == OrderIns(z.op, ra, rb)
    ensures Decides(w, ins, Reg(ra), Reg(rb), s, a, b, z, true) && Decides(w, ins, Reg(rb), Reg(ra), s, b, a, z, false)
  {
  }

  lemma OrderDecides(kn: seq<real>, ks: seq<string>, ins: Ins, op: CmpOp, ra: int, rb: int, a: Expr, b: Expr)
    requires !op.Eq? && !op.Ne? && ins == OrderIns(op, ra, rb)
    ensures forall w, s :: Fits(w, kn, ks) ==> Decides(w, ins, Reg(ra), Reg(rb), s, a, b, Compare(op, a, b), true)
    ensures forall w, s :: Fits(w, kn, ks) ==> Decides(w, ins, Reg(rb), Reg(ra), s, b, a, Compare(op, a, b), false)
  {
    hide Decides, OrderIns;
    forall w, s
      ensures Decides(w, ins, Reg(ra), Reg(rb), s, a, b, Compare(op, a, b), true) && Decides(w, ins, Reg(rb), Reg(ra), s, b, a, Compare(op, a, b), false)
    {
      DecidesOrder(w, ins, ra, rb, s, a, b, Compare(op, a, b));
    }
  }

  /** The exits of the first operand of `and` (`b` true) or `or`, handed to the
      whole expression. */
  function Rejoined(v1: View, v3: View, b: bool): View {
    var exits := v1.ts + v1.fs;
    if b then v3.(ctx := v1.ctx, fs := v3.fs + exits) else v3.(ctx := v1.ctx, ts := v3.ts + exits)
  }

  lemma RejoinWf(v1: View, v3: View, b: bool, start: int, lim1: int, lim: int)
    requires Wf(v1, start, lim1) && Wf(v3, start, lim) && v3.ctx == v1.ctx + v1.ts + v1.fs
    ensures Wf(Rejoined(v1, v3, b), start, lim)
  {
    var v4 := Rejoined(v1, v3, b);
    assert Opens(v4) == Opens(v3) && Lists(v4) == Lists(v3);
    assert v1.ctx !! v1.ts !! v1.fs;
  }

  /** Both operands of `and` / `or` together deliver the whole value. */
  lemma ChainDen(job: Job, job1: Job, v1: View, lim1: int, b: bool, x: Expr, y: Expr, v3: View, lim: int)
    requires Wf(v1, job.start, lim1) && Den(Aim(job1, x), v1, NO_REG) && v1.end == Tested(b) && (if b then v1.ts else v1.fs) == {}
    requires Wf(v3, job.start, lim) && Den(Aim(Behind(job, v1, job.base), y), v3, NO_REG)
    requires job1 == job.(kn := job1.kn, ks := job1.ks) && job1.kn <= job.kn && job1.ks <= job.ks
    requires Kept(v1.code, v3.code, v1.ts + v1.fs) && v3.ctx == v1.ctx + v1.ts + v1.fs
    requires Scoped(y, job.base) && job.base <= NO_REG
    ensures Wf(Rejoined(v1, v3, b), job.start, lim) && Den(Aim(job, if b then And(x, y) else Or(x, y)), Rejoined(v1, v3, b), NO_REG)
  {
    hide Wf, Den, DenAt;
    var z := if b then And(x, y) else Or(x, y);
    var eval := (w: World, s: Regs) => Eval(w, y, s);
    RejoinWf(v1, v3, b, job.start, lim1, lim);
    DenGrown(Aim(job1, x), Aim(job, x), v1, NO_REG);
    ChainFacts(v1, v3, job.start, lim1, lim);
    forall w, r | Fits(w, job.kn, job.ks)
      ensures DenAt(w, Rejoined(v1, v3, b), job.start, job.base, NO_REG, Aim(job, z).goal(w, r), r)
    {
      DenInst(Aim(job, x), v1, w, r);
      DenInst(Aim(Behind(job, v1, job.base), y), v3, w, r);
      AfterSame(w, job, v1, y, eval, r);
      ChainGoal(w, job.goal(w, r), x, y, b, job.base);
      ChainAt(w, v1, job.start, job.base, eval, b, v3, Rejoined(v1, v3, b), Toward(w, job.goal(w, r), x), Toward(w, job.goal(w, r), z), r);
    }
    DenAll(Aim(job, z), Rejoined(v1, v3, b));
  }

  lemma AfterSame(w: World, job: Job, v: View, y: Expr, eval: (World, Regs) -> Value, r: Regs)
    requires forall s :: eval(w, s) == Eval(w, y, s)
    ensures Aim(Behind(job, v, job.base), y).goal(w, r) == After(v, job.start, eval)(w, r)
  {
    var (q, s) := Run(w, v.code, Opens(v), job.start, r);
    var g := BehindGoal(v, job.start)(w, r);
    assert g == if AtEnd(v, q) then Here(s, Nil, Nil) else Elsewhere(q, s);
    assert Aim(Behind(job, v, job.base), y).goal(w, r) == Toward(w, g, y);
  }

  lemma DenInst(job: Job, v: View, w: World, r: Regs)
    requires Den(job, v, NO_REG) && Fits(w, job.kn, job.ks)
    ensures DenAt(w, v, job.start, job.base, NO_REG, job.goal(w, r), r)
  {
  }

  lemma DenAll(job: Job, v: View)
    requires forall w, r :: Fits(w, job.kn, job.ks) ==> DenAt(w, v, job.start, job.base, NO_REG, job.goal(w, r), r)
    ensures Den(job, v, NO_REG)
  {
  }

  lemma ChainFacts(v1: View, v3: View, start: int, lim1: int, lim: int)
    requires Wf(v1, start, lim1) && Wf(v3, start, lim)
    ensures (forall i :: i in Lists(v1) ==> 0 < i < |v1.code|) && v1.ctx !! v1.js !! v1.ts !! v1.fs
    ensures v3.ctx !! v3.js !! v3.ts !! v3.fs !! Hanging(v3.end)
  {
  }

  lemma ChainGoal(w: World, g: Goal, x: Expr, y: Expr, b: bool, base: int)
    requires Scoped(y, base) && base <= NO_REG
    ensures var z := if b then And(x, y) else Or(x, y);
      g.Here? ==> forall s :: Agree(g.r, s, base, NO_REG) ==>
        Eval(w, z, g.r) == if Truthy(Eval(w, x, g.r)) == b then Eval(w, y, s) else Eval(w, x, g.r)
  {
    hide Eval;
    ShortEval(w, x, y, if g.Here? then g.r else seq(REGS, _ => Nil));
    if g.Here? {
      forall s | Agree(g.r, s, base, NO_REG) ensures Eval(w, y, s) == Eval(w, y, g.r) { EvalAgree(w, y, base, g.r, s); }
    }
  }

  lemma ShortEval(w: World, x: Expr, y: Expr, r: Regs)
    ensures Eval(w, And(x, y), r) == if Truthy(Eval(w, x, r)) then Eval(w, y, r) else Eval(w, x, r)
    ensures Eval(w, Or(x, y), r) == if Truthy(Eval(w, x, r)) then Eval(w, x, r) else Eval(w, y, r)
  {
  }

  /** Half-way through `not x`: exits speak of `not x`, the end still of `x`. */
  function SwapGoal(goal: (World, Regs) -> Goal, x: Expr): (World, Regs) -> Goal {
    (w: World, r: Regs) => HalfToward(w, goal(w, r), x)
  }

  function HalfToward(w: World, g: Goal, x: Expr): Goal {
    if g.Here? then Here(g.r, Eval(w, x, g.r), Eval(w, Not(x), g.r)) else g
  }

  function Negating(job: Job, x: Expr): Job { job.(goal := SwapGoal(job.goal, x)) }

  lemma SwapsGoals(job: Job, x: Expr)
    ensures forall w, r :: Swapped(Aim(job, x).goal(w, r), Negating(job, x).goal(w, r))
  {
    forall w, r ensures Swapped(Aim(job, x).goal(w, r), Negating(job, x).goal(w, r)) {
      var g := job.goal(w, r);
      assert Negating(job, x).goal(w, r) == HalfToward(w, g, x) && Aim(job, x).goal(w, r) == Toward(w, g, x);
    }
  }

  /** `end2` denotes the negation of what `end` denotes. */
  predicate NegatedOn(w: World, end: End, end2: End, s: Regs) {
    EndValue(w, end2, s) == Bool(!Truthy(EndValue(w, end, s)))
  }

  lemma NegatesEnd(job: Job, x: Expr, end: End, end2: End)
    requires end.Const? || end.Reg? || (end.Ready? && IsCompare(end.ins.op))
    requires match end case Const(v) => end2 == Const(Bool(!Truthy(v))) case Reg(i) => end2 == Ready(Ins(NOT, 0, i))
      case Ready(ins) => end2 == Ready(Inverted(ins)) case _ => true
    ensures forall w, r :: Reread(w, end, end2, job.base, Negating(job, x).goal(w, r), Aim(job, Not(x)).goal(w, r))
  {
    hide Eval, EndValue;
    forall w, r ensures Reread(w, end, end2, job.base, Negating(job, x).goal(w, r), Aim(job, Not(x)).goal(w, r)) {
      var g := job.goal(w, r);
      assert Negating(job, x).goal(w, r) == HalfToward(w, g, x) && Aim(job, Not(x)).goal(w, r) == Toward(w, g, Not(x));
      forall s ensures NegatedOn(w, end, end2, s) { NegatedAt(w, end, end2, s); }
      NegatesAt(w, g, x, end, end2, job.base);
    }
  }

  lemma NegatesAt(w: World, g: Goal, x: Expr, end: End, end2: End, base: int)
    requires forall s :: NegatedOn(w, end, end2, s)
    ensures Reread(w, end, end2, base, HalfToward(w, g, x), Toward(w, g, Not(x)))
  {
    hide EndValue, Eval;
    if g.Here? {
      NotEval(w, x, g.r);
      forall s | EndValue(w, end, s) == Eval(w, x, g.r) ensures EndValue(w, end2, s) == Eval(w, Not(x), g.r) {
        assert NegatedOn(w, end, end2, s);
      }
    }
  }

  lemma NotEval(w: World, x: Expr, r: Regs)
    ensures Eval(w, Not(x), r) == Bool(!Truthy(Eval(w, x, r)))
  {
  }

  lemma NegatedAt(w: World, end: End, end2: End, s: Regs)
    requires end.Const? || end.Reg? || (end.Ready? && IsCompare(end.ins.op))
    requires match end case Const(v) => end2 == Const(Bool(!Truthy(v))) case Reg(i) => end2 == Ready(Ins(NOT, 0, i))
      case Ready(ins) => end2 == Ready(Inverted(ins)) case _ => true
    ensures NegatedOn(w, end, end2, s)
  {
    if end.Ready? { InvertedHolds(w, end.ins, s); }
  }

  lemma InvertedOp(cmp: Ins)
    requires IsCompare(cmp.op)
    ensures IsCompare(Inverted(cmp).op) && Inverted(cmp).a == cmp.a
  {
  }

  // -- Values that meet in one register ----------------------------------------------

  /** Before the last operand `y` of `z` starts, the other ways to get a value
      have left through the jumps `joined`, with the value in register `base`. */
  ghost predicate Joined(kn: seq<real>, ks: seq<string>, job: Job, inner: Job, joined: set<int>, y: Expr, z: Expr) {
    && inner.base == job.base <= NO_REG && inner.start == job.start
    && forall w, r :: Fits(w, kn, ks) ==> Joins(w, job.goal(w, r), inner.goal(w, r), joined, job.base, y, z)
  }

  predicate Joins(w: World, g: Goal, h: Goal, joined: set<int>, base: int, y: Expr, z: Expr) {
    if g.Here? then
      Agree(g.r, h.r, base, NO_REG) && if h.Here? then Eval(w, z, g.r) == Eval(w, y, g.r) else h.q in joined && Eval(w, z, g.r) == Get(h.r, base)
    else h == g && h.q !in joined
  }

  /** The last operand arrives in `base` too, and the jumps land behind it. */
  lemma JoinDen(job: Job, inner: Job, v: View, lim: int, joined: set<int>, y: Expr, z: Expr, v2: View)
    requires Wf(v, inner.start, lim) && Den(Aim(inner, y), v, NO_REG) && v.end == Reg(job.base) && Scoped(y, job.base)
    requires Joined(inner.kn, inner.ks, job, inner, joined, y, z) && joined <= v.ctx && joined != {} && inner.kn == job.kn && inner.ks == job.ks
    requires v2 == v.(ctx := v.ctx - joined, js := v.js + joined)
    ensures Wf(v2, job.start, |v.code|) && Den(Aim(job, z), v2, NO_REG)
  {
    hide Wf, Den, Eval;
    var from, to := Aim(inner, y), Aim(job, z);
    forall w, r | Fits(w, job.kn, job.ks) ensures Widens(w, v.end, from.goal(w, r), to.goal(w, r), joined, job.base) {
      var g, h := job.goal(w, r), inner.goal(w, r);
      assert Joins(w, g, h, joined, job.base, y, z);
      if g.Here? && h.Here? { EvalAgree(w, y, job.base, g.r, h.r); }
      assert from.goal(w, r) == Toward(w, h, y) && to.goal(w, r) == Toward(w, g, z);
    }
    Regoal(from, v, lim, NO_REG, to, joined, v2);
  }

  lemma JoinedGrown(kn: seq<real>, ks: seq<string>, kn2: seq<real>, ks2: seq<string>, job: Job, inner: Job, joined: set<int>, y: Expr, z: Expr)
    requires Joined(kn, ks, job, inner, joined, y, z) && kn <= kn2 && ks <= ks2
    ensures Joined(kn2, ks2, job, inner, joined, y, z)
  {
    forall w, r | Fits(w, kn2, ks2) ensures Joins(w, job.goal(w, r), inner.goal(w, r), joined, job.base, y, z) {
      assert Fits(w, kn, ks);
    }
  }

  /** The test of `x ?? y`: jumps when register `reg`, holding `x`, is not nil. */
  function NotNil(reg: int): Ins { Ins(ISNEP, reg, 0) }

  lemma CoalSplit(job: Job, v: View, lim: int, x: Expr, y: Expr, jmp: Ins, v2: View)
    requires Wf(v, job.start, lim) && Den(Aim(job, x), v, NO_REG) && v.end == Reg(job.base) && v.ts == {} && v.fs == {}
    requires 0 <= job.base < MAX_SLOTS && jmp.op == JMP && jmp.a != NO_REG
    requires v2 == View(Landed(v.code, v.js) + [NotNil(job.base), jmp], v.ctx + {|v.code| + 1}, {}, Const(Nil), {}, {})
    ensures Wf(v2, job.start, lim) && Joined(job.kn, job.ks, job, Behind(job, v2, job.base), {|v.code| + 1}, y, Coal(x, y))
  {
    hide Den;
    var more, j := [NotNil(job.base), jmp], |v.code| + 1;
    NewPositions(v, job.start, lim);
    EmitWf(v, job.start, lim, more, {j}, v2);
    var inner := Behind(job, v2, job.base);
    forall w, r | Fits(w, job.kn, job.ks) ensures Joins(w, job.goal(w, r), inner.goal(w, r), {j}, job.base, y, Coal(x, y)) {
      DenInst(Aim(job, x), v, w, r);
      EmitOutcome(w, v, job.start, lim, more, {j}, v2, r);
      CoalAt(w, v, job.start, job.base, x, y, jmp, v2, job.goal(w, r), inner.goal(w, r), r);
    }
  }

  lemma CoalAt(w: World, v: View, start: int, base: int, x: Expr, y: Expr, jmp: Ins, v2: View, g: Goal, h: Goal, r: Regs)
    requires v2 == View(Landed(v.code, v.js) + [NotNil(base), jmp], v.ctx + {|v.code| + 1}, {}, Const(Nil), {}, {})
    requires (forall i :: i in Lists(v) ==> 0 < i < |v.code|) && v.end == Reg(base) && v.ts == {} && v.fs == {} && v.ctx !! v.js
    requires DenAt(w, v, start, base, NO_REG, Toward(w, g, x), r)
    requires var (q, s) := Run(w, v.code, Opens(v), start, r);
      Run(w, v2.code, Opens(v2), start, r) == if AtEnd(v, q) then Run(w, v2.code, Opens(v2), |v.code|, s) else (q, s)
    requires h == BehindGoal(v2, start)(w, r)
    ensures Joins(w, g, h, {|v.code| + 1}, base, y, Coal(x, y))
  {
    hide Eval;
    var n := |v.code|;
    var (q, s) := Run(w, v.code, Opens(v), start, r);
    assert v2.code[n] == NotNil(base) && n !in Opens(v2) && n + 1 in Opens(v2) && n + 2 == |v2.code|;
    assert Run(w, v2.code, Opens(v2), n, s) == Step(w, NotNil(base), n, s);
    assert Holds(w, NotNil(base), s) == !w.eq(Get(s, base), Nil);
    if g.Here? { CoalEval(w, x, y, g.r); }
  }

  lemma CoalEval(w: World, x: Expr, y: Expr, r: Regs)
    ensures Eval(w, Coal(x, y), r) == if w.eq(Eval(w, x, r), Nil) then Eval(w, y, r) else Eval(w, x, r)
  {
  }

  /** `c ? a : b` once `a` is in its register (`v3`): a jump over `b` ends the
      code, and the exits of `c` land behind it. */
  ghost predicate Over(v1: View, v3: View, jmp: Ins, v2: View, base: int) {
    && v1.end == Tested(true) && v1.ts == {} && v3.end == Reg(base) && v3.ts == {} && v3.fs == {} && v3.ctx == v1.ctx + v1.fs
    && jmp.op == JMP && jmp.a != NO_REG
    && v2 == View(v3.code + [jmp], v1.ctx + v3.js + {|v3.code|}, v1.fs, Const(Nil), {}, {})
  }

  lemma OverWf(v1: View, v3: View, jmp: Ins, v2: View, base: int, start: int, lim1: int, lim: int)
    requires Wf(v1, start, lim1) && Wf(v3, start, lim) && Over(v1, v3, jmp, v2, base)
    ensures Wf(v2, start, |v2.code|)
  {
    var n, o := |v3.code|, Opens(v2);
    NewPositions(v3, start, lim);
    assert o == Opens(v3) + {n} && Lists(v2) == Lists(v3) + {n};
    assert ShapeAt(v3.code, n - 1);
    forall i | 0 <= start <= i < n + 1 && i !in o ensures FlowAt(v2.code, n + 1, i) { assert FlowAt(v3.code, lim, i); }
    forall i | 0 <= i < n + 1 ensures ShapeAt(v2.code, i) { if i < n { assert ShapeAt(v3.code, i); } }
    forall q | q in o && 0 < q < n + 1 ensures EntryAt(v2.code, o, start, q) {
      if q < n {
        assert EntryAt(v3.code, Opens(v3), start, q);
        EntryExtended(v3.code, v2.code, Opens(v3), o, start, q);
      }
    }
    OverJumps(v3, v2.code, start, lim, jmp);
    assert v1.ctx !! v1.fs;
  }

  lemma OverJumps(v3: View, c: seq<Ins>, start: int, lim: int, jmp: Ins)
    requires Wf(v3, start, lim) && c == v3.code + [jmp] && jmp.op == JMP && jmp.a != NO_REG
    ensures Jumps(c, Lists(v3) + {|v3.code|})
  {
    assert ShapeAt(v3.code, |v3.code| - 1);
  }

  lemma OverRun(w: World, v1: View, v3: View, jmp: Ins, v2: View, base: int, start: int, lim: int, r: Regs)
    requires Wf(v3, start, lim) && Over(v1, v3, jmp, v2, base)
    ensures Run(w, v2.code, Opens(v2), start, r) == Run(w, v3.code, Opens(v3), start, r)
  {
    NewPositions(v3, start, lim);
    FlowWider(v3.code, Opens(v3), start, lim);
    RunAppended(w, v3.code, [jmp], Opens(v3), Opens(v2), start, start, r);
  }

  lemma ChooseSplit(job: Job, v1: View, lim1: int, v3: View, lim: int, c: Expr, a: Expr, b: Expr, jmp: Ins, v2: View)
    requires Wf(v1, job.start, lim1) && Den(Aim(job, c), v1, NO_REG) && Over(v1, v3, jmp, v2, job.base)
    requires Wf(v3, job.start, lim) && Den(Aim(Behind(job, v1, job.base), a), v3, NO_REG) && Scoped(a, job.base) && job.base <= NO_REG
    ensures Wf(v2, job.start, |v2.code|)
    ensures Joined(job.kn, job.ks, job, Behind(job, v2, job.base), v3.js + {|v3.code|}, b, Choose(c, a, b))
  {
    hide Wf, Den, DenAt, Eval, Joins;
    OverWf(v1, v3, jmp, v2, job.base, job.start, lim1, lim);
    var inner, first := Behind(job, v2, job.base), Behind(job, v1, job.base);
    NewPositions(v3, job.start, lim);
    NewPositions(v2, job.start, |v2.code|);
    WfFacts(v1, job.start, lim1);
    WfFacts(v3, job.start, lim);
    forall w, r | Fits(w, job.kn, job.ks) ensures Joins(w, job.goal(w, r), inner.goal(w, r), v3.js + {|v3.code|}, job.base, b, Choose(c, a, b)) {
      DenInst(Aim(job, c), v1, w, r);
      DenInst(Aim(first, a), v3, w, r);
      OverRun(w, v1, v3, jmp, v2, job.base, job.start, lim, r);
      assert Aim(first, a).goal(w, r) == Toward(w, first.goal(w, r), a);
      ChooseAt(w, v1, v3, jmp, v2, job.start, job.base, c, a, b, job.goal(w, r), first.goal(w, r), inner.goal(w, r), r);
    }
  }

  lemma ChooseAt(w: World, v1: View, v3: View, jmp: Ins, v2: View, start: int, base: int, c: Expr, a: Expr, b: Expr, g: Goal, h1: Goal, h: Goal, r: Regs)
    requires Over(v1, v3, jmp, v2, base) && Scoped(a, base) && base <= NO_REG
    requires (forall i :: i in Lists(v1) ==> 0 < i < |v1.code|) && v1.ctx !! v1.js !! v1.ts !! v1.fs && v3.ctx !! v3.js
    requires (forall i :: i in Lists(v3) ==> 0 < i < |v3.code|)
    requires DenAt(w, v1, start, base, NO_REG, Toward(w, g, c), r)
    requires DenAt(w, v3, start, base, NO_REG, Toward(w, h1, a), r)
    requires h1 == BehindGoal(v1, start)(w, r) && h == BehindGoal(v2, start)(w, r)
    requires Run(w, v2.code, Opens(v2), start, r) == Run(w, v3.code, Opens(v3), start, r)
    ensures Joins(w, g, h, v3.js + {|v3.code|}, base, b, Choose(c, a, b))
  {
    hide Eval;
    var (q1, s1) := Run(w, v1.code, Opens(v1), start, r);
    var (q, s) := Run(w, v3.code, Opens(v3), start, r);
    assert h1 == if AtEnd(v1, q1) then Here(s1, Nil, Nil) else Elsewhere(q1, s1);
    assert h == if AtEnd(v2, q) then Here(s, Nil, Nil) else Elsewhere(q, s);
    if g.Here? {
      ChooseEval(w, c, a, b, g.r);
      if AtEnd(v1, q1) { EvalAgree(w, a, base, g.r, s1); }
    }
  }

  lemma ChooseEval(w: World, c: Expr, a: Expr, b: Expr, r: Regs)
    ensures Eval(w, Choose(c, a, b), r) == if Truthy(Eval(w, c, r)) then Eval(w, a, r) else Eval(w, b, r)
  {
  }

  lemma SameJoined(kn: seq<real>, ks: seq<string>, job: Job, job2: Job, inner: Job, inner2: Job, joined: set<int>, y: Expr, z: Expr)
    requires Joined(kn, ks, job, inner, joined, y, z)
    requires job2 == job.(kn := job2.kn, ks := job2.ks) && inner2 == inner.(kn := inner2.kn, ks := inner2.ks)
    ensures Joined(kn, ks, job2, inner2, joined, y, z)
  {
    hide Joins;
  }

  lemma NewAlone(v: View, start: int, lim: int)
    requires Wf(v, start, lim)
    ensures v.ctx !! {|v.code| + 1}
  {
    NewPositions(v, start, lim);
  }

  lemma JoinedBase(kn: seq<real>, ks: seq<string>, job: Job, inner: Job, joined: set<int>, y: Expr, z: Expr)
    requires Joined(kn, ks, job, inner, joined, y, z)
    ensures inner.base == job.base <= NO_REG
  {
  }

  lemma SameFollows(job: Job)
    requires job.base <= NO_REG
    ensures Follows(job.kn, job.ks, job, job)
  {
  }

  /** The descriptor of a leaf says what the leaf means. */
  lemma LeafTurns(job: Job, x: Expr, n: int, end: End)
    requires Scoped(x, n) && n <= job.base <= NO_REG
    requires match x case Lit(c) => end == Const(c) case Local(i) => end == Reg(i) case Upval(i) => end == Ready(Ins(UGET, 0, i)) case _ => false
    ensures forall w, r :: Turns(w, Const(Nil), end, job.base, job.base, Aim(job, Lit(Nil)).goal(w, r), Aim(job, x).goal(w, r))
  {
    forall w, r ensures Turns(w, Const(Nil), end, job.base, job.base, Aim(job, Lit(Nil)).goal(w, r), Aim(job, x).goal(w, r)) {
      var g := job.goal(w, r);
      assert Aim(job, Lit(Nil)).goal(w, r) == Toward(w, g, Lit(Nil)) && Aim(job, x).goal(w, r) == Toward(w, g, x);
    }
  }

  /** Parentheses change no value. */
  lemma ParenDen(job: Job, v: View, y: Expr)
    requires Den(Aim(job, y), v, NO_REG)
    ensures Den(Aim(job, Paren(y)), v, NO_REG)
  {
    hide DenAt;
    forall w, r | Fits(w, job.kn, job.ks) ensures DenAt(w, v, job.start, job.base, NO_REG, Aim(job, Paren(y)).goal(w, r), r) {
      DenInst(Aim(job, y), v, w, r);
      assert Aim(job, Paren(y)).goal(w, r) == Toward(w, job.goal(w, r), Paren(y));
      assert Aim(job, y).goal(w, r) == Toward(w, job.goal(w, r), y);
    }
  }

  lemma KeptSame(code: seq<Ins>, ctx: set<int>)
    ensures Kept(code, code, ctx)
  {
  }

  // -- Chunks of local declarations ----------------------------------------------------

  /** The registers after `local v0 = xs[0]`, `local v1 = xs[1]`, ... */
  function Declared(w: World, xs: seq<Expr>, r: Regs): Regs {
    if xs == [] then r
    else
      var s := Declared(w, xs[..|xs| - 1], r);
      Set(s, |xs| - 1, Eval(w, xs[|xs| - 1], s))
  }

  function LocalsGoal(xs: seq<Expr>): (World, Regs) -> Goal {
    (w: World, r: Regs) => Here(Declared(w, xs, r), Nil, Nil)
  }

  /** Run from behind the function header, declare the locals `xs`. */
  function LocalsJob(kn: seq<real>, ks: seq<string>, xs: seq<Expr>): Job { Job(kn, ks, 1, |xs|, LocalsGoal(xs)) }

  /** The value of one more initializer is in the register after the locals. */
  lemma DeclareDen(kn: seq<real>, ks: seq<string>, xs: seq<Expr>, x: Expr, v: View, lim: int)
    requires var job := LocalsJob(kn, ks, xs); Wf(v, 1, lim) && Den(Aim(job, x), v, NO_REG)
    requires v.end == Reg(|xs|) && v.ts == {} && v.fs == {} && |xs| < MAX_SLOTS
    ensures var v2 := v.(end := Const(Nil));
      Wf(v2, 1, lim) && Den(Aim(LocalsJob(kn, ks, xs + [x]), Lit(Nil)), v2, NO_REG)
  {
    hide Eval;
    var job, next := LocalsJob(kn, ks, xs), LocalsJob(kn, ks, xs + [x]);
    var v2 := v.(end := Const(Nil));
    assert Opens(v2) == Opens(v) && Lists(v2) == Lists(v);
    forall w, r | Fits(w, kn, ks) ensures DenAt(w, v2, 1, |xs| + 1, NO_REG, Aim(next, Lit(Nil)).goal(w, r), r) {
      DenInst(Aim(job, x), v, w, r);
      var g, h := Here(Declared(w, xs, r), Nil, Nil), Here(Declared(w, xs + [x], r), Nil, Nil);
      assert job.goal(w, r) == g && next.goal(w, r) == h;
      assert Aim(job, x).goal(w, r) == Toward(w, g, x) && Aim(next, Lit(Nil)).goal(w, r) == Toward(w, h, Lit(Nil));
      DeclareAt(w, xs, x, r);
    }
  }

  lemma DeclareAt(w: World, xs: seq<Expr>, x: Expr, r: Regs)
    ensures var s := Declared(w, xs, r); Declared(w, xs + [x], r) == Set(s, |xs|, Eval(w, x, s)) && Eval(w, Lit(Nil), r) == Nil
    ensures Eval(w, Lit(Nil), Declared(w, xs + [x], r)) == Nil
  {
    assert (xs + [x])[..|xs|] == xs;
  }

  /** A chunk that ends in `RET0` computes its locals, whatever machine it runs on. */
  lemma ChunkRuns(kn: seq<real>, ks: seq<string>, xs: seq<Expr>, v: View, lim: int, ret: Ins, w: World, r: Regs)
    requires Wf(v, 1, lim) && Den(Aim(LocalsJob(kn, ks, xs), Lit(Nil)), v, NO_REG) && Fits(w, kn, ks)
    requires v.ctx == {} && v.ts == {} && v.fs == {} && v.end == Const(Nil) && ret.op == RET0 && |xs| <= MAX_SLOTS
    ensures var (q, s) := Run(w, Landed(v.code, v.js) + [ret], {}, 1, r);
      q == |v.code| && forall k :: 0 <= k < |xs| ==> s[k] == Declared(w, xs, r)[k]
  {
    hide Den, Eval;
    var (q, s) := Run(w, v.code, Opens(v), 1, r);
    DenInst(Aim(LocalsJob(kn, ks, xs), Lit(Nil)), v, w, r);
    assert Aim(LocalsJob(kn, ks, xs), Lit(Nil)).goal(w, r) == Toward(w, Here(Declared(w, xs, r), Nil, Nil), Lit(Nil));
    NewPositions(v, 1, lim);
    if 1 in v.js { assert 1 in Lists(v) && EntryAt(v.code, Opens(v), 1, 1); }
    assert Opens(v) == v.js && v.js - v.js + {} == {};
    EmitRun(w, v.code, Opens(v), v.js, [ret], {}, 1, lim, r);
    var c := Landed(v.code, v.js) + [ret];
    assert c[|v.code|] == ret;
    assert Run(w, c, {}, |v.code|, s) == (|v.code|, s);
  }
}
