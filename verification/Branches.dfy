/** Joining, linking and negating half-compiled expressions. */
module Branches {
  import opened Bytecode
  import opened Exec
  import opened Delivery
  import opened Emission
  import opened Steps

  /** Runs agree on codes whose finished instructions step alike. */
  lemma {:induction false} RunAgree(w: World, c1: seq<Ins>, c2: seq<Ins>, open: set<int>, start: int, pc: int, r: Regs)
    requires |c1| == |c2| && 0 <= start <= pc
    requires forall i, s {:trigger Step(w, c2[i], i, s)} :: start <= i < |c1| && i !in open ==> Step(w, c1[i], i, s) == Step(w, c2[i], i, s)
    ensures Run(w, c1, open, pc, r) == Run(w, c2, open, pc, r)
    decreases |c1| - pc
  {
    if pc < |c1| && pc !in open {
      var (next, s) := Step(w, c2[pc], pc, r);
      if next > pc { RunAgree(w, c1, c2, open, start, next, s); }
    }
  }

  /** `c2` differs from `c1` only in the link of the open jump `q`. */
  predicate Relinked(c1: seq<Ins>, c2: seq<Ins>, q: int) {
    0 < q < |c1| && c2 == c1[q := c1[q].(d := if |c2| == |c1| then c2[q].d else 0)]
  }

  /** Linking one jump list to another changes no run. */
  lemma Relink(job: Job, v: View, lim: int, skip: int, q: int, v2: View)
    requires Wf(v, job.start, lim) && Den(job, v, skip) && q in Lists(v)
    requires Relinked(v.code, v2.code, q) && v2 == v.(code := v2.code)
    ensures Wf(v2, job.start, lim) && Den(job, v2, skip)
  {
    RelinkWf(v, job.start, lim, q, v2);
    forall w, r | Fits(w, job.kn, job.ks) ensures DenAt(w, v2, job.start, job.base, skip, job.goal(w, r), r) {
      assert DenAt(w, v, job.start, job.base, skip, job.goal(w, r), r);
      RunAgree(w, v.code, v2.code, Opens(v), job.start, job.start, r);
      RelinkExits(v, job.start, lim, q, v2);
    }
  }

  lemma RelinkExits(v: View, start: int, lim: int, q: int, v2: View)
    requires Wf(v, start, lim) && q in Lists(v) && Relinked(v.code, v2.code, q)
    ensures forall i :: 0 <= i < |v.code| ==> Valued(v2.code[i]) == Valued(v.code[i]) && (i != q ==> v2.code[i] == v.code[i])
    ensures v.code[q].op == JMP && !Valued(v.code[q])
  {
    assert ShapeAt(v.code, q);
  }

  lemma RelinkWf(v: View, start: int, lim: int, q: int, v2: View)
    requires Wf(v, start, lim) && q in Lists(v) && Relinked(v.code, v2.code, q) && v2 == v.(code := v2.code)
    ensures Wf(v2, start, lim)
  {
    RelinkExits(v, start, lim, q, v2);
    RewriteFlow(v.code, Opens(v), start, lim, q, v2.code[q]);
    RewriteShape(v.code, Opens(v), q, v2.code[q]);
    RewriteEntries(v.code, Opens(v), start, q, v2.code[q]);
    RewriteJumps(v.code, Opens(v), Lists(v), q, v2.code[q]);
    assert v2.code == v.code[q := v2.code[q]] && Opens(v2) == Opens(v) && Lists(v2) == Lists(v);
  }

  /** A comparison's jump filed as an exit taken with `true`. */
  lemma FileCond(job: Job, v: View, lim: int, v2: View)
    requires Wf(v, job.start, lim) && v.end.Cond? && Den(job, v, NO_REG) && Plain(job.goal)
    requires v2 == v.(ts := v.ts + {v.end.pc}, end := Const(False))
    ensures Wf(v2, job.start, lim) && Den(job, v2, NO_REG)
  {
    FileCondWf(v, job.start, lim, v2);
    forall w, r | Fits(w, job.kn, job.ks) ensures DenAt(w, v2, job.start, job.base, NO_REG, job.goal(w, r), r) {
      assert DenAt(w, v, job.start, job.base, NO_REG, job.goal(w, r), r);
    }
  }

  lemma FileCondWf(v: View, start: int, lim: int, v2: View)
    requires Wf(v, start, lim) && v.end.Cond? && v2 == v.(ts := v.ts + {v.end.pc}, end := Const(False))
    ensures Wf(v2, start, lim) && Opens(v2) == Opens(v) && !Valued(v.code[v.end.pc - 1])
  {
    assert Opens(v2) == Opens(v);
    assert ShapeAt(v.code, v.end.pc - 1);
  }

  /** Exits whose truth is all that matters join the code behind (`jmp_tohere`). */
  lemma Join(job: Job, v: View, lim: int, b: bool, v2: View)
    requires Wf(v, job.start, lim) && Den(job, v, NO_REG) && Plain(job.goal)
    requires v.end == Tested(b) || (v.end.Const? && Truthy(v.end.v) == b)
    requires v2 == if b then v.(js := v.js + v.ts, ts := {}, end := Tested(b)) else v.(js := v.js + v.fs, fs := {}, end := Tested(b))
    ensures Wf(v2, job.start, |v.code|) && Den(job, v2, NO_REG)
  {
    assert Opens(v2) == Opens(v) && Lists(v2) == Lists(v);
    FlowWider(v.code, Opens(v), job.start, lim);
    forall w, r | Fits(w, job.kn, job.ks) ensures DenAt(w, v2, job.start, job.base, NO_REG, job.goal(w, r), r) {
      assert DenAt(w, v, job.start, job.base, NO_REG, job.goal(w, r), r);
    }
  }

  /** Code kept for the jumps of an enclosing expression. */
  predicate Kept(c1: seq<Ins>, c2: seq<Ins>, ctx: set<int>) {
    |c1| <= |c2| && forall q {:trigger q in ctx} :: q in ctx && 0 < q < |c1| ==> KeptAt(c1, c2, q)
  }

  predicate KeptAt(c1: seq<Ins>, c2: seq<Ins>, q: int)
    requires 0 < q < |c1| <= |c2|
  {
    c2[q] == c1[q] && Valued(c2[q - 1]) == Valued(c1[q - 1]) && (Valued(c1[q - 1]) ==> c2[q - 1] == c1[q - 1])
  }

  /** What a run must do for an operand compiled behind `v1`: it starts where
      the runs of `v1` arrive. */
  function After(v1: View, start: int, eval: (World, Regs) -> Value): (World, Regs) -> Goal {
    (w: World, r: Regs) =>
      var (q, s) := Run(w, v1.code, Opens(v1), start, r);
      if AtEnd(v1, q) then Here(s, eval(w, s), eval(w, s)) else Elsewhere(q, s)
  }

  /** `and` / `or`: the second operand decides where the first did not. */
  lemma ChainAt(w: World, v1: View, start: int, base: int, eval: (World, Regs) -> Value, b: bool, v3: View, v4: View, g: Goal, h: Goal, r: Regs)
    requires v1.end == Tested(b) && (if b then v1.ts else v1.fs) == {}
    requires (forall i :: i in Lists(v1) ==> 0 < i < |v1.code|) && v1.ctx !! v1.js !! v1.ts !! v1.fs
    requires var exits := v1.ts + v1.fs;
      && Kept(v1.code, v3.code, exits) && v3.ctx == v1.ctx + exits && v3.ctx !! v3.js !! v3.ts !! v3.fs !! Hanging(v3.end)
      && v4 == if b then v3.(ctx := v1.ctx, fs := v3.fs + exits) else v3.(ctx := v1.ctx, ts := v3.ts + exits)
    requires DenAt(w, v1, start, base, NO_REG, g, r) && (g.Here? ==> g.v == g.x)
    requires DenAt(w, v3, start, base, NO_REG, After(v1, start, eval)(w, r), r)
    requires if g.Here? then h.Here? && h.r == g.r && h.v == h.x else h == g
    requires g.Here? ==> forall s :: Agree(g.r, s, base, NO_REG) ==> h.v == if Truthy(g.v) == b then eval(w, s) else g.v
    ensures DenAt(w, v4, start, base, NO_REG, h, r)
  {
    assert Opens(v4) == Opens(v3);
    var (q, s) := Run(w, v1.code, Opens(v1), start, r);
    var g2 := After(v1, start, eval)(w, r);
    assert g2 == if AtEnd(v1, q) then Here(s, eval(w, s), eval(w, s)) else Elsewhere(q, s);
    if g.Here? {
      assert Agree(g.r, s, base, NO_REG);
      if AtEnd(v1, q) {
        assert q !in v1.ts + v1.fs;
      } else {
        assert q in v1.ts + v1.fs && KeptAt(v1.code, v3.code, q);
      }
    }
  }

  lemma KeptTrans(c1: seq<Ins>, c2: seq<Ins>, c3: seq<Ins>, ctx: set<int>)
    requires Kept(c1, c2, ctx) && Kept(c2, c3, ctx)
    ensures Kept(c1, c3, ctx)
  {
    forall q | q in ctx && 0 < q < |c1| ensures KeptAt(c1, c3, q) {
      assert KeptAt(c1, c2, q) && KeptAt(c2, c3, q);
    }
  }

  lemma KeptLonger(c1: seq<Ins>, c2: seq<Ins>, c3: seq<Ins>, ctx: set<int>)
    requires Kept(c1, c2, ctx) && |c2| <= |c3| && c3[..|c2|] == c2
    ensures Kept(c1, c3, ctx)
  {
    forall q | q in ctx && 0 < q < |c1| ensures KeptAt(c1, c3, q) { assert KeptAt(c1, c2, q) && c3[q] == c2[q] && c3[q - 1] == c2[q - 1]; }
  }

  lemma KeptFewer(c1: seq<Ins>, c2: seq<Ins>, ctx: set<int>, ctx2: set<int>)
    requires Kept(c1, c2, ctx) && ctx2 <= ctx
    ensures Kept(c1, c2, ctx2)
  {
  }

  /** Constant tables only grow. */
  lemma DenGrown(job: Job, job2: Job, v: View, skip: int)
    requires Den(job, v, skip) && job.kn <= job2.kn && job.ks <= job2.ks && job2 == job.(kn := job2.kn, ks := job2.ks)
    ensures Den(job2, v, skip)
  {
    forall w, r | Fits(w, job2.kn, job2.ks) ensures DenAt(w, v, job.start, job.base, skip, job.goal(w, r), r) {
      assert Fits(w, job.kn, job.ks);
    }
  }

  /** Exempting one more register from the agreement, or one past the base. */
  lemma DenSkip(job: Job, v: View, skip: int, skip2: int)
    requires Den(job, v, skip) && (skip == NO_REG || skip >= job.base)
    ensures Den(job, v, skip2)
  {
    forall w, r | Fits(w, job.kn, job.ks) ensures DenAt(w, v, job.start, job.base, skip2, job.goal(w, r), r) {
      assert DenAt(w, v, job.start, job.base, skip, job.goal(w, r), r);
    }
  }

  // -- The tests a branch emits ------------------------------------------------

  lemma TestGuards(w: World, i: int, b: bool)
    ensures Guards(w, Reg(i), Ins(if b then ISTC else ISFC, NO_REG, i), b, Tested(!b))
  {
  }

  lemma ConstGuards(job: Job, c: Value, ins: Ins, b: bool)
    requires Supplies(job, Const(c), ins) && Truthy(c) == b && IsLoad(ins.op) && ins.a == NO_REG
    ensures forall w :: Fits(w, job.kn, job.ks) ==> Guards(w, Const(c), ins, b, Tested(!b))
  {
    forall w | Fits(w, job.kn, job.ks) ensures Guards(w, Const(c), ins, b, Tested(!b)) {
      var end2 := Tested(!b);
      forall s ensures GuardsOn(w, Const(c), ins, b, end2, s) { assert Loaded(w, ins, s) == c; }
    }
  }

  lemma NotGuards(w: World, not: Ins, b: bool)
    requires not.op == NOT
    ensures Guards(w, Ready(not), Ins(if b then ISF else IST, 0, not.d), b, Tested(!b))
  {
  }

  /** The opposite comparison, one opcode up or down. */
  function Inverted(ins: Ins): Ins { ins.(op := if ins.op % 2 == 0 then ins.op + 1 else ins.op - 1) }

  lemma CompareGuards(w: World, cmp: Ins, b: bool)
    requires IsCompare(cmp.op) && cmp.a != NO_REG
    ensures Guards(w, Ready(cmp), if b then cmp else Inverted(cmp), b, Const(Bool(!b)))
  {
    var g, end2 := if b then cmp else Inverted(cmp), Const(Bool(!b));
    forall s ensures GuardsOn(w, Ready(cmp), g, b, end2, s) { InvertedHolds(w, cmp, s); }
  }

  lemma InvertedHolds(w: World, cmp: Ins, s: Regs)
    requires IsCompare(cmp.op)
    ensures IsCompare(Inverted(cmp).op) && (Holds(w, Inverted(cmp), s) <==> !Holds(w, cmp, s))
  {
    assert Inverted(cmp).op - Inverted(cmp).op % 2 == cmp.op - cmp.op % 2;
  }
}
