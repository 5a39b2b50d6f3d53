/** The peephole of `bcemit_nil`: a nil load folded into the one before it; and
    changing what a job wants without touching code. */
module NilMerge {
  import opened Bytecode
  import opened Exec
  import opened Delivery
  import opened Emission
  import opened Steps

  /** `to` also clears `reg` where `from` cleared its own registers. */
  predicate Merges(from: Ins, to: Ins, reg: int) {
    && 0 <= reg < MAX_SLOTS
    && if from.op == KPRI then
         from.d == 0 && ((reg == from.a && to == from) || (reg == from.a + 1 && to == Ins(KNIL, from.a, reg)))
       else
         from.op == KNIL && from.a <= reg <= from.d + 1 && to == from.(d := if reg > from.d then reg else from.d)
  }

  lemma MergedStep(w: World, from: Ins, to: Ins, reg: int, pc: int, r: Regs)
    requires Merges(from, to, reg) && from.a != NO_REG
    ensures Step(w, from, pc, r).0 == pc + 1
    ensures Step(w, to, pc, r) == (pc + 1, SetNil(Step(w, from, pc, r).1, reg, reg))
  {
    assert Step(w, to, pc, r).1 == SetNil(Step(w, from, pc, r).1, reg, reg);
  }

  /** Where no jump leads to the end, only the last instruction reaches it. */
  lemma {:induction false} RunMerged(w: World, code: seq<Ins>, open: set<int>, lim: int, to: Ins, reg: int, start: int, pc: int, r: Regs)
    requires 0 <= start <= pc < |code| && 0 <= lim < |code| && Flow(code, open, start, lim)
    requires Merges(code[|code| - 1], to, reg) && code[|code| - 1].a != NO_REG && |code| - 1 !in open
    ensures var n := |code|; var (q, s) := Run(w, code, open, pc, r);
      Run(w, code[n - 1 := to], open, pc, r) == if q == n then (n, SetNil(s, reg, reg)) else (q, s)
    decreases |code| - pc
  {
    var n := |code|;
    if pc !in open {
      assert FlowAt(code, lim, pc);
      var (next, s) := Step(w, code[pc], pc, r);
      if pc == n - 1 {
        MergedStep(w, code[pc], to, reg, pc, r);
      } else {
        assert next < n;
        RunMerged(w, code, open, lim, to, reg, start, next, s);
      }
    }
  }

  lemma Merge(job: Job, v: View, lim: int, to: Ins, reg: int, v2: View)
    requires Wf(v, job.start, lim) && Den(job, v, NO_REG) && v.end == Const(Nil) && lim < |v.code|
    requires Merges(v.code[|v.code| - 1], to, reg)
    requires v2 == v.(code := v.code[|v.code| - 1 := to], end := Reg(reg))
    ensures Wf(v2, job.start, lim) && Den(job, v2, reg)
  {
    assert ShapeAt(v.code, |v.code| - 1);
    MergeWf(v, job.start, lim, to, reg, v2);
    forall w, r | Fits(w, job.kn, job.ks) ensures DenAt(w, v2, job.start, job.base, reg, job.goal(w, r), r) {
      assert DenAt(w, v, job.start, job.base, NO_REG, job.goal(w, r), r);
      MergeRun(w, v, job.start, lim, to, reg, v2, r);
      MergeAt(w, v, job.start, job.base, to, reg, v2, job.goal(w, r), r);
    }
  }

  lemma MergeRun(w: World, v: View, start: int, lim: int, to: Ins, reg: int, v2: View, r: Regs)
    requires Wf(v, start, lim) && v.end == Const(Nil) && lim < |v.code| && v.code[|v.code| - 1].a != NO_REG
    requires Merges(v.code[|v.code| - 1], to, reg) && v2 == v.(code := v.code[|v.code| - 1 := to], end := Reg(reg))
    ensures forall i :: i in Lists(v) ==> 0 < i < |v.code|
    ensures var n := |v.code|; var (q, s) := Run(w, v.code, Opens(v), start, r);
      Run(w, v2.code, Opens(v2), start, r) == if q == n then (n, SetNil(s, reg, reg)) else (q, s)
  {
    NewPositions(v, start, lim);
    NotOpen(v, start, lim, |v.code| - 1);
    assert start < |v.code|;
    MergeRunCode(w, v.code, Opens(v), start, lim, to, reg, r);
    assert Opens(v2) == Opens(v);
  }

  lemma MergeRunCode(w: World, code: seq<Ins>, open: set<int>, start: int, lim: int, to: Ins, reg: int, r: Regs)
    requires 0 <= start < |code| && 0 <= lim < |code| && Flow(code, open, start, lim)
    requires Merges(code[|code| - 1], to, reg) && code[|code| - 1].a != NO_REG && |code| - 1 !in open
    ensures var n := |code|; var (q, s) := Run(w, code, open, start, r);
      Run(w, code[n - 1 := to], open, start, r) == if q == n then (n, SetNil(s, reg, reg)) else (q, s)
  {
    RunMerged(w, code, open, lim, to, reg, start, start, r);
  }

  lemma NotOpen(v: View, start: int, lim: int, i: int)
    requires Wf(v, start, lim) && 0 <= i < |v.code| && v.code[i].op != JMP && Hanging(v.end) == {}
    ensures i !in Opens(v)
  {
  }

  lemma MergeWf(v: View, start: int, lim: int, to: Ins, reg: int, v2: View)
    requires Wf(v, start, lim) && v.end == Const(Nil) && lim < |v.code| && v.code[|v.code| - 1].a != NO_REG
    requires Merges(v.code[|v.code| - 1], to, reg) && v2 == v.(code := v.code[|v.code| - 1 := to], end := Reg(reg))
    ensures Wf(v2, start, lim)
  {
    var n := |v.code|;
    assert ShapeAt(v.code, n - 1);
    RewriteFlow(v.code, Opens(v), start, lim, n - 1, to);
    RewriteShape(v.code, Opens(v), n - 1, to);
    RewriteEntries(v.code, Opens(v), start, n - 1, to);
    RewriteJumps(v.code, Opens(v), Lists(v), n - 1, to);
    assert Opens(v2) == Opens(v) && Lists(v2) == Lists(v);
  }

  lemma MergeAt(w: World, v: View, start: int, base: int, to: Ins, reg: int, v2: View, goal: Goal, r: Regs)
    requires |v.code| > 0 && v2 == v.(code := v.code[|v.code| - 1 := to], end := Reg(reg)) && v.end == Const(Nil) && v.js == {}
    requires 0 <= reg < NO_REG && v.code[|v.code| - 1].op != JMP && to.a == v.code[|v.code| - 1].a && IsNilLoad(to) && IsNilLoad(v.code[|v.code| - 1])
    requires forall i :: i in Lists(v) ==> 0 < i < |v.code|
    requires DenAt(w, v, start, base, NO_REG, goal, r)
    requires var n := |v.code|; var (q, s) := Run(w, v.code, Opens(v), start, r);
      Run(w, v2.code, Opens(v2), start, r) == if q == n then (n, SetNil(s, reg, reg)) else (q, s)
    ensures DenAt(w, v2, start, base, reg, goal, r)
  {
  }

  /** Jumps of an enclosing expression that arrive with the value already in
      its register join it; the job is restated for that enclosing expression. */
  lemma Regoal(job: Job, v: View, lim: int, skip: int, job2: Job, joined: set<int>, v2: View)
    requires Wf(v, job.start, lim) && Den(job, v, skip) && joined <= v.ctx && Hanging(v.end) == {}
    requires v2 == v.(ctx := v.ctx - joined, js := v.js + joined)
    requires joined != {} ==> v.end.Reg?
    requires job2.start == job.start && job2.base <= job.base <= NO_REG && job2.kn == job.kn && job2.ks == job.ks
    requires skip == NO_REG || job2.base <= skip
    requires forall w, r :: Fits(w, job.kn, job.ks) ==> Widens(w, v.end, job.goal(w, r), job2.goal(w, r), joined, job2.base)
    ensures Wf(v2, job.start, if joined == {} then lim else |v.code|) && Den(job2, v2, NO_REG)
  {
    assert Opens(v2) == Opens(v) && Lists(v2) == Lists(v);
    FlowWider(v.code, Opens(v), job.start, lim);
    forall w, r | Fits(w, job.kn, job.ks) ensures DenAt(w, v2, job.start, job2.base, NO_REG, job2.goal(w, r), r) {
      assert DenAt(w, v, job.start, job.base, skip, job.goal(w, r), r);
      assert Widens(w, v.end, job.goal(w, r), job2.goal(w, r), joined, job2.base);
    }
  }

  /** The inner goal `g` is a step towards the outer goal `h`. */
  predicate Widens(w: World, end: End, g: Goal, h: Goal, joined: set<int>, base: int) {
    if g.Here? then h.Here? && h.v == g.v && h.x == g.x && Agree(h.r, g.r, base, NO_REG)
    else if g.q in joined then h.Here? && h.v == EndValue(w, end, g.r) && Agree(h.r, g.r, base, NO_REG)
    else h == g
  }
}
