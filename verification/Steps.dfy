/** Each emission of the expression compiler, as a step between views: the new
    view is well formed and delivers the value the source language asks for. */
module Steps {
  import opened Bytecode
  import opened Exec
  import opened Patching
  import opened Delivery
  import opened Emission

  /** `v2` is `v` with pending jumps landed and `more` emitted. */
  ghost predicate Emitted(v: View, more: seq<Ins>, v2: View) {
    v2.code == Landed(v.code, v.js) + more && v2.js == {}
  }

  lemma EmitJumps(v: View, start: int, lim: int, more: seq<Ins>, added: set<int>)
    requires Wf(v, start, lim) && Emittable(more) && (|more| == 1 ==> added == {})
    requires |more| == 2 ==> Added(v.code, more, added)
    ensures Jumps(Landed(v.code, v.js) + more, v.ctx + v.ts + v.fs + added)
  {
    var c := Landed(v.code, v.js) + more;
    forall q {:trigger q in v.ctx} {:trigger q in v.ts} {:trigger q in v.fs} | q in v.ctx + v.ts + v.fs
      ensures 0 < q < |c| && c[q].op == JMP && (Valued(c[q - 1]) ==> c[q - 1].a == NO_REG)
    {
      assert q in Lists(v);
      LandedAt(v.code, v.js, q);
      LandedAt(v.code, v.js, q - 1);
    }
  }

  /** Emission keeps views well formed, wherever the new jump is filed. */
  lemma EmitWf(v: View, start: int, lim: int, more: seq<Ins>, added: set<int>, v2: View)
    requires Wf(v, start, lim) && Hanging(v.end) == {} && Emittable(more) && Added(v.code, more, added)
    requires Emitted(v, more, v2)
    requires v2.ctx !! v2.ts !! v2.fs !! Hanging(v2.end)
    requires Opens(v2) == v.ctx + v.ts + v.fs + added && HangingOk(v2, start, lim) && v2.ts + v2.fs <= v.ts + v.fs + added
    requires v2.end.Reloc? ==> |more| == 1
    requires added == {|v.code|} ==> v2.end == Reloc(|v.code|)
    ensures Wf(v2, start, lim)
  {
    assert Opens(v2) == Opens(v) - v.js + added;
    LandedAt(v.code, v.js, start - 1);
    EmitFlow(v.code, Opens(v), v.js, more, added, start, lim);
    EmitShape(v.code, v.js, more);
    EmitEntries(v.code, Opens(v), v.js, more, added, start, lim);
    var jumps := if |more| == 2 then added else {};
    EmitJumps(v, start, lim, more, jumps);
    assert Lists(v2) <= v.ctx + v.ts + v.fs + jumps;
  }

  /** Exits through unresolved jumps say the same after an emission. */
  lemma ExitKept(w: World, v: View, start: int, lim: int, more: seq<Ins>, q: int, s: Regs, val: Value, b: bool)
    requires Wf(v, start, lim) && q in v.ts + v.fs && ExitValue(w, v.code, q, s, val, b)
    ensures ExitValue(w, Landed(v.code, v.js) + more, q, s, val, b)
  {
    assert q in Lists(v);
    LandedAt(v.code, v.js, q - 1);
    assert ShapeAt(v.code, q);
  }

  /** The run of the code with `more` emitted, in terms of the run before. */
  lemma EmitOutcome(w: World, v: View, start: int, lim: int, more: seq<Ins>, added: set<int>, v2: View, r: Regs)
    requires Wf(v, start, lim) && Hanging(v.end) == {} && Emittable(more) && Added(v.code, more, added)
    requires Emitted(v, more, v2) && Opens(v2) == v.ctx + v.ts + v.fs + added
    ensures var (q, s) := Run(w, v.code, Opens(v), start, r);
      Run(w, v2.code, Opens(v2), start, r) ==
        if AtEnd(v, q) then Run(w, v2.code, Opens(v2), |v.code|, s) else (q, s)
    ensures AtEnd(v, Run(w, v.code, Opens(v), start, r).0) || Run(w, v.code, Opens(v), start, r).0 in v.ctx + v.ts + v.fs
  {
    assert Opens(v2) == Opens(v) - v.js + added;
    if start in v.js {
      assert start in Lists(v) && EntryAt(v.code, Opens(v), start, start);
    }
    EmitRun(w, v.code, Opens(v), v.js, more, added, start, lim, r);
  }

  /** A view one emission later; exits keep what they say. */
  lemma EmitDelivers(w: World, v: View, start: int, lim: int, more: seq<Ins>, added: set<int>, v2: View,
                     base: int, goal: Goal, r: Regs)
    requires Wf(v, start, lim) && Hanging(v.end) == {} && Emittable(more) && Added(v.code, more, added)
    requires Emitted(v, more, v2) && Opens(v2) == v.ctx + v.ts + v.fs + added
    requires v.ctx <= v2.ctx && v.ts <= v2.ts && v.fs <= v2.fs && v2.ctx !! v2.ts !! v2.fs
    requires DenAt(w, v, start, base, NO_REG, goal, r)
    ensures var (q, s) := Run(w, v.code, Opens(v), start, r);
      if AtEnd(v, q) then
        && goal.Here? && Agree(goal.r, s, base, NO_REG) && EndSays(w, v, q, s, goal.v)
        && Run(w, v2.code, Opens(v2), start, r) == Run(w, v2.code, Opens(v2), |v.code|, s)
      else DenAt(w, v2, start, base, NO_REG, goal, r) && (goal.Here? ==> q in v.ts + v.fs)
           && Run(w, v2.code, Opens(v2), start, r) == (q, s)
  {
    EmitOutcome(w, v, start, lim, more, added, v2, r);
    var (q, s) := Run(w, v.code, Opens(v), start, r);
    if goal.Here? && !AtEnd(v, q) {
      ExitKept(w, v, start, lim, more, q, s, goal.x, q in v.ts);
    }
  }

  lemma NewPositions(v: View, start: int, lim: int)
    requires Wf(v, start, lim)
    ensures forall i :: i in Lists(v) ==> 0 < i < |v.code|
  {
  }

  /** `ins` loads the value known at the end of `v`. */
  ghost predicate Supplies(job: Job, end: End, ins: Ins) {
    forall w, s {:trigger Loaded(w, ins, s)} :: Fits(w, job.kn, job.ks) ==> Loaded(w, ins, s) == EndValue(w, end, s)
  }

  /** Loading the value that is known at the end into a register. */
  lemma Load(job: Job, v: View, lim: int, ins: Ins, v2: View)
    requires Wf(v, job.start, lim) && (v.end.Const? || v.end.Reg? || v.end.Ready?)
    requires IsLoad(ins.op) && 0 <= ins.a < MAX_SLOTS && Supplies(job, v.end, ins)
    requires v2 == v.(code := Landed(v.code, v.js) + [ins], js := {}, end := Reg(ins.a))
    requires Den(job, v, NO_REG)
    ensures Wf(v2, job.start, lim) && Den(job, v2, ins.a)
  {
    EmitWf(v, job.start, lim, [ins], {}, v2);
    forall w, r | Fits(w, job.kn, job.ks) ensures DenAt(w, v2, job.start, job.base, ins.a, job.goal(w, r), r) {
      LoadAt(w, v, job, lim, ins, v2, job.goal(w, r), r);
    }
  }

  lemma LoadAt(w: World, v: View, job: Job, lim: int, ins: Ins, v2: View, goal: Goal, r: Regs)
    requires Wf(v, job.start, lim) && (v.end.Const? || v.end.Reg? || v.end.Ready?) && Fits(w, job.kn, job.ks)
    requires IsLoad(ins.op) && 0 <= ins.a < MAX_SLOTS && Supplies(job, v.end, ins)
    requires v2 == v.(code := Landed(v.code, v.js) + [ins], js := {}, end := Reg(ins.a))
    requires DenAt(w, v, job.start, job.base, NO_REG, goal, r)
    ensures DenAt(w, v2, job.start, job.base, ins.a, goal, r)
  {
    EmitDelivers(w, v, job.start, lim, [ins], {}, v2, job.base, goal, r);
    var (q, s) := Run(w, v.code, Opens(v), job.start, r);
    if AtEnd(v, q) {
      NewPositions(v, job.start, lim);
      assert v2.code[|v.code|] == ins && |v.code| !in Opens(v2);
      assert Run(w, v2.code, Opens(v2), job.start, r) == (|v2.code|, Set(s, ins.a, Loaded(w, ins, s)));
    }
  }

  /** A load emitted without its register: the value is still to come. */
  lemma HangLoad(job: Job, v: View, lim: int, v2: View)
    requires Wf(v, job.start, lim) && v.end.Ready? && v.end.ins.op in {NOT, UGET} && v.end.ins.a == 0
    requires v2 == v.(code := Landed(v.code, v.js) + [v.end.ins], js := {}, end := Reloc(|v.code|))
    requires Den(job, v, NO_REG)
    ensures Wf(v2, job.start, lim) && Den(job, v2, NO_REG)
  {
    EmitWf(v, job.start, lim, [v.end.ins], {|v.code|}, v2);
    forall w, r | Fits(w, job.kn, job.ks) ensures DenAt(w, v2, job.start, job.base, NO_REG, job.goal(w, r), r) {
      HangLoadAt(w, v, job.start, lim, job.base, v2, job.goal(w, r), r);
    }
  }

  lemma HangLoadAt(w: World, v: View, start: int, lim: int, base: int, v2: View, goal: Goal, r: Regs)
    requires Wf(v, start, lim) && v.end.Ready? && v.end.ins.op in {NOT, UGET} && v.end.ins.a == 0
    requires v2 == v.(code := Landed(v.code, v.js) + [v.end.ins], js := {}, end := Reloc(|v.code|))
    requires DenAt(w, v, start, base, NO_REG, goal, r)
    ensures DenAt(w, v2, start, base, NO_REG, goal, r)
  {
    EmitDelivers(w, v, start, lim, [v.end.ins], {|v.code|}, v2, base, goal, r);
    var (q, s) := Run(w, v.code, Opens(v), start, r);
    if AtEnd(v, q) {
      NewPositions(v, start, lim);
      assert v2.code[|v.code|] == v.end.ins && |v.code| in Opens(v2);
    }
  }

  /** A guard emitted with its jump: it takes the jump exactly when the value at
      the end has truth `b`, and then carries it or leaves it a plain boolean;
      falling through, `end2` describes the value. */
  ghost predicate Guards(w: World, end: End, g: Ins, b: bool, end2: End) {
    forall s {:trigger GuardsOn(w, end, g, b, end2, s)} :: GuardsOn(w, end, g, b, end2, s)
  }

  predicate GuardsOn(w: World, end: End, g: Ins, b: bool, end2: End, s: Regs) {
    var val := EndValue(w, end, s);
    && (IsTest(g.op) ==> (Holds(w, g, s) <==> Truthy(val) == b))
    && (IsLoad(g.op) ==> Truthy(val) == b)
    && (Truthy(val) == b ==> if Valued(g) then Carried(w, g, s) == val else val == Bool(b))
    && (Truthy(val) != b ==> end2 == Tested(!b) || (end2.Const? && end2.v == val))
  }

  lemma Guard(job: Job, v: View, lim: int, g: Ins, jmp: Ins, b: bool, v2: View)
    requires Wf(v, job.start, lim) && (v.end.Const? || v.end.Reg? || v.end.Ready?)
    requires Emittable([g, jmp])
    requires v2 == v.(code := Landed(v.code, v.js) + [g, jmp], js := {}, end := v2.end,
                      ts := if b then v.ts + {|v.code| + 1} else v.ts, fs := if b then v.fs else v.fs + {|v.code| + 1})
    requires v2.end.Tested? || v2.end.Const?
    requires forall w :: Fits(w, job.kn, job.ks) ==> Guards(w, v.end, g, b, v2.end)
    requires Den(job, v, NO_REG) && Plain(job.goal)
    ensures Wf(v2, job.start, lim) && Den(job, v2, NO_REG)
  {
    NewPositions(v, job.start, lim);
    EmitWf(v, job.start, lim, [g, jmp], {|v.code| + 1}, v2);
    forall w, r | Fits(w, job.kn, job.ks) ensures DenAt(w, v2, job.start, job.base, NO_REG, job.goal(w, r), r) {
      GuardAt(w, v, job.start, lim, job.base, g, jmp, b, v2, job.goal(w, r), r);
    }
  }

  /** Outside a negation, exits and the end deliver the same value. */
  ghost predicate Plain(goal: (World, Regs) -> Goal) {
    forall w, r :: goal(w, r).Here? ==> goal(w, r).v == goal(w, r).x
  }

  lemma GuardAt(w: World, v: View, start: int, lim: int, base: int, g: Ins, jmp: Ins, b: bool, v2: View, goal: Goal, r: Regs)
    requires Wf(v, start, lim) && (v.end.Const? || v.end.Reg? || v.end.Ready?) && Emittable([g, jmp])
    requires v2 == v.(code := Landed(v.code, v.js) + [g, jmp], js := {}, end := v2.end,
                      ts := if b then v.ts + {|v.code| + 1} else v.ts, fs := if b then v.fs else v.fs + {|v.code| + 1})
    requires v2.end.Tested? || v2.end.Const?
    requires Guards(w, v.end, g, b, v2.end)
    requires DenAt(w, v, start, base, NO_REG, goal, r) && (goal.Here? ==> goal.v == goal.x)
    ensures DenAt(w, v2, start, base, NO_REG, goal, r)
  {
    NewPositions(v, start, lim);
    EmitDelivers(w, v, start, lim, [g, jmp], {|v.code| + 1}, v2, base, goal, r);
    var (q, s) := Run(w, v.code, Opens(v), start, r);
    if AtEnd(v, q) {
      GuardTaken(w, v, start, base, g, jmp, b, v2, q, s, goal, r);
    }
  }

  lemma GuardTaken(w: World, v: View, start: int, base: int, g: Ins, jmp: Ins, b: bool, v2: View, q: int, s: Regs, goal: Goal, r: Regs)
    requires (forall i :: i in Lists(v) ==> 0 < i < |v.code|) && Emittable([g, jmp]) && (v.end.Const? || v.end.Reg? || v.end.Ready?)
    requires v2.code == Landed(v.code, v.js) + [g, jmp] && v2.ctx == v.ctx && v2.js == {} && (v2.end.Tested? || v2.end.Const?)
    requires v2.ts == (if b then v.ts + {|v.code| + 1} else v.ts) && v2.fs == if b then v.fs else v.fs + {|v.code| + 1}
    requires Guards(w, v.end, g, b, v2.end)
    requires goal.Here? && Agree(goal.r, s, base, NO_REG) && EndSays(w, v, q, s, goal.v) && goal.v == goal.x
    requires Run(w, v2.code, Opens(v2), start, r) == Run(w, v2.code, Opens(v2), |v.code|, s)
    ensures DenAt(w, v2, start, base, NO_REG, goal, r)
  {
    var n := |v.code|;
    assert v2.code[n] == g && v2.code[n + 1] == jmp;
    assert n !in Lists(v) && n + 1 !in Lists(v) && n + 2 !in Lists(v);
    assert GuardsOn(w, v.end, g, b, v2.end, s);
    var (next, s2) := Step(w, g, n, s);
    assert s2 == s;
    assert Run(w, v2.code, Opens(v2), n, s) == (next, s);
  }

  /** A comparison emitted with its jump decides the value. */
  lemma HangCompare(job: Job, v: View, lim: int, jmp: Ins, v2: View)
    requires Wf(v, job.start, lim) && v.end.Ready? && IsCompare(v.end.ins.op) && Emittable([v.end.ins, jmp])
    requires v2 == v.(code := Landed(v.code, v.js) + [v.end.ins, jmp], js := {}, end := Cond(|v.code| + 1))
    requires Den(job, v, NO_REG)
    ensures Wf(v2, job.start, lim) && Den(job, v2, NO_REG)
  {
    NewPositions(v, job.start, lim);
    EmitWf(v, job.start, lim, [v.end.ins, jmp], {|v.code| + 1}, v2);
    forall w, r | Fits(w, job.kn, job.ks) ensures DenAt(w, v2, job.start, job.base, NO_REG, job.goal(w, r), r) {
      EmitDelivers(w, v, job.start, lim, [v.end.ins, jmp], {|v.code| + 1}, v2, job.base, job.goal(w, r), r);
      var (q, s) := Run(w, v.code, Opens(v), job.start, r);
      if AtEnd(v, q) {
        CompareTaken(w, v, job.start, job.base, jmp, v2, q, s, job.goal(w, r), r);
      }
    }
  }

  lemma CompareTaken(w: World, v: View, start: int, base: int, jmp: Ins, v2: View, q: int, s: Regs, goal: Goal, r: Regs)
    requires (forall i :: i in Lists(v) ==> 0 < i < |v.code|) && v.end.Ready? && IsCompare(v.end.ins.op)
    requires v2 == v.(code := Landed(v.code, v.js) + [v.end.ins, jmp], js := {}, end := Cond(|v.code| + 1))
    requires goal.Here? && Agree(goal.r, s, base, NO_REG) && EndSays(w, v, q, s, goal.v)
    requires Run(w, v2.code, Opens(v2), start, r) == Run(w, v2.code, Opens(v2), |v.code|, s)
    ensures DenAt(w, v2, start, base, NO_REG, goal, r)
  {
    var n := |v.code|;
    assert v2.code[n] == v.end.ins && v2.code[n + 1] == jmp;
    assert n !in Lists(v) && n + 1 !in Lists(v) && n + 2 !in Lists(v);
    assert Run(w, v2.code, Opens(v2), n, s) == Step(w, v.end.ins, n, s);
  }

  /** Knowing the value at the end in another way, or wanting another value. */
  lemma Reinterpret(job: Job, v: View, lim: int, end2: End, goal2: (World, Regs) -> Goal)
    requires Wf(v, job.start, lim) && Den(job, v, NO_REG)
    requires v.end.Const? || v.end.Reg? || v.end.Ready?
    requires end2.Const? || end2.Reg? || end2.Ready?
    requires forall w, r :: Fits(w, job.kn, job.ks) ==> Reread(w, v.end, end2, job.base, job.goal(w, r), goal2(w, r))
    ensures Wf(v.(end := end2), job.start, lim) && Den(job.(goal := goal2), v.(end := end2), NO_REG)
  {
    var v2 := v.(end := end2);
    assert Opens(v2) == Opens(v);
    forall w, r | Fits(w, job.kn, job.ks) ensures DenAt(w, v2, job.start, job.base, NO_REG, goal2(w, r), r) {
      assert DenAt(w, v, job.start, job.base, NO_REG, job.goal(w, r), r);
      var (q, s) := Run(w, v.code, Opens(v), job.start, r);
      var g, h := job.goal(w, r), goal2(w, r);
      assert Reread(w, v.end, end2, job.base, g, h);
      assert g.Here? && q !in v.ts && q !in v.fs ==> EndValue(w, end2, s) == h.v;
    }
  }

  /** Two goals that differ at most in the value at the end of the code. */
  predicate SameExits(g: Goal, h: Goal) {
    if g.Here? then h.Here? && h.r == g.r && h.x == g.x else h == g
  }

  ghost predicate Reread(w: World, end: End, end2: End, base: int, g: Goal, h: Goal) {
    && SameExits(g, h)
    && (g.Here? ==> forall s {:trigger EndValue(w, end2, s)} ::
          Agree(g.r, s, base, NO_REG) && EndValue(w, end, s) == g.v ==> EndValue(w, end2, s) == h.v)
  }

  /** The code a hanging end was emitted on. */
  function Back(v: View): View
    requires Hanging(v.end) != {} && 0 < v.end.pc < |v.code|
  {
    var p := if v.end.Reloc? then v.end.pc else v.end.pc - 1;
    v.(code := v.code[..p], end := Ready(v.code[p]))
  }

  lemma BackWf(v: View, start: int, lim: int)
    requires Wf(v, start, lim) && Hanging(v.end) != {}
    ensures Wf(Back(v), start, lim)
  {
    BackLists(v, start, lim);
    CutCode(v.code, |Back(v).code|, Opens(v), Opens(Back(v)), start, lim);
  }

  lemma BackLists(v: View, start: int, lim: int)
    requires Wf(v, start, lim) && Hanging(v.end) != {}
    ensures Jumps(Back(v).code, Lists(v)) && Lists(Back(v)) == Lists(v) && Opens(Back(v)) == Lists(v)
    ensures forall i :: i < |Back(v).code| ==> (i in Opens(v) <==> i in Lists(v))
  {
    forall q | q in Lists(v) ensures 0 < q < |Back(v).code| {
      assert q in Opens(v);
    }
  }

  /** Well-formed code may be cut before an instruction that ends no test. */
  lemma CutCode(c: seq<Ins>, n: int, open: set<int>, open0: set<int>, start: int, lim: int)
    requires WfCode(c, open, start, lim) && 0 <= start <= n < |c| && c[n].op != JMP
    requires forall i :: i < n ==> (i in open <==> i in open0)
    ensures WfCode(c[..n], open0, start, lim)
  {
    var c0 := c[..n];
    forall i | 0 <= start <= i < n && i !in open0 ensures FlowAt(c0, lim, i) {
      assert FlowAt(c, lim, i);
    }
    forall i | 0 <= i < n ensures ShapeAt(c0, i) {
      assert ShapeAt(c, i);
    }
    forall q | q in open0 && 0 < q < n ensures EntryAt(c0, open0, start, q) {
      assert EntryAt(c, open, start, q);
      forall i | 0 <= start <= i < n && i !in open0 && c0[i].op == JMP && start <= q && Valued(c0[q - 1]) ensures Target(c0, i) != q {
        assert c[i].op == JMP;
      }
    }
  }

  /** Taking back a hanging end leaves a value ready to be produced. */
  lemma TakeBack(job: Job, v: View, lim: int)
    requires Wf(v, job.start, lim) && Hanging(v.end) != {} && Den(job, v, NO_REG)
    ensures Wf(Back(v), job.start, lim) && Den(job, Back(v), NO_REG)
  {
    BackWf(v, job.start, lim);
    forall w, r | Fits(w, job.kn, job.ks) ensures DenAt(w, Back(v), job.start, job.base, NO_REG, job.goal(w, r), r) {
      assert DenAt(w, v, job.start, job.base, NO_REG, job.goal(w, r), r);
      TakeBackAt(w, v, job.start, lim, job.base, job.goal(w, r), r);
    }
  }

  lemma TakeBackAt(w: World, v: View, start: int, lim: int, base: int, goal: Goal, r: Regs)
    requires Wf(v, start, lim) && Hanging(v.end) != {} && Wf(Back(v), start, lim)
    requires DenAt(w, v, start, base, NO_REG, goal, r)
    ensures DenAt(w, Back(v), start, base, NO_REG, goal, r)
  {
    var v0 := Back(v);
    var n := |v0.code|;
    FlowWider(v0.code, Opens(v0), start, lim);
    RunAppended(w, v0.code, v.code[n..], Opens(v0), Opens(v), start, start, r);
    assert v0.code + v.code[n..] == v.code;
    RunEnds(w, v0.code, Opens(v0), start, start, r);
    NewPositions(v0, start, lim);
    var (q, s) := Run(w, v0.code, Opens(v0), start, r);
    if q == n {
      Resumed(w, v, start, base, q, s, goal, r);
    }
  }

  lemma Resumed(w: World, v: View, start: int, base: int, q: int, s: Regs, goal: Goal, r: Regs)
    requires Hanging(v.end) != {} && 0 < v.end.pc == |v.code| - 1 && v.js == {}
    requires forall i :: i in Lists(v) ==> 0 < i < |Back(v).code|
    requires v.end.Cond? ==> IsCompare(v.code[v.end.pc - 1].op)
    requires v.end.Reloc? ==> IsLoad(v.code[v.end.pc].op)
    requires q == |Back(v).code| && Run(w, Back(v).code, Opens(Back(v)), start, r) == (q, s)
    requires Run(w, v.code, Opens(v), start, r) == Run(w, v.code, Opens(v), q, s)
    requires DenAt(w, v, start, base, NO_REG, goal, r)
    ensures DenAt(w, Back(v), start, base, NO_REG, goal, r)
  {
    if v.end.Cond? {
      assert q !in Opens(v) && q + 1 in Opens(v) && q + 2 !in Opens(v);
      assert Run(w, v.code, Opens(v), q, s) == Step(w, v.code[q], q, s);
    } else {
      assert Run(w, v.code, Opens(v), q, s) == (q, s);
    }
  }
}
