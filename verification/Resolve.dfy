/** Negating an expression, and resolving its jump lists into a register. */
module Resolve {
  import opened Bytecode
  import opened Exec
  import opened Patching
  import opened Delivery
  import opened Emission
  import opened Steps
  import opened Branches

  /** The code after the tests of a list gave up their values (`jmp_dropval`). */
  function Dropped(code: seq<Ins>, list: set<int>): (c: seq<Ins>)
    ensures |c| == |code|
    ensures forall i {:trigger c[i]} :: 0 <= i < |code| ==> c[i] == DroppedAt(code, list, i)
  {
    seq(|code|, i requires 0 <= i < |code| => DroppedAt(code, list, i))
  }

  function DroppedAt(code: seq<Ins>, list: set<int>, i: int): Ins
    requires 0 <= i < |code|
  {
    if i + 1 in list && i + 1 < |code| && Valued(code[i]) then PatchedTest(code[i], code[i + 1], NO_REG) else code[i]
  }

  lemma DroppedKeeps(v: View, start: int, lim: int, list: set<int>, i: int)
    requires Wf(v, start, lim) && list <= Lists(v) && 0 <= i < |v.code|
    ensures var c := Dropped(v.code, list);
      && (v.code[i].op == JMP ==> c[i] == v.code[i])
      && (Valued(c[i]) ==> c[i] == v.code[i])
      && (Valued(v.code[i]) && i + 1 in list ==> !Valued(c[i]))
      && (i + 1 !in list ==> c[i] == v.code[i])
      && (c[i] == v.code[i] || (i + 1 in list &&
           ((IsTest(c[i].op) && IsCopyTest(v.code[i].op)) || (c[i].op == JMP && Target(c, i) == i + 1))))
    ensures forall w, s :: Step(w, Dropped(v.code, list)[i], i, s) == Step(w, v.code[i], i, s)
  {
    assert ShapeAt(v.code, i);
    if i + 1 < |v.code| { assert ShapeAt(v.code, i + 1); }
    if i + 1 in list {
      assert i + 1 in Lists(v);
      forall w, s ensures Step(w, Dropped(v.code, list)[i], i, s) == Step(w, v.code[i], i, s) {
        if Valued(v.code[i]) { PatchedStep(w, v.code[i], v.code[i + 1], NO_REG, i, s); }
      }
    }
  }

  /** `not`, first half: the true and false lists swap and give up their values. */
  lemma SwapExits(job: Job, v: View, lim: int, v2: View, goal2: (World, Regs) -> Goal)
    requires Wf(v, job.start, lim) && Den(job, v, NO_REG) && Plain(job.goal)
    requires v2 == v.(code := Dropped(v.code, v.ts + v.fs), ts := v.fs, fs := v.ts)
    requires forall w, r :: Swapped(job.goal(w, r), goal2(w, r))
    ensures Wf(v2, job.start, lim) && Den(job.(goal := goal2), v2, NO_REG)
  {
    SwapWf(v, job.start, lim, v2);
    forall w, r | Fits(w, job.kn, job.ks) ensures DenAt(w, v2, job.start, job.base, NO_REG, goal2(w, r), r) {
      assert DenAt(w, v, job.start, job.base, NO_REG, job.goal(w, r), r);
      assert Swapped(job.goal(w, r), goal2(w, r));
      SwapAt(w, v, job.start, lim, job.base, v2, job.goal(w, r), goal2(w, r), r);
    }
  }

  predicate Swapped(g: Goal, h: Goal) {
    if g.Here? then h == Here(g.r, g.v, Bool(!Truthy(g.x))) else h == g
  }

  lemma SwapWf(v: View, start: int, lim: int, v2: View)
    requires Wf(v, start, lim) && v2 == v.(code := Dropped(v.code, v.ts + v.fs), ts := v.fs, fs := v.ts)
    ensures Wf(v2, start, lim)
  {
    DroppedWf(v, start, lim, v.ts + v.fs);
    assert Opens(v2) == Opens(v) && Lists(v2) == Lists(v);
    DroppedRest(v, start, lim, v.ts + v.fs);
  }

  lemma DroppedRest(v: View, start: int, lim: int, list: set<int>)
    requires Wf(v, start, lim) && list <= Lists(v)
    ensures Jumps(Dropped(v.code, list), Lists(v))
    ensures HangingOk(v.(code := Dropped(v.code, list)), start, lim)
    ensures IsNilLoad(Dropped(v.code, list)[start - 1]) ==> IsNilLoad(v.code[start - 1])
  {
    forall q | q in Lists(v) ensures 0 < q < |v.code| && Dropped(v.code, list)[q].op == JMP &&
      (Valued(Dropped(v.code, list)[q - 1]) ==> Dropped(v.code, list)[q - 1].a == NO_REG)
    {
      DroppedKeeps(v, start, lim, list, q);
      DroppedKeeps(v, start, lim, list, q - 1);
    }
    DroppedKeeps(v, start, lim, list, start - 1);
    if Hanging(v.end) != {} {
      DroppedKeeps(v, start, lim, list, v.end.pc);
      DroppedKeeps(v, start, lim, list, v.end.pc - 1);
    }
  }

  lemma DroppedWf(v: View, start: int, lim: int, list: set<int>)
    requires Wf(v, start, lim) && list <= Lists(v)
    ensures WfCode(Dropped(v.code, list), Opens(v), start, lim)
  {
    var (c, c2) := (v.code, Dropped(v.code, list));
    forall i | 0 <= start <= i < |c2| && i !in Opens(v) ensures FlowAt(c2, lim, i) {
      assert FlowAt(c, lim, i);
      DroppedKeeps(v, start, lim, list, i);
      if i + 1 < |c| { DroppedKeeps(v, start, lim, list, i + 1); }
    }
    forall i | 0 <= i < |c2| ensures ShapeAt(c2, i) {
      assert ShapeAt(c, i);
      DroppedKeeps(v, start, lim, list, i);
      if i + 1 < |c| { DroppedKeeps(v, start, lim, list, i + 1); }
    }
    forall q | q in Opens(v) && 0 < q < |c2| ensures EntryAt(c2, Opens(v), start, q) {
      DroppedEntry(v, start, lim, list, q);
    }
  }

  lemma DroppedEntry(v: View, start: int, lim: int, list: set<int>, q: int)
    requires Wf(v, start, lim) && list <= Lists(v) && q in Opens(v) && 0 < q < |v.code|
    ensures EntryAt(Dropped(v.code, list), Opens(v), start, q)
  {
    var c2 := Dropped(v.code, list);
    DroppedKeeps(v, start, lim, list, q - 1);
    forall i | 0 <= i < |c2| && c2[i].op == JMP
      ensures c2[i] == v.code[i] || (Target(c2, i) == i + 1 && !Valued(c2[i]))
    {
      DroppedKeeps(v, start, lim, list, i);
    }
    EntryRewritten(v.code, c2, Opens(v), start, q);
  }

  /** Turning tests into jumps to the next instruction enters no jump. */
  lemma EntryRewritten(c: seq<Ins>, c2: seq<Ins>, open: set<int>, start: int, q: int)
    requires |c| == |c2| && q in open && 0 < q < |c| && Entries(c, open, start) && (Valued(c2[q - 1]) ==> Valued(c[q - 1]))
    requires forall i :: 0 <= i < |c2| && c2[i].op == JMP ==> c2[i] == c[i] || (Target(c2, i) == i + 1 && !Valued(c2[i]))
    ensures EntryAt(c2, open, start, q)
  {
    assert EntryAt(c, open, start, q);
  }

  lemma SwapAt(w: World, v: View, start: int, lim: int, base: int, v2: View, g: Goal, h: Goal, r: Regs)
    requires Wf(v, start, lim) && v2 == v.(code := Dropped(v.code, v.ts + v.fs), ts := v.fs, fs := v.ts)
    requires DenAt(w, v, start, base, NO_REG, g, r) && (g.Here? ==> g.v == g.x) && Swapped(g, h)
    ensures DenAt(w, v2, start, base, NO_REG, h, r)
  {
    var list := v.ts + v.fs;
    assert Opens(v2) == Opens(v);
    forall i, s | start <= i < |v.code| && i !in Opens(v) ensures Step(w, v.code[i], i, s) == Step(w, v2.code[i], i, s) {
      DroppedKeeps(v, start, lim, list, i);
    }
    RunAgree(w, v.code, v2.code, Opens(v), start, start, r);
    var (q, s) := Run(w, v.code, Opens(v), start, r);
    if q in list {
      assert q in Lists(v);
      DroppedKeeps(v, start, lim, list, q - 1);
    }
    if v.end.Reloc? { DroppedKeeps(v, start, lim, list, v.end.pc); }
  }

  /** Where a list may be sent: past every open jump, the second target only
      needed when some member carries no value. */
  ghost predicate Dests(code: seq<Ins>, open: set<int>, list: set<int>, vt: int, dt: int) {
    && (forall q :: q in open ==> q < vt <= |code|)
    && ((exists q :: q in list && 0 < q < |code| && !Valued(code[q - 1])) ==> forall q :: q in open ==> q < dt <= |code|)
  }

  /** Patching rewrites only the jumps of the list and their tests. */
  lemma PatchKeeps(code: seq<Ins>, open: set<int>, list: set<int>, reg: int, vt: int, dt: int, i: int)
    requires 0 <= i < |code| && Shape(code) && list <= open && Jumps(code, list) && Dests(code, open, list, vt, dt)
    requires 0 <= reg < MAX_SLOTS
    ensures var c := Patched(code, list, reg, vt, dt);
      && (code[i].op == JMP ==> c[i].op == JMP && (i !in list ==> c[i] == code[i]))
      && (i in list ==> i < Target(c, i) <= |code| && forall q :: q in open ==> q < Target(c, i))
      && (Valued(c[i]) ==> Valued(code[i]) && c[i].op == code[i].op)
      && (i + 1 !in list && i !in list ==> c[i] == code[i])
      && (c[i] == code[i] || i in list || (i + 1 in list && Valued(code[i]) &&
           ((IsTest(c[i].op) && IsCopyTest(code[i].op)) || IsLoad(c[i].op) || (c[i].op == JMP && Target(c, i) == i + 1))))
  {
    assert ShapeAt(code, i);
    if i + 1 < |code| { assert ShapeAt(code, i + 1); }
    if i > 0 { assert ShapeAt(code, i - 1); }
  }

  lemma PatchWf(code: seq<Ins>, open: set<int>, list: set<int>, reg: int, vt: int, dt: int, start: int)
    requires WfCode(code, open, start, |code|) && list <= open && Jumps(code, list) && Dests(code, open, list, vt, dt)
    requires 0 <= reg < MAX_SLOTS
    ensures WfCode(Patched(code, list, reg, vt, dt), open - list, start, |code|)
  {
    var c := Patched(code, list, reg, vt, dt);
    var o := open - list;
    forall i | 0 <= start <= i < |c| && i !in o ensures FlowAt(c, |c|, i) {
      PatchKeeps(code, open, list, reg, vt, dt, i);
      if i !in open { assert FlowAt(code, |code|, i); }
      if i + 1 < |code| { PatchKeeps(code, open, list, reg, vt, dt, i + 1); }
    }
    forall i | 0 <= i < |c| ensures ShapeAt(c, i) {
      PatchKeeps(code, open, list, reg, vt, dt, i);
      assert ShapeAt(code, i);
      if i + 1 < |code| { PatchKeeps(code, open, list, reg, vt, dt, i + 1); }
    }
    forall q | q in o && 0 < q < |c| ensures EntryAt(c, o, start, q) {
      PatchEntry(code, open, list, reg, vt, dt, start, q);
    }
  }

  lemma PatchEntry(code: seq<Ins>, open: set<int>, list: set<int>, reg: int, vt: int, dt: int, start: int, q: int)
    requires WfCode(code, open, start, |code|) && list <= open && Jumps(code, list) && Dests(code, open, list, vt, dt)
    requires q in open - list && 0 < q < |code| && 0 <= reg < MAX_SLOTS
    ensures EntryAt(Patched(code, list, reg, vt, dt), open - list, start, q)
  {
    var c := Patched(code, list, reg, vt, dt);
    assert EntryAt(code, open, start, q);
    PatchKeeps(code, open, list, reg, vt, dt, q - 1);
    if start <= q && Valued(c[q - 1]) {
      forall i | 0 <= start <= i < |c| && i !in open - list && c[i].op == JMP ensures Target(c, i) != q {
        PatchKeeps(code, open, list, reg, vt, dt, i);
      }
    }
  }

  /** The three instructions `expr_toreg` emits for jumps without a value. */
  predicate TailAt(code: seq<Ins>, open: set<int>, reg: int, f: int) {
    && 0 <= f && f + 3 == |code| && f !in open && f + 1 !in open && f + 2 !in open
    && code[f] == Ins(KPRI, reg, 1) && code[f + 1].op == JMP && JumpOf(code[f + 1]) == 1 && code[f + 2] == Ins(KPRI, reg, 2)
  }

  lemma TailRuns(w: World, code: seq<Ins>, open: set<int>, reg: int, f: int, s: Regs)
    requires TailAt(code, open, reg, f)
    ensures Run(w, code, open, f, s) == (|code|, Set(s, reg, False))
    ensures Run(w, code, open, f + 2, s) == (|code|, Set(s, reg, True))
  {
    assert Run(w, code, open, f + 1, Set(s, reg, False)) == (|code|, Set(s, reg, False));
  }

  /** Everything one list needs to be resolved into `reg`: forward targets, and
      the tail when some member carries no value. */
  ghost predicate Stage(code: seq<Ins>, open: set<int>, list: set<int>, start: int, reg: int, dt: int, b: bool) {
    && 1 <= start <= |code| && 0 <= reg < MAX_SLOTS
    && list <= open && Jumps(code, open) && WfCode(code, open, start, |code|) && Dests(code, open, list, |code|, dt)
    && (AllValued(code, list) || (TailAt(code, open, reg, |code| - 3) && dt == |code| - if b then 1 else 3))
  }

  ghost predicate AllValued(code: seq<Ins>, list: set<int>) {
    forall q :: q in list && 0 < q < |code| ==> Valued(code[q - 1])
  }

  /** Resolving one list into `reg`: its exits now reach the end with the value
      in the register, every other run is as before. */
  lemma PatchOut(w: World, code: seq<Ins>, open: set<int>, list: set<int>, start: int, reg: int, dt: int, b: bool, x: Value, r: Regs)
    requires Stage(code, open, list, start, reg, dt, b)
    requires var (q, s) := Run(w, code, open, start, r); q in list ==> ExitValue(w, code, q, s, x, b)
    ensures var (q, s) := Run(w, code, open, start, r);
      Run(w, Patched(code, list, reg, |code|, dt), open - list, start, r) ==
        if q in list then (|code|, Set(s, reg, x)) else (q, s)
  {
    var (q, s) := Run(w, code, open, start, r);
    var c := Patched(code, list, reg, |code|, dt);
    if start in list { assert EntryAt(code, open, start, start); }
    RunPatched(w, code, open, list, start, reg, |code|, dt, start, r);
    if q in list {
      PatchKeeps(code, open, list, reg, |code|, dt, q);
      Taken(w, code, open, list, start, reg, dt, b, x, q, s);
    }
  }

  lemma Taken(w: World, code: seq<Ins>, open: set<int>, list: set<int>, start: int, reg: int, dt: int, b: bool, x: Value, q: int, s: Regs)
    requires Stage(code, open, list, start, reg, dt, b) && q in list && q < |code| && ExitValue(w, code, q, s, x, b)
    ensures Run(w, Patched(code, list, reg, |code|, dt), open - list, q, Stored(w, code, q, reg, s)) == (|code|, Set(s, reg, x))
  {
    var c := Patched(code, list, reg, |code|, dt);
    assert c[q].op == JMP;
    if Valued(code[q - 1]) {
      assert Target(c, q) == |code|;
    } else {
      var f := |code| - 3;
      assert Target(c, q) == dt;
      assert ShapeAt(code, f) && ShapeAt(code, f + 1) && ShapeAt(code, f + 2);
      assert f !in list && f + 1 !in list && f + 2 !in list && f + 3 !in list;
      assert TailAt(c, open - list, reg, f);
      TailRuns(w, c, open - list, reg, f, s);
    }
  }

  /** The code behind an expression that goes to `reg`: nothing, or the tail
      that makes `false` and `true`, jumped over (by the jump at the head of
      the pending list) when a value is there already. */
  function Tail(end: End, reg: int, free: int, link: int): seq<Ins> {
    (if end.Reg? then [MakeJump(free, link)] else []) + [Ins(KPRI, reg, 1), MakeJump(free, 1), Ins(KPRI, reg, 2)]
  }

  /** How `expr_toreg` leaves the code of `v`: `c1` is the code with the tail
      when some exit carries no value (not `direct`), and `js` the jumps that
      are still to land behind it. */
  ghost predicate Tailed(v: View, reg: int, free: int, link: int, direct: bool, c1: seq<Ins>, js: set<int>) {
    && 0 <= reg < MAX_SLOTS && 0 <= free < NO_REG
    && (direct ==> v.end.Reg? && AllValued(v.code, v.ts + v.fs))
    && c1 == v.code + (if direct then [] else Tail(v.end, reg, free, link))
    && js == (if direct || !v.end.Reg? then v.js else v.js + {|v.code|})
    && (v.end == Reg(reg) || (v.end == Const(False) && v.js == {}))
  }

  function OpenWith(v: View, js: set<int>): set<int> { v.ctx + js + v.ts + v.fs }

  lemma TailWf(v: View, start: int, lim: int, reg: int, free: int, link: int, direct: bool, c1: seq<Ins>, js: set<int>)
    requires Wf(v, start, lim) && Tailed(v, reg, free, link, direct, c1, js)
    ensures WfCode(c1, OpenWith(v, js), start, |c1|) && Jumps(c1, OpenWith(v, js))
    ensures !direct ==> TailAt(c1, OpenWith(v, js), reg, |c1| - 3) && forall q :: q in OpenWith(v, js) ==> q < |c1| - 3
  {
    var o := OpenWith(v, js);
    var n := |v.code|;
    assert ShapeAt(v.code, n - 1);
    NewPositions(v, start, lim);
    assert forall q :: q in o ==> q in Lists(v) || q == n;
    assert !direct ==> c1[|c1| - 3] == Ins(KPRI, reg, 1) && c1[|c1| - 2] == MakeJump(free, 1) && c1[|c1| - 1] == Ins(KPRI, reg, 2);
    TailFlow(v, start, lim, reg, free, link, direct, c1, js);
    TailShape(v, start, lim, reg, free, link, direct, c1, js);
    forall q | q in o && 0 < q < |c1| ensures EntryAt(c1, o, start, q) {
      TailEntry(v, start, lim, reg, free, link, direct, c1, js, q);
    }
  }

  lemma TailFlow(v: View, start: int, lim: int, reg: int, free: int, link: int, direct: bool, c1: seq<Ins>, js: set<int>)
    requires Wf(v, start, lim) && Tailed(v, reg, free, link, direct, c1, js)
    ensures Flow(c1, OpenWith(v, js), start, |c1|)
  {
    var n := |v.code|;
    forall i | 0 <= start <= i < |c1| && i !in OpenWith(v, js) ensures FlowAt(c1, |c1|, i) {
      if i < n { assert FlowAt(v.code, lim, i); }
    }
  }

  lemma TailShape(v: View, start: int, lim: int, reg: int, free: int, link: int, direct: bool, c1: seq<Ins>, js: set<int>)
    requires Wf(v, start, lim) && Tailed(v, reg, free, link, direct, c1, js)
    ensures Shape(c1)
  {
    var n := |v.code|;
    forall i | 0 <= i < |c1| ensures ShapeAt(c1, i) {
      if i < n { assert ShapeAt(v.code, i); }
    }
  }

  lemma TailEntry(v: View, start: int, lim: int, reg: int, free: int, link: int, direct: bool, c1: seq<Ins>, js: set<int>, q: int)
    requires Wf(v, start, lim) && Tailed(v, reg, free, link, direct, c1, js)
    requires q in OpenWith(v, js) && 0 < q < |c1|
    ensures EntryAt(c1, OpenWith(v, js), start, q)
  {
    var n := |v.code|;
    assert ShapeAt(v.code, n - 1);
    NewPositions(v, start, lim);
    if q in Lists(v) {
      assert EntryAt(v.code, Opens(v), start, q);
      EntryExtended(v.code, c1, Opens(v), OpenWith(v, js), start, q);
    }
  }

  /** Code added behind does not enter earlier jumps. */
  lemma EntryExtended(c: seq<Ins>, c1: seq<Ins>, open: set<int>, o: set<int>, start: int, q: int)
    requires |c| <= |c1| && (forall i :: 0 <= i < |c| ==> c1[i] == c[i])
    requires 0 < q < |c| && EntryAt(c, open, start, q)
    requires forall i :: 0 <= i < |c| ==> (i in open <==> i in o)
    requires forall i :: |c| <= i < |c1| && i !in o && c1[i].op == JMP ==> Target(c1, i) > i
    ensures EntryAt(c1, o, start, q)
  {
  }

  /** What patching one list leaves for the other jumps and the tail. */
  lemma PatchRest(code: seq<Ins>, open: set<int>, list: set<int>, reg: int, dt: int, tail: bool)
    requires Shape(code) && list <= open && Jumps(code, open) && 0 <= reg < MAX_SLOTS
    requires Dests(code, open, list, |code|, dt)
    requires tail ==> TailAt(code, open, reg, |code| - 3)
    ensures var c := Patched(code, list, reg, |code|, dt);
      && Jumps(c, open - list)
      && (tail ==> TailAt(c, open - list, reg, |c| - 3))
      && forall q :: q in open - list ==> KeptAt(code, c, q)
  {
    var c := Patched(code, list, reg, |code|, dt);
    forall q | q in open - list ensures 0 < q < |c| && c[q].op == JMP && KeptAt(code, c, q) {
      PatchKeeps(code, open, list, reg, |code|, dt, q);
      PatchKeeps(code, open, list, reg, |code|, dt, q - 1);
      if q - 1 in list { assert ShapeAt(code, q - 1); }
    }
    if tail {
      var f := |code| - 3;
      assert ShapeAt(code, f) && ShapeAt(code, f + 1) && ShapeAt(code, f + 2);
      assert f !in list && f + 1 !in list && f + 2 !in list && f + 3 !in list;
    }
  }

  /** The two patches of `expr_toreg`. */
  ghost predicate Resolved(v: View, reg: int, direct: bool, c1: seq<Ins>, jf: int, jt: int, js: set<int>, v2: View) {
    && (direct || (jf == |c1| - 3 && jt == |c1| - 1))
    && v2 == View(Patched(Patched(c1, v.fs, reg, |c1|, jf), v.ts, reg, |c1|, jt), v.ctx, js, Reg(reg), {}, {})
  }

  /** The false list can be resolved first ... */
  lemma StageFalse(v: View, start: int, lim: int, reg: int, free: int, link: int, direct: bool, c1: seq<Ins>, js: set<int>, jf: int)
    requires Wf(v, start, lim) && Tailed(v, reg, free, link, direct, c1, js) && (direct || jf == |c1| - 3)
    ensures Stage(c1, OpenWith(v, js), v.fs, start, reg, jf, false)
  {
    TailWf(v, start, lim, reg, free, link, direct, c1, js);
  }

  /** ... and then the true list. */
  lemma StageTrue(v: View, start: int, lim: int, reg: int, free: int, link: int, direct: bool, c1: seq<Ins>, js: set<int>, jf: int, jt: int)
    requires Wf(v, start, lim) && Tailed(v, reg, free, link, direct, c1, js) && (direct || (jf == |c1| - 3 && jt == |c1| - 1))
    ensures var c2 := Patched(c1, v.fs, reg, |c1|, jf);
      && Stage(c2, OpenWith(v, js) - v.fs, v.ts, start, reg, jt, true)
      && forall q :: q in v.ts ==> KeptAt(c1, c2, q)
  {
    var o := OpenWith(v, js);
    var c2 := Patched(c1, v.fs, reg, |c1|, jf);
    TailWf(v, start, lim, reg, free, link, direct, c1, js);
    StageFalse(v, start, lim, reg, free, link, direct, c1, js, jf);
    PatchWf(c1, o, v.fs, reg, |c1|, jf, start);
    PatchRest(c1, o, v.fs, reg, jf, !direct);
  }

  lemma SettleWf(v: View, start: int, lim: int, reg: int, free: int, link: int, direct: bool, c1: seq<Ins>, js: set<int>, jf: int, jt: int, v2: View)
    requires Wf(v, start, lim) && Tailed(v, reg, free, link, direct, c1, js) && Resolved(v, reg, direct, c1, jf, jt, js, v2)
    ensures Wf(v2, start, |v2.code|)
  {
    var o := OpenWith(v, js);
    var c2 := Patched(c1, v.fs, reg, |c1|, jf);
    StageTrue(v, start, lim, reg, free, link, direct, c1, js, jf, jt);
    PatchWf(c2, o - v.fs, v.ts, reg, |c1|, jt, start);
    PatchRest(c2, o - v.fs, v.ts, reg, jt, false);
    NewPositions(v, start, lim);
    assert Opens(v2) == v.ctx + js && o - v.fs - v.ts == v.ctx + js;
  }

  /** The run before the patches, with the tail in place. */
  lemma TailRun(w: World, v: View, start: int, lim: int, reg: int, free: int, link: int, direct: bool, c1: seq<Ins>, js: set<int>, r: Regs)
    requires Wf(v, start, lim) && Tailed(v, reg, free, link, direct, c1, js)
    ensures var (q, s) := Run(w, v.code, Opens(v), start, r);
      Run(w, c1, OpenWith(v, js), start, r) ==
        if q == |v.code| && v.end.Const? then (|c1|, Set(s, reg, False)) else (q, s)
  {
    var o := OpenWith(v, js);
    var n := |v.code|;
    var (q, s) := Run(w, v.code, Opens(v), start, r);
    NewPositions(v, start, lim);
    FlowWider(v.code, Opens(v), start, lim);
    RunAppended(w, v.code, c1[n..], Opens(v), o, start, start, r);
    assert v.code + c1[n..] == c1;
    TailWf(v, start, lim, reg, free, link, direct, c1, js);
    if v.end.Const? { TailRuns(w, c1, o, reg, n, s); }
  }

  /** Resolving the false list, then the true list. */
  lemma BothPatches(w: World, c1: seq<Ins>, o: set<int>, ts: set<int>, fs: set<int>, start: int, reg: int, jf: int, jt: int, x: Value, r: Regs)
    requires var c2 := Patched(c1, fs, reg, |c1|, jf);
      Stage(c1, o, fs, start, reg, jf, false) && Stage(c2, o - fs, ts, start, reg, jt, true) && forall q :: q in ts ==> KeptAt(c1, c2, q)
    requires var (q, s) := Run(w, c1, o, start, r);
      (q in fs ==> ExitValue(w, c1, q, s, x, false)) && (q in ts ==> ExitValue(w, c1, q, s, x, true))
    ensures var (q, s) := Run(w, c1, o, start, r);
      Run(w, Patched(Patched(c1, fs, reg, |c1|, jf), ts, reg, |c1|, jt), o - fs - ts, start, r) ==
        if q in ts + fs then (|c1|, Set(s, reg, x)) else (q, s)
  {
    var c2 := Patched(c1, fs, reg, |c1|, jf);
    var (q, s) := Run(w, c1, o, start, r);
    PatchOut(w, c1, o, fs, start, reg, jf, false, x, r);
    PatchOut(w, c2, o - fs, ts, start, reg, jt, true, x, r);
  }

  lemma SettleAt(w: World, v: View, start: int, lim: int, base: int, reg: int, free: int, link: int, direct: bool, c1: seq<Ins>, js: set<int>,
                 jf: int, jt: int, v2: View, goal: Goal, r: Regs)
    requires Wf(v, start, lim) && Tailed(v, reg, free, link, direct, c1, js) && Resolved(v, reg, direct, c1, jf, jt, js, v2)
    requires DenAt(w, v, start, base, if v.end.Reg? then reg else NO_REG, goal, r) && (goal.Here? ==> goal.v == goal.x)
    ensures DenAt(w, v2, start, base, reg, goal, r)
  {
    var x := if goal.Here? then goal.x else Nil;
    StageFalse(v, start, lim, reg, free, link, direct, c1, js, jf);
    StageTrue(v, start, lim, reg, free, link, direct, c1, js, jf, jt);
    TailRun(w, v, start, lim, reg, free, link, direct, c1, js, r);
    NewPositions(v, start, lim);
    SettleOut(w, v, start, base, reg, direct, c1, js, jf, jt, v2, x, goal, r);
  }

  lemma SettleOut(w: World, v: View, start: int, base: int, reg: int, direct: bool, c1: seq<Ins>, js: set<int>,
                  jf: int, jt: int, v2: View, x: Value, goal: Goal, r: Regs)
    requires Resolved(v, reg, direct, c1, jf, jt, js, v2) && 0 <= reg < MAX_SLOTS
    requires |c1| >= |v.code| && c1[..|v.code|] == v.code && (forall i :: i in Lists(v) ==> 0 < i < |v.code|) && v.ctx !! v.js !! v.ts !! v.fs
    requires js == v.js || (js == v.js + {|v.code|} && v.end.Reg?)
    requires (v.end == Reg(reg) && (js == v.js ==> c1 == v.code)) || (v.end == Const(False) && v.js == {})
    requires var c2 := Patched(c1, v.fs, reg, |c1|, jf); var o := OpenWith(v, js);
      Stage(c1, o, v.fs, start, reg, jf, false) && Stage(c2, o - v.fs, v.ts, start, reg, jt, true) && forall q :: q in v.ts ==> KeptAt(c1, c2, q)
    requires var (q, s) := Run(w, v.code, Opens(v), start, r);
      Run(w, c1, OpenWith(v, js), start, r) == if q == |v.code| && v.end.Const? then (|c1|, Set(s, reg, False)) else (q, s)
    requires DenAt(w, v, start, base, if v.end.Reg? then reg else NO_REG, goal, r) && (goal.Here? ==> goal.v == goal.x == x)
    ensures DenAt(w, v2, start, base, reg, goal, r)
  {
    var o := OpenWith(v, js);
    var (q, s) := Run(w, v.code, Opens(v), start, r);
    var (q1, s1) := Run(w, c1, o, start, r);
    assert q1 in v.ts + v.fs ==> c1[q1 - 1] == v.code[q1 - 1];
    BothPatches(w, c1, o, v.ts, v.fs, start, reg, jf, jt, x, r);
    assert o - v.fs - v.ts == Opens(v2);
  }

  /** `expr_toreg`: with its value in `reg` at the end (or a constant `false`
      falling out of a comparison), resolving both lists delivers the value in
      `reg` on every path. */
  lemma Settle(job: Job, v: View, lim: int, reg: int, free: int, link: int, direct: bool, c1: seq<Ins>, js: set<int>, jf: int, jt: int, v2: View)
    requires Wf(v, job.start, lim) && Tailed(v, reg, free, link, direct, c1, js) && Plain(job.goal)
    requires Den(job, v, if v.end.Reg? then reg else NO_REG)
    requires Resolved(v, reg, direct, c1, jf, jt, js, v2)
    ensures Wf(v2, job.start, |v2.code|) && Den(job, v2, reg)
  {
    SettleWf(v, job.start, lim, reg, free, link, direct, c1, js, jf, jt, v2);
    forall w, r | Fits(w, job.kn, job.ks) ensures DenAt(w, v2, job.start, job.base, reg, job.goal(w, r), r) {
      SettleAt(w, v, job.start, lim, job.base, reg, free, link, direct, c1, js, jf, jt, v2, job.goal(w, r), r);
    }
  }
}
