/** Rewriting the tests and jumps of a jump list, and what that does to runs. */
module Patching {
  import opened Bytecode
  import opened Exec

  /** The test in front of a list jump, rewritten to store into `reg`
      (`jmp_patchtestreg`). */
  function PatchedTest(ins: Ins, jmp: Ins, reg: int): Ins {
    if IsCopyTest(ins.op) then
      if reg != NO_REG && reg != ins.d then ins.(a := reg) else ins.(op := ins.op + (IST - ISTC), a := 0)
    else if ins.a == NO_REG then
      if reg == NO_REG then MakeJump(jmp.a, 0) else ins.(a := reg)
    else ins
  }

  /** Operand A of the jump itself after that rewrite. */
  function PatchedBase(ins: Ins, jmp: Ins, reg: int): int {
    if !IsCopyTest(ins.op) && ins.a == NO_REG && reg != NO_REG && reg >= jmp.a then reg + 1 else jmp.a
  }

  function Retarget(jmp: Ins, pc: int, dest: int): Ins { jmp.(d := dest - (pc + 1) + BIAS) }

  /** The code after every jump in `list` was sent to `vt` if it carries a
      value and to `dt` otherwise (`jmp_patchval`). */
  function PatchedAt(code: seq<Ins>, list: set<int>, reg: int, vt: int, dt: int, i: int): Ins
    requires 0 <= i < |code|
  {
    if i in list && i > 0 then
      var jmp := code[i].(a := PatchedBase(code[i - 1], code[i], reg));
      Retarget(jmp, i, if Valued(code[i - 1]) then vt else dt)
    else if i + 1 in list && i + 1 < |code| && Valued(code[i]) then PatchedTest(code[i], code[i + 1], reg)
    else code[i]
  }

  function Patched(code: seq<Ins>, list: set<int>, reg: int, vt: int, dt: int): (c: seq<Ins>)
    ensures |c| == |code|
    ensures forall i {:trigger c[i]} :: 0 <= i < |code| ==> c[i] == PatchedAt(code, list, reg, vt, dt, i)
  {
    seq(|code|, i requires 0 <= i < |code| => PatchedAt(code, list, reg, vt, dt, i))
  }

  /** The registers a jump of a patched list is taken with. */
  function Stored(w: World, code: seq<Ins>, q: int, reg: int, r: Regs): Regs {
    if 0 < q <= |code| && Valued(code[q - 1]) then Set(r, reg, Carried(w, code[q - 1], r)) else r
  }

  /** Unresolved jumps: jumps whose value-carrying tests have no register yet. */
  ghost predicate Jumps(code: seq<Ins>, list: set<int>) {
    forall q {:trigger q in list} :: q in list ==>
      0 < q < |code| && code[q].op == JMP && (Valued(code[q - 1]) ==> code[q - 1].a == NO_REG)
  }

  /** Resolving a jump list: a run that stopped at one of its jumps now stores
      the carried value and goes on; every other run is unchanged. */
  lemma {:induction false} RunPatched(w: World, code: seq<Ins>, open: set<int>, list: set<int>, start: int,
                                      reg: int, vt: int, dt: int, pc: int, r: Regs)
    requires 0 <= start <= pc <= |code| && list <= open && Jumps(code, list)
    requires Flow(code, open, start, |code|) && Shape(code) && Entries(code, open, start)
    requires 0 < pc && pc in list ==> !Valued(code[pc - 1])
    ensures var (q, s) := Run(w, code, open, pc, r);
      var done := Patched(code, list, reg, vt, dt);
      Run(w, done, open - list, pc, r) ==
        if q in list then Run(w, done, open - list, q, Stored(w, code, q, reg, s)) else (q, s)
    decreases |code| - pc
  {
    var done := Patched(code, list, reg, vt, dt);
    if pc < |code| && pc !in open {
      assert FlowAt(code, |code|, pc);
      var (next, s) := Step(w, code[pc], pc, r);
      NextEntry(w, code, open, start, pc, r);
      if pc + 1 in list && Valued(code[pc]) {
        assert ShapeAt(code, pc);
        PatchedStep(w, code[pc], code[pc + 1], reg, pc, r);
        if next != pc + 1 {
          RunPatched(w, code, open, list, start, reg, vt, dt, next, s);
        }
      } else {
        assert done[pc] == code[pc];
        RunPatched(w, code, open, list, start, reg, vt, dt, next, s);
      }
    }
  }

  /** A step enters a value-carrying open jump only from its own test. */
  lemma NextEntry(w: World, code: seq<Ins>, open: set<int>, start: int, pc: int, r: Regs)
    requires 0 <= start <= pc < |code| && pc !in open
    requires FlowAt(code, |code|, pc) && Shape(code) && Entries(code, open, start)
    ensures var next := Step(w, code[pc], pc, r).0;
      pc < next <= |code| && (next in open && 0 < next < |code| && Valued(code[next - 1]) ==> next == pc + 1)
  {
    var next := Step(w, code[pc], pc, r).0;
    assert pc + 1 < |code| ==> ShapeAt(code, pc + 1);
    if next in open && next < |code| && Valued(code[next - 1]) && next != pc + 1 {
      assert EntryAt(code, open, start, next);
    }
  }

  /** A rewritten test takes its jump in the same cases, storing the value. */
  lemma PatchedStep(w: World, ins: Ins, jmp: Ins, reg: int, pc: int, r: Regs)
    requires ins.a == NO_REG && (IsCopyTest(ins.op) || IsLoad(ins.op))
    ensures var (next, s) := Step(w, ins, pc, r);
      s == r && Step(w, PatchedTest(ins, jmp, reg), pc, r) ==
        if next == pc + 1 then (pc + 1, Set(r, reg, Carried(w, ins, r))) else (next, r)
  {
    if IsCopyTest(ins.op) && reg == ins.d && 0 <= reg < NO_REG {
      assert Set(r, reg, Get(r, ins.d)) == r;
    }
  }
}
