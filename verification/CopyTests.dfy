/** A copying test that is taken (`ISTC`, `ISFC`) writes its register without
    raising `maxslot`: when the copy survives leaving the trace, and when it is
    lost. */
module CopyTests {
  import opened IrBuffer
  import opened TraceVm
  import opened TraceIr
  import opened Snapshots
  import opened TraceRecorder
  import BC = Bytecode

  /** What register `a` holds after an exit that restores `e`. */
  function Exited(m: Sym, w: Arith, s: Stack, a: int, e: seq<SnapEntry>): Value { Reg(Restore(e, m.k, EnvOf(m, w, s), s), a) }

  /** It holds what it should if it lies below `inuse`, or else what it held at
      the head of the trace. */
  predicate ExitsWith(m: Sym, w: Arith, s: Stack, a: int, e: seq<SnapEntry>, inuse: int)
    requires |m.slot| == MAX_JSLOTS
  {
    && Exited(m, w, s, a, e) == (if a < inuse then Reg(Look(m, w, s), a) else Reg(s, a))
    && (Exited(m, w, s, a, e) == Reg(Look(m, w, s), a) <==> a < inuse || Reg(Look(m, w, s), a) == Reg(s, a))
  }

  lemma CopySurvives(m: Sym, w: Arith, s: Stack, a: int, maxslot: int)
    requires WfSym(m) && m.slot[1].None? && RegIn(a) && 0 <= maxslot && BASESLOT + maxslot <= MAX_JSLOTS
    ensures ExitsWith(m, w, s, a, MapOf(m.slot, m.ir, BASESLOT + maxslot), maxslot)
  {
    RestoreLooks(m, w, s, BASESLOT + maxslot);
  }

  /** Records the copying test at `at0`, and takes the next snapshot. A run that
      leaves the trace there keeps the register of the test if and only if it
      was in use before and lies below operand A of the jump (both bound the
      registers in use behind the test), or the run has not changed it; so it is
      for every run the trace stands for. */
  method CopyThenExit(j: Recorder, at0: int, w0: Arith, stack: Stack, haseq: bool, innerleft: bool) returns (st: Outcome, e: seq<SnapEntry>)
    requires j.Ready() && w0 == j.w0 && at0 == j.npc && stack == j.Now() && at0 + 1 < |j.p.bc| && IsCopy(j.p.bc[at0].op) && RegIn(j.p.bc[at0].a)
    modifies j, j.ir, j.slot
    ensures j.bcmin <= at0 < j.bcmin + j.bcextent && |old(j.ir.ins)| + 6 <= j.maxrecord && |old(j.ir.k)| < j.maxirconst ==> st.Ok?
    ensures st.Ok? ==> j.Open() && BcStep(j.p, j.w0, at0, stack) == At(j.npc, j.Now()) && j.snap[|j.snap| - 1].pc == j.npc
    ensures st.Ok? ==> 0 <= j.snap[|j.snap| - 1].mapofs <= |j.snapmap| && e == j.snapmap[j.snap[|j.snap| - 1].mapofs..]
    ensures st.Ok? ==> j.maxslot == Cut(old(j.maxslot), j.p.bc[at0 + 1].a) && forall w, s :: ExitsWith(j.View(), w, s, j.p.bc[at0].a, e, j.maxslot)
  {
    hide Lands, Tracks, Look, Passes, ExitOk, PlainSnap, WfProto, Exits, WfIr, IrBuf.Valid, TightIr, TightSnaps, TightSlots, BcStep, MapOf, Exited;
    e := [];
    st := j.RecordIns(at0, stack, haseq, innerleft);
    if !st.Ok? {
      return;
    }
    var next := BcStep(j.p, w0, at0, stack);
    j.pc := next.pc;
    j.SnapAdd();
    e := j.snapmap[j.snap[|j.snap| - 1].mapofs..];
    forall w, s ensures ExitsWith(j.View(), w, s, j.p.bc[at0].a, e, j.maxslot) {
      CopySurvives(j.View(), w, s, j.p.bc[at0].a, j.maxslot);
    }
  }

  /** `local x = a or b` as compiled, with two locals in use. */
  function OrCode(): Proto {
    Proto([BC.Ins(BC.LOOP, 2, BC.BIAS), BC.Ins(BC.ISTC, 2, 0), BC.Ins(BC.JMP, 2, BC.BIAS + 1), BC.Ins(BC.MOV, 2, 1), BC.Ins(BC.RET0, 0, 1)], [], [], 3)
  }

  lemma OrCodeOk()
    ensures WfProto(OrCode())
  {
    var p := OrCode();
    forall pc | 0 <= pc < |p.bc| ensures WfIns(p, pc) { }
  }

  /** Recording it with `a` true, `x` reads nil when the trace is left right
      behind the test, and true when it is not. */
  method CopyLost(w: Arith) returns (st: Outcome, kept: Value, lost: Value)
    ensures st.Ok? && kept == True && lost == Nil
  {
    hide Tracks, Passes, ExitOk, PlainSnap, WfProto, Exits, WfIr, WfSym, IrBuf.Valid, TightIr, TightSnaps, TightSlots;
    OrCodeOk();
    var s: Stack := seq(MAX_JSLOTS, i => if i == BASESLOT then True else Nil);
    var j := new Recorder(OrCode(), 0, 1, 4, 100, 100, 15, w, s);
    var e: seq<SnapEntry>;
    st, e := CopyThenExit(j, 1, w, s, false, false);
    CopyRuns(w, s);
    OpenFacts(j);
    kept := Reg(BcStep(OrCode(), w, 1, s).s, 2);
    ghost var m := j.View();
    assert ExitsWith(m, w, s, 2, e, 2);
    lost := Reg(Restore(e, j.ir.k, Env(j.ir.ins, j.ir.k, w, s, |j.ir.ins|), s), 2);
  }

  lemma OpenFacts(j: Recorder)
    requires j.Open()
    ensures j.slot.Length == MAX_JSLOTS && WfSym(j.View()) && j.slot[1].None? && Passing(j.View(), j.w0, j.s0)
  {
  }

  lemma CopyRuns(w: Arith, s: Stack)
    requires Reg(s, 0) == True
    ensures BcStep(OrCode(), w, 1, s) == At(4, SetReg(s, 2, True))
  {
  }
}
