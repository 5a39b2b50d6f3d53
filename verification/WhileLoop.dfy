/** The loop `while x < 3 do x = x + 1 end` of a function with one local: its
    recording gives a closed trace. */
module WhileLoop {
  import opened IrBuffer
  import opened TraceVm
  import opened TraceIr
  import opened TraceRecorder
  import opened TraceExec
  import BC = Bytecode

  const THREE := Fin(3.0, 0)
  const ONE := Fin(1.0, 0)

  /** The condition is at 1 to 3, the loop at 4, its body at 5 and 6. */
  const CODE: seq<BC.Ins> := [
    BC.Ins(BC.FUNCF, 2, 0), BC.Ins(BC.KSHORT, 1, 3), BC.Ins(BC.ISGE, 0, 1), BC.MakeJump(1, 3), BC.Ins(BC.LOOP, 1, 2 + BC.BIAS), BC.Ins(ADDVN, 0, 0),
    BC.MakeJump(1, -6), BC.Ins(BC.RET0, 0, 1)]

  const WHILE := Proto(CODE, [ONE], [], 2)

  /** The registers in use at each instruction. */
  const TOP := [0, 1, 2, 1, 1, 1, 1, 1]

  lemma Follows(pc: int)
    requires 1 <= pc < 7
    ensures FollowsAt(WHILE, TOP, pc)
  {
  }

  lemma WhileOk()
    ensures WfProto(WHILE) && Convention(WHILE, TOP, 4, 1, 6)
  {
    forall pc | 0 <= pc < |CODE| ensures WfIns(WHILE, pc) {
    }
    forall pc {:trigger FollowsAt(WHILE, TOP, pc)} | 0 <= pc < |CODE| && 1 <= pc < 7 ensures FollowsAt(WHILE, TOP, pc) {
      Follows(pc);
    }
    hide FollowsAt;
  }

  /** The loop, entered with `x` where it goes round once more. */
  ghost predicate Entered(l: Loop, x: Number) {
    && l.p == WHILE && l.start == 4 && l.min == 1 && l.extent == 6 && 24 <= l.maxrecord <= 0x7000 && 7 <= l.maxirconst <= 0x7000
    && Reg(l.s, 0) == Num(x) && NumLess(l.w.add(x, ONE), THREE)
  }

  /** The four steps of one turn. */
  lemma Turn(l: Loop, x: Number)
    requires Entered(l, x)
    ensures RunOf(l, 0) == At(5, l.s)
    ensures var s1 := SetReg(l.s, 0, Num(l.w.add(x, ONE)));
      var s2 := SetReg(s1, 1, Num(THREE));
      RunOf(l, 1) == At(6, s1) && RunOf(l, 2) == At(1, s1) && RunOf(l, 3) == At(2, s2) && RunOf(l, 4) == At(4, s2)
  {
    var s1 := SetReg(l.s, 0, Num(l.w.add(x, ONE)));
    var s2 := SetReg(s1, 1, Num(THREE));
    assert BcStep(WHILE, l.w, 5, l.s) == At(6, s1);
    assert BcStep(WHILE, l.w, 6, s1) == At(1, s1);
    assert BcStep(WHILE, l.w, 1, s1) == At(2, s2);
    assert BcStep(WHILE, l.w, 2, s2) == At(4, s2);
  }

  lemma WhileCloses(l: Loop, x: Number, fuel: nat)
    requires Entered(l, x) && fuel > 4
    ensures LoopOk(l) && ClosesIn(l, fuel, 4)
  {
    WhileOk();
    Turn(l, x);
    hide WfProto, RunOf, Convention;
    forall i: nat {:trigger StepRecords(l, i)} | i < 4 ensures StepRecords(l, i) {
      assert i == 0 || i == 1 || i == 2 || i == 3;
    }
  }

  /** Recorded once round, the loop gives a trace that is closed and whose last
      snapshot is five steps from its head: the four above and the loop itself. */
  method RecordWhile(maxrecord: int, maxirconst: int, unroll: int, w: Arith, s: Stack, x: Number, fuel: nat, haseq: int -> bool, innerleft: int -> bool)
    returns (t: Trace, ghost at: seq<nat>)
    requires Entered(Loop(WHILE, 4, 1, 6, maxrecord, maxirconst, w, s, haseq), x) && fuel > 4
    ensures TraceOk(WHILE, t, 5, at) && Runnable(t) && Closed(t) && PassesAll(t, w, s) && at != [] && at[|at| - 1] == 5
  {
    hide TraceOk, Runnable, Closed, Convention, BackAt, ClosesIn, PassesAll, WfProto, Entered;
    ghost var l := Loop(WHILE, 4, 1, 6, maxrecord, maxirconst, w, s, haseq);
    WhileOk();
    WhileCloses(l, x, fuel);
    var st;
    ghost var turn;
    st, t, at, turn := RecordTrace(WHILE, 4, 1, 6, maxrecord, maxirconst, unroll, w, s, fuel, haseq, innerleft, TOP);
  }
}
