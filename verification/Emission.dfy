/** Emitting instructions behind half-compiled expression code. */
module Emission {
  import opened Bytecode
  import opened Exec
  import opened Patching

  /** The code `bcemit` appends to: the pending jumps now lead to its end. */
  function Landed(code: seq<Ins>, js: set<int>): (c: seq<Ins>)
    ensures |c| == |code|
  {
    Patched(code, js, NO_REG, |code|, |code|)
  }

  /** Landing rewrites only pending jumps and their tests. */
  lemma LandedAt(code: seq<Ins>, js: set<int>, i: int)
    requires 0 <= i < |code| && Shape(code) && Jumps(code, js)
    ensures var c := Landed(code, js);
      && (code[i].op == JMP ==> c[i].op == JMP && (i !in js ==> c[i] == code[i]))
      && (i in js ==> Target(c, i) == |code|)
      && (Valued(c[i]) ==> c[i] == code[i] && i + 1 !in js)
      && (c[i] == code[i] || i in js || (i + 1 in js && Valued(code[i]) && !Valued(c[i]) &&
           ((IsTest(c[i].op) && IsCopyTest(code[i].op)) || (c[i].op == JMP && Target(c, i) == i + 1))))
  {
    assert ShapeAt(code, i);
    if i + 1 < |code| { assert ShapeAt(code, i + 1); }
    if i > 0 { assert ShapeAt(code, i - 1); }
  }

  /** Appending leaves every earlier run alone up to the old end. */
  lemma {:induction false} RunAppended(w: World, code: seq<Ins>, more: seq<Ins>, o1: set<int>, o2: set<int>,
                                       start: int, pc: int, r: Regs)
    requires 0 <= start <= pc <= |code| && Flow(code, o1, start, |code|)
    requires forall i :: i < |code| ==> (i in o1 <==> i in o2)
    ensures var (q, s) := Run(w, code, o1, pc, r);
      Run(w, code + more, o2, pc, r) == if q == |code| then Run(w, code + more, o2, q, s) else (q, s)
    decreases |code| - pc
  {
    if pc < |code| && pc !in o1 {
      assert FlowAt(code, |code|, pc);
      var (next, s) := Step(w, code[pc], pc, r);
      if next <= |code| { RunAppended(w, code, more, o1, o2, start, next, s); }
    }
  }

  lemma LandedFlow(code: seq<Ins>, open: set<int>, js: set<int>, start: int, lim: int)
    requires 0 <= lim <= |code| && js <= open && Jumps(code, js) && Shape(code) && Flow(code, open, start, lim)
    requires js != {} ==> lim == |code|
    ensures Flow(Landed(code, js), open - js, start, lim)
  {
    var c := Landed(code, js);
    forall i | 0 <= start <= i < |c| && i !in open - js ensures FlowAt(c, lim, i) {
      LandedAt(code, js, i);
      if i !in open { assert FlowAt(code, lim, i); }
      if i + 1 < |code| { LandedAt(code, js, i + 1); }
    }
  }

  /** Emission in terms of runs: what reached the end, directly or through a
      pending jump, now reaches the new code; nothing else moves. */
  lemma EmitRun(w: World, code: seq<Ins>, open: set<int>, js: set<int>, more: seq<Ins>, added: set<int>,
                start: int, lim: int, r: Regs)
    requires 0 <= start <= |code| && 0 <= lim <= |code| && js <= open && Jumps(code, js)
    requires Flow(code, open, start, lim) && Shape(code) && Entries(code, open, start)
    requires js != {} ==> lim == |code|
    requires start in js ==> start == 0 || !Valued(code[start - 1])
    requires forall i :: i in added ==> |code| <= i
    requires forall i :: i in open ==> i < |code|
    ensures var (q, s) := Run(w, code, open, start, r);
      var c := Landed(code, js) + more;
      Run(w, c, open - js + added, start, r) ==
        if q == |code| || q in js then Run(w, c, open - js + added, |code|, s) else (q, s)
    ensures var q := Run(w, code, open, start, r).0; q == |code| || q in open
  {
    var (q, s) := Run(w, code, open, start, r);
    var c := Landed(code, js);
    FlowWider(code, open, start, lim);
    RunEnds(w, code, open, start, start, r);
    RunPatched(w, code, open, js, start, NO_REG, |code|, |code|, start, r);
    LandedFlow(code, open, js, start, lim);
    FlowWider(c, open - js, start, lim);
    RunAppended(w, c, more, open - js, open - js + added, start, start, r);
    if q in js {
      LandedAt(code, js, q);
      assert Run(w, c, open - js, q, s) == (|code|, s);
    }
  }

  lemma FlowWider(code: seq<Ins>, open: set<int>, start: int, lim: int)
    requires 0 <= lim <= |code| && Flow(code, open, start, lim)
    ensures Flow(code, open, start, |code|)
  {
    forall i | 0 <= start <= i < |code| && i !in open ensures FlowAt(code, |code|, i) {
      assert FlowAt(code, lim, i);
    }
  }

  /** The instructions an emission may add at the end: a load or nil fill with
      its register, or a test with the jump it guards. */
  predicate Emittable(more: seq<Ins>) {
    || (|more| == 1 && (IsLoad(more[0].op) || more[0].op == KNIL) && more[0].a != NO_REG && (IsNilLoad(more[0]) ==> LowNil(more[0])))
    || (|more| == 2 && more[1].op == JMP && more[1].a != NO_REG && IsGuard(more[0]))
  }

  predicate IsGuard(ins: Ins) {
    || (IsTest(ins.op) && (IsCopyTest(ins.op) <==> ins.a == NO_REG))
    || (IsLoad(ins.op) && ins.a == NO_REG)
  }

  /** The jump an emission adds, or the load left without a register. */
  predicate Added(code: seq<Ins>, more: seq<Ins>, added: set<int>) {
    if |more| == 2 then added == {|code| + 1} else added == {} || added == {|code|}
  }

  /** The parts of well-formedness that speak of code and open positions. */
  ghost predicate WfCode(code: seq<Ins>, open: set<int>, start: int, lim: int) {
    Flow(code, open, start, lim) && Shape(code) && Entries(code, open, start)
  }

  lemma EmitFlow(code: seq<Ins>, open: set<int>, js: set<int>, more: seq<Ins>, added: set<int>, start: int, lim: int)
    requires 0 <= lim <= |code| && js <= open && Jumps(code, js) && WfCode(code, open, start, lim)
    requires js != {} ==> lim == |code|
    requires Emittable(more) && Added(code, more, added)
    ensures Flow(Landed(code, js) + more, open - js + added, start, lim)
  {
    var c := Landed(code, js);
    LandedFlow(code, open, js, start, lim);
    forall i | 0 <= start <= i < |c + more| && i !in open - js + added ensures FlowAt(c + more, lim, i) {
      if i < |c| { assert FlowAt(c, lim, i); }
    }
  }

  lemma EmitShape(code: seq<Ins>, js: set<int>, more: seq<Ins>)
    requires Jumps(code, js) && Shape(code) && Emittable(more)
    ensures Shape(Landed(code, js) + more)
  {
    var c := Landed(code, js);
    forall i | 0 <= i < |c + more| ensures ShapeAt(c + more, i) {
      if i < |c| {
        LandedAt(code, js, i);
        assert ShapeAt(code, i);
        if i + 1 < |c| { LandedAt(code, js, i + 1); }
      }
    }
  }

  lemma EmitEntries(code: seq<Ins>, open: set<int>, js: set<int>, more: seq<Ins>, added: set<int>, start: int, lim: int)
    requires 0 <= start <= |code| && 1 <= |code| && 0 <= lim <= |code| && js <= open && Jumps(code, js) && WfCode(code, open, start, lim)
    requires js != {} ==> lim == |code|
    requires Emittable(more) && Added(code, more, added)
    requires forall i :: i in open ==> i < |code|
    ensures Entries(Landed(code, js) + more, open - js + added, start)
  {
    var c := Landed(code, js) + more;
    var o := open - js + added;
    forall q | q in o && 0 < q < |c| ensures EntryAt(c, o, start, q) {
      if start <= q && Valued(c[q - 1]) {
        LandedAt(code, js, |code| - 1);
        assert ShapeAt(code, |code| - 1);
        assert q != |code|;
        forall i | 0 <= start <= i < |c| && i !in o && c[i].op == JMP ensures Target(c, i) != q {
          NotEntered(code, open, js, more, added, start, lim, q, i);
        }
        if q < |code| { EntryBefore(code, open, js, start, q); }
      }
    }
  }

  lemma EntryBefore(code: seq<Ins>, open: set<int>, js: set<int>, start: int, q: int)
    requires js <= open && Jumps(code, js) && Shape(code) && Entries(code, open, start)
    requires q in open && start <= q && 0 < q < |code| && Valued(Landed(code, js)[q - 1])
    ensures Valued(code[q - 1]) && start < q && EntryAt(code, open, start, q)
  {
    LandedAt(code, js, q - 1);
    assert EntryAt(code, open, start, q);
  }

  lemma NotEntered(code: seq<Ins>, open: set<int>, js: set<int>, more: seq<Ins>, added: set<int>, start: int, lim: int, q: int, i: int)
    requires 0 <= start <= i && 0 <= lim <= |code| && js <= open && Jumps(code, js) && WfCode(code, open, start, lim)
    requires Emittable(more) && Added(code, more, added)
    requires var c := Landed(code, js) + more;
      i < |c| && 0 < q < |c| && q != |code| && i !in open - js + added && q in open - js + added && c[i].op == JMP && start <= q && Valued(c[q - 1])
    ensures Target(Landed(code, js) + more, i) != q
  {
    if i < |code| {
      LandedAt(code, js, i);
      if i !in open && Landed(code, js)[i] == code[i] { assert FlowAt(code, lim, i); }
      if q < |code| { EntryBefore(code, open, js, start, q); }
      if q - 1 == i { LandedAt(code, js, q - 1); assert ShapeAt(code, i); }
    }
  }

  /** Rewriting one instruction keeps the code well formed when it stays the same
      kind: an open jump relinked, or a nil load widened. */
  predicate SameKind(code: seq<Ins>, open: set<int>, p: int, to: Ins)
    requires 0 <= p < |code|
  {
    || (p in open && code[p].op == JMP && to.op == JMP && to.a == code[p].a && to.a != NO_REG)
    || (IsNilLoad(code[p]) && IsNilLoad(to) && code[p].a == to.a && to.a != NO_REG && LowNil(to) && (to.op == KNIL || to.op == KPRI))
  }

  lemma RewriteFlow(code: seq<Ins>, open: set<int>, start: int, lim: int, p: int, to: Ins)
    requires 0 <= p < |code| && Flow(code, open, start, lim) && SameKind(code, open, p, to)
    ensures Flow(code[p := to], open, start, lim)
  {
    var c := code[p := to];
    forall i | 0 <= start <= i < |c| && i !in open ensures FlowAt(c, lim, i) { assert FlowAt(code, lim, i); }
  }

  lemma RewriteShape(code: seq<Ins>, open: set<int>, p: int, to: Ins)
    requires 0 <= p < |code| && Shape(code) && SameKind(code, open, p, to)
    ensures Shape(code[p := to])
  {
    var c := code[p := to];
    forall i | 0 <= i < |c| ensures ShapeAt(c, i) { assert ShapeAt(code, i); }
  }

  lemma RewriteEntries(code: seq<Ins>, open: set<int>, start: int, p: int, to: Ins)
    requires 0 <= p < |code| && Entries(code, open, start) && SameKind(code, open, p, to)
    ensures Entries(code[p := to], open, start)
  {
    var c := code[p := to];
    forall q | q in open && 0 < q < |c| ensures EntryAt(c, open, start, q) { assert EntryAt(code, open, start, q); }
  }

  lemma RewriteJumps(code: seq<Ins>, open: set<int>, list: set<int>, p: int, to: Ins)
    requires 0 <= p < |code| && Jumps(code, list) && SameKind(code, open, p, to) && (p in list ==> code[p].op == JMP)
    ensures Jumps(code[p := to], list)
  {
  }
}
