/** What compiled expression code does: one bytecode step on a register file,
    and the run of a code fragment up to its first unresolved jump. */
module Exec {
  import opened Bytecode

  /** Lua values. Numbers a literal can denote are reals; every other value
      (NaN, infinities, tables, functions, ...) is an opaque `Other`. */
  datatype Value = Nil | False | True | Num(n: real) | Str(s: string) | Other(id: int)

  predicate Truthy(v: Value) { v != Nil && v != False }
  function Bool(b: bool): Value { if b then True else False }

  /** The parts of the machine that expressions only read: the comparison
      primitives, the upvalues and the constant tables. */
  datatype World = World(
    lt: (Value, Value) -> bool, le: (Value, Value) -> bool, eq: (Value, Value) -> bool,
    upval: int -> Value, kn: seq<real>, ks: seq<string>)

  const REGS := 256
  type Regs = s: seq<Value> | |s| == REGS witness seq(REGS, _ => Nil)

  function Get(r: Regs, i: int): Value { if 0 <= i < REGS then r[i] else Nil }
  /** Writing `NO_REG` stores nothing. */
  function Set(r: Regs, i: int, v: Value): Regs { if 0 <= i < NO_REG then r[i := v] else r }

  function SetNil(r: Regs, lo: int, hi: int): (s: Regs)
    ensures forall i :: 0 <= i < REGS ==> s[i] == if lo <= i <= hi && i < NO_REG then Nil else r[i]
  {
    seq(REGS, i requires 0 <= i < REGS => if lo <= i <= hi && i < NO_REG then Nil else r[i])
  }

  function PriValue(d: int): Value { if d == 0 then Nil else if d == 1 then False else True }
  function ShortValue(d: int): real { (if d < 0x8000 then d else d - 0x10000) as real }
  function StrConst(w: World, d: int): Value { if 0 <= d < |w.ks| then Str(w.ks[d]) else Nil }
  function NumConst(w: World, d: int): Value { if 0 <= d < |w.kn| then Num(w.kn[d]) else Nil }

  /** The value a load instruction produces. */
  function Loaded(w: World, ins: Ins, r: Regs): Value {
    if ins.op == MOV then Get(r, ins.d)
    else if ins.op == NOT then Bool(!Truthy(Get(r, ins.d)))
    else if ins.op == UGET then w.upval(ins.d)
    else if ins.op == KSTR then StrConst(w, ins.d)
    else if ins.op == KSHORT then Num(ShortValue(ins.d))
    else if ins.op == KNUM then NumConst(w, ins.d)
    else PriValue(ins.d)
  }

  /** The relation an even comparison opcode tests. */
  predicate Related(w: World, op: int, a: Value, r: Regs, d: int) {
    if op == ISLT then w.lt(a, Get(r, d))
    else if op == ISLE then w.le(a, Get(r, d))
    else if op == ISEQV then w.eq(a, Get(r, d))
    else if op == ISEQS then w.eq(a, StrConst(w, d))
    else if op == ISEQN then w.eq(a, NumConst(w, d))
    else w.eq(a, PriValue(d))
  }

  /** Does a test instruction take the jump that follows it? */
  predicate Holds(w: World, ins: Ins, r: Regs) {
    if ins.op >= ISTC then
      Truthy(Get(r, ins.d)) == (ins.op % 2 == 0)
    else
      Related(w, ins.op - ins.op % 2, Get(r, ins.a), r, ins.d) == (ins.op % 2 == 0)
  }

  /** One instruction: a test falls into the jump behind it or skips it. */
  function Step(w: World, ins: Ins, pc: int, r: Regs): (int, Regs) {
    if IsTest(ins.op) then
      if Holds(w, ins, r) then
        (pc + 1, if IsCopyTest(ins.op) then Set(r, ins.a, Get(r, ins.d)) else r)
      else
        (pc + 2, r)
    else if IsLoad(ins.op) then (pc + 1, Set(r, ins.a, Loaded(w, ins, r)))
    else if ins.op == KNIL then (pc + 1, SetNil(r, ins.a, ins.d))
    else if ins.op == JMP then (pc + 1 + JumpOf(ins), r)
    else (pc, r)
  }

  /** Run from `pc` until control reaches an open position (an instruction the
      compiler has not finished yet) or leaves the code. */
  function Run(w: World, code: seq<Ins>, open: set<int>, pc: int, r: Regs): (int, Regs)
    decreases |code| - pc
  {
    if pc < 0 || pc >= |code| || pc in open then (pc, r)
    else
      var (next, s) := Step(w, code[pc], pc, r);
      if next <= pc then (pc, s) else Run(w, code, open, next, s)
  }

  /** The value that a value-carrying test hands to its jump. */
  function Carried(w: World, ins: Ins, r: Regs): Value {
    if IsCopyTest(ins.op) then Get(r, ins.d) else Loaded(w, ins, r)
  }

  function Target(code: seq<Ins>, i: int): int
    requires 0 <= i < |code|
  { i + 1 + JumpOf(code[i]) }

  /** Finished instructions from `start` on: known opcodes, forward jumps that
      stay within `lim`, and a jump behind every test. */
  predicate FlowAt(code: seq<Ins>, lim: int, i: int)
    requires 0 <= i < |code|
  {
    var op := code[i].op;
    && (IsTest(op) || IsLoad(op) || op == KNIL || op == JMP)
    && (op == JMP ==> i < Target(code, i) <= lim || Target(code, i) == i + 1)
    && (IsTest(op) ==> i + 1 < |code| && code[i + 1].op == JMP)
  }

  predicate Flow(code: seq<Ins>, open: set<int>, start: int, lim: int) {
    forall i {:trigger FlowAt(code, lim, i)} :: 0 <= start <= i < |code| && i !in open ==> FlowAt(code, lim, i)
  }

  /** Value-carrying instructions are tests or loads with a jump behind them;
      nil loads name registers that exist. */
  predicate ShapeAt(code: seq<Ins>, i: int)
    requires 0 <= i < |code|
  {
    && (Valued(code[i]) ==>
          && (IsCopyTest(code[i].op) || IsLoad(code[i].op))
          && i + 1 < |code| && code[i + 1].op == JMP)
    && (IsNilLoad(code[i]) ==> code[i].a == NO_REG || LowNil(code[i]))
  }

  predicate Shape(code: seq<Ins>) {
    forall i {:trigger ShapeAt(code, i)} :: 0 <= i < |code| ==> ShapeAt(code, i)
  }

  /** A jump that carries a value is entered only through its own test. */
  predicate EntryAt(code: seq<Ins>, open: set<int>, start: int, q: int)
    requires 0 < q < |code|
  {
    start <= q && Valued(code[q - 1]) ==>
      && start < q
      && forall i :: 0 <= start <= i < |code| && i !in open && code[i].op == JMP ==> Target(code, i) != q
  }

  predicate Entries(code: seq<Ins>, open: set<int>, start: int) {
    forall q {:trigger EntryAt(code, open, start, q)} :: q in open && 0 < q < |code| ==> EntryAt(code, open, start, q)
  }

  /** A run over finished code ends at an open position or at the end. */
  lemma {:induction false} RunEnds(w: World, code: seq<Ins>, open: set<int>, start: int, pc: int, r: Regs)
    requires 0 <= start <= pc <= |code| && Flow(code, open, start, |code|)
    ensures var (q, s) := Run(w, code, open, pc, r);
      pc <= q <= |code| && (q in open || q == |code|)
    decreases |code| - pc
  {
    if pc < |code| && pc !in open {
      assert FlowAt(code, |code|, pc);
      var (next, s) := Step(w, code[pc], pc, r);
      RunEnds(w, code, open, start, next, s);
    }
  }
}
