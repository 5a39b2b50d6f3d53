/** The bytecode interpreter on the instructions a single-frame numeric trace is
    made of. */
module TraceVm {
  import opened IrBuffer
  import BC = Bytecode

  /** The first slots are the frame's function and its link; the registers start
      at slot 2. */
  const BASESLOT := 2
  type Stack = s: seq<Value> | |s| == MAX_JSLOTS witness seq(MAX_JSLOTS, _ => Nil)

  /** The arithmetic of the machine, left abstract. */
  datatype Arith = Arith(add: (Number, Number) -> Number, sub: (Number, Number) -> Number, mul: (Number, Number) -> Number,
                         div: (Number, Number) -> Number, pow: (Number, Number) -> Number, floor: Number -> Number, neg: Number -> Number)

  /** A function prototype: code, number and string constants, frame size. */
  datatype Proto = Proto(bc: seq<BC.Ins>, kn: seq<Number>, ks: seq<Value>, framesize: int)

  // More opcodes of the instruction set.
  const UNM := 20
  const ADDVN := 22
  const ADDNV := 27
  const ADDVV := 32
  const MODVV := 36
  const POWVV := 37

  predicate IsArith(op: int) { ADDVN <= op <= POWVV }
  predicate IsOrder(op: int) { BC.ISLT <= op <= BC.ISGT }
  predicate IsEquality(op: int) { BC.ISEQV <= op <= BC.ISNEP }
  predicate IsBoolTest(op: int) { BC.ISTC <= op <= BC.ISF }
  predicate IsConstLoad(op: int) { op == BC.KSTR || op == BC.KSHORT || op == BC.KNUM || op == BC.KPRI }

  /** What the recorder below records. */
  predicate Recordable(op: int) {
    IsOrder(op) || IsEquality(op) || IsBoolTest(op) || op == BC.MOV || op == BC.NOT || op == UNM || IsConstLoad(op) || op == BC.KNIL
    || IsArith(op) || op == BC.JMP || op == BC.LOOP
  }

  /** Operands in range, and a jump behind every test: what the compiler
      guarantees of the code of a prototype. */
  predicate WfIns(p: Proto, pc: int)
    requires 0 <= pc < |p.bc|
  {
    var i := p.bc[pc];
    Recordable(i.op) ==>
      && pc + 1 < |p.bc| && 0 <= i.a && 0 <= i.d < 0x10000
      && (UsesA(i.op) ==> i.a < p.framesize) && (ReadsD(i.op) ==> i.d < p.framesize)
      && (i.op in {BC.ISEQN, BC.ISNEN, BC.KNUM} ==> i.d < |p.kn|)
      && (i.op in {BC.ISEQS, BC.ISNES, BC.KSTR} ==> i.d < |p.ks|)
      && (i.op in {BC.ISEQP, BC.ISNEP, BC.KPRI} ==> i.d <= 2)
      && (i.op == BC.KNIL ==> i.a <= i.d < p.framesize)
      && (IsArith(i.op) ==> BC.BcB(i) < p.framesize && if i.op < ADDVV then BC.BcC(i) < |p.kn| else BC.BcC(i) < p.framesize)
      && (i.op < BC.MOV ==> pc + 2 < |p.bc| && p.bc[pc + 1].op == BC.JMP && 0 <= Jump(p, pc + 1) < |p.bc|)
      && (i.op == BC.JMP ==> 0 <= Jump(p, pc) < |p.bc|)
  }

  predicate UsesA(op: int) { op <= BC.ISFC || (BC.MOV <= op < BC.JMP && op != BC.LOOP) }
  predicate ReadsD(op: int) { op <= BC.ISNEV || BC.ISTC <= op <= BC.ISF || BC.MOV <= op <= UNM }

  predicate WfProto(p: Proto) {
    && 0 <= p.framesize && 1 + p.framesize < MAX_JSLOTS
    && (forall pc :: 0 <= pc < |p.bc| ==> WfIns(p, pc))
    && (forall i :: 0 <= i < |p.ks| ==> p.ks[i].Gc? && p.ks[i].t == IRT_STR)
  }

  function Jump(p: Proto, pc: int): int
    requires 0 <= pc < |p.bc|
  { pc + 1 + BC.JumpOf(p.bc[pc]) }

  predicate RegIn(a: int) { 0 <= a < MAX_JSLOTS - BASESLOT }

  function Reg(s: Stack, a: int): Value { if 0 <= a < MAX_JSLOTS - BASESLOT then s[BASESLOT + a] else Nil }
  function SetReg(s: Stack, a: int, v: Value): Stack { if 0 <= a < MAX_JSLOTS - BASESLOT then s[BASESLOT + a := v] else s }

  function ShortNum(d: int): Number { Fin((if d < 0x8000 then d else d - 0x10000) as real, 0) }
  const NEG_ZERO := Fin(0.0, 1)

  /** Value of operand D of a test. */
  function OperandD(p: Proto, i: BC.Ins, s: Stack): Value {
    if i.op == BC.ISEQS || i.op == BC.ISNES then (if 0 <= i.d < |p.ks| then p.ks[i.d] else Nil)
    else if i.op == BC.ISEQN || i.op == BC.ISNEN then (if 0 <= i.d < |p.kn| then Num(p.kn[i.d]) else Nil)
    else if i.op == BC.ISEQP || i.op == BC.ISNEP then PriValue(i.d)
    else Reg(s, i.d)
  }

  predicate RawEq(a: Value, b: Value) { if a.Num? && b.Num? then NumEq(a.n, b.n) else a == b }

  /** Is the jump behind a test taken? Odd opcodes negate. */
  predicate TestHolds(p: Proto, i: BC.Ins, s: Stack)
    requires IsOrder(i.op) ==> Reg(s, i.a).Num? && Reg(s, i.d).Num?
  {
    if IsOrder(i.op) then
      var (x, y) := (Reg(s, i.a).n, Reg(s, i.d).n);
      (if i.op == BC.ISLT || i.op == BC.ISGE then NumLess(x, y) else NumLessEq(x, y)) == (i.op % 2 == 0)
    else if IsEquality(i.op) then RawEq(Reg(s, i.a), OperandD(p, i, s)) == (i.op % 2 == 0)
    else Truthy(Reg(s, i.d)) == (i.op % 2 == 0)
  }

  /** Arithmetic by opcode; `%` is `x - floor(x / y) * y`. */
  function ArithNum(w: Arith, op: int, x: Number, y: Number): Number {
    if op == POWVV then w.pow(x, y)
    else
      var o := (op - ADDVN) % 5;
      if o == 0 then w.add(x, y) else if o == 1 then w.sub(x, y) else if o == 2 then w.mul(x, y) else if o == 3 then w.div(x, y)
      else w.sub(x, w.mul(w.floor(w.div(x, y)), y))
  }

  /** The operands of an arithmetic instruction, in order. */
  function ArithOperands(p: Proto, i: BC.Ins, s: Stack): (Value, Value) {
    var k := if 0 <= BC.BcC(i) < |p.kn| then Num(p.kn[BC.BcC(i)]) else Nil;
    if i.op < ADDNV then (Reg(s, BC.BcB(i)), k)
    else if i.op < ADDVV then (k, Reg(s, BC.BcB(i)))
    else (Reg(s, BC.BcB(i)), Reg(s, BC.BcC(i)))
  }

  /** Running at an instruction, or gone to a metamethod or an instruction
      outside this model. */
  datatype State = At(pc: int, s: Stack) | Away

  function LoadConst(p: Proto, i: BC.Ins): Value {
    if i.op == BC.KSTR then (if 0 <= i.d < |p.ks| then p.ks[i.d] else Nil)
    else if i.op == BC.KSHORT then Num(ShortNum(i.d))
    else if i.op == BC.KNUM then (if 0 <= i.d < |p.kn| then Num(p.kn[i.d]) else Nil)
    else PriValue(i.d)
  }

  function NilSlots(s: Stack, lo: int, hi: int): Stack {
    seq(MAX_JSLOTS, k requires 0 <= k < MAX_JSLOTS => if BASESLOT + lo <= k <= BASESLOT + hi then Nil else s[k])
  }

  function BcStep(p: Proto, w: Arith, pc: int, s: Stack): State {
    if !(0 <= pc < |p.bc|) then Away
    else
      var i := p.bc[pc];
      if IsOrder(i.op) && !(Reg(s, i.a).Num? && Reg(s, i.d).Num?) then Away
      else if IsOrder(i.op) || IsEquality(i.op) || IsBoolTest(i.op) then
        if pc + 1 >= |p.bc| then Away
        else if TestHolds(p, i, s) then At(Jump(p, pc + 1), if i.op == BC.ISTC || i.op == BC.ISFC then SetReg(s, i.a, Reg(s, i.d)) else s)
        else At(pc + 2, s)
      else if i.op == BC.MOV then At(pc + 1, SetReg(s, i.a, Reg(s, i.d)))
      else if i.op == BC.NOT then At(pc + 1, SetReg(s, i.a, if Truthy(Reg(s, i.d)) then False else True))
      else if i.op == UNM then (if Reg(s, i.d).Num? then At(pc + 1, SetReg(s, i.a, Num(w.neg(Reg(s, i.d).n)))) else Away)
      else if IsConstLoad(i.op) then At(pc + 1, SetReg(s, i.a, LoadConst(p, i)))
      else if i.op == BC.KNIL then At(pc + 1, NilSlots(s, i.a, i.d))
      else if IsArith(i.op) then
        var (x, y) := ArithOperands(p, i, s);
        if x.Num? && y.Num? then At(pc + 1, SetReg(s, i.a, Num(ArithNum(w, i.op, x.n, y.n)))) else Away
      else if i.op == BC.JMP then At(Jump(p, pc), s)
      else if i.op == BC.LOOP then At(pc + 1, s)
      else Away
  }

  /** `n` steps. */
  function BcRun(p: Proto, w: Arith, n: nat, pc: int, s: Stack): State {
    if n == 0 then At(pc, s)
    else match BcRun(p, w, n - 1, pc, s) case At(pc2, s2) => BcStep(p, w, pc2, s2) case Away => Away
  }

  lemma {:induction false} BcRunTrans(p: Proto, w: Arith, m: nat, n: nat, pc: int, s: Stack, pc2: int, s2: Stack)
    requires BcRun(p, w, m, pc, s) == At(pc2, s2)
    ensures BcRun(p, w, m + n, pc, s) == BcRun(p, w, n, pc2, s2)
  {
    hide BcStep;
    if n > 0 { BcRunTrans(p, w, m, n - 1, pc, s, pc2, s2); }
  }
}
