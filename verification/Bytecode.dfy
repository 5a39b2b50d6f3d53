/** Bytecode instructions of the compiler: opcode numbers in the order of the
    source's `BCOp` enumeration, an instruction as its decoded fields, and the
    biased jump operand. */
module Bytecode {

  // Comparisons come in pairs: an odd opcode is the negation of the even one
  // below it.
  const ISLT := 0
  const ISGE := 1
  const ISLE := 2
  const ISGT := 3
  const ISEQV := 4
  const ISNEV := 5
  const ISEQS := 6
  const ISNES := 7
  const ISEQN := 8
  const ISNEN := 9
  const ISEQP := 10
  const ISNEP := 11
  // Unary tests: ISTC/ISFC also copy the tested value.
  const ISTC := 12
  const ISFC := 13
  const IST := 14
  const ISF := 15
  // Moves, unary operators, constants, upvalue loads.
  const MOV := 18
  const NOT := 19
  const KSTR := 39
  const KSHORT := 41
  const KNUM := 42
  const KPRI := 43
  const KNIL := 44
  const UGET := 45
  const CALL := 66
  const RET0 := 75
  // Loops, jumps and function headers. A header that counts is followed by the
  // variants that do not count and that enter a trace.
  const FORI := 77
  const JFORI := 78
  const FORL := 79
  const JFORL := 81
  const ITERL := 82
  const LOOP := 85
  const JMP := 88
  const FUNCF := 96
  const JFUNCF := 98
  const FUNCV := 99

  /** Operand A meaning "no register assigned yet". */
  const NO_REG := 0xff
  /** Operand D of a jump is stored with this bias. */
  const BIAS := 0x8000
  const MAX_D := 0xffff
  /** Active locals a function may have. */
  const MAX_LOCVAR := 200
  /** Registers a function may use. */
  const MAX_SLOTS := 250

  /** One instruction. `d` is the 16-bit operand (C, with B = 0, where the
      format has three operands). */
  datatype Ins = Ins(op: int, a: int, d: int)

  /** The operands of the format with three. */
  function BcB(i: Ins): int { i.d / 256 }
  function BcC(i: Ins): int { i.d % 256 }

  /** Signed jump distance, relative to the next instruction. */
  function JumpOf(ins: Ins): int { ins.d - BIAS }

  function MakeJump(a: int, j: int): Ins { Ins(JMP, a, j + BIAS) }

  predicate IsCompare(op: int) { ISLT <= op <= ISNEP }
  predicate IsTest(op: int) { ISLT <= op <= ISF }
  predicate IsCopyTest(op: int) { op == ISTC || op == ISFC }
  predicate IsLoad(op: int) {
    op == MOV || op == NOT || op == UGET || op == KSTR || op == KSHORT || op == KNUM || op == KPRI
  }

  /** Does a jump placed after `ins` carry the value `ins` tested or loaded? */
  predicate Valued(ins: Ins) { IsCopyTest(ins.op) || ins.a == NO_REG }

  predicate IsNilLoad(ins: Ins) { (ins.op == KPRI && ins.d == 0) || ins.op == KNIL }
  predicate LowNil(ins: Ins) { ins.a < MAX_SLOTS && (ins.op == KNIL ==> ins.d < MAX_SLOTS) }
}
