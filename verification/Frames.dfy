/** Inlined call frames of the recorder: how they are laid out in the slot map,
    encoded in snapshots, and rebuilt when a side trace starts. */
module Frames {
  import opened IrBuffer
  import BC = Bytecode
  import TI = TraceIr
  import TV = TraceVm

  /** A prototype: where its code lies, its code, parameters and frame size. */
  datatype Fn = Fn(addr: int, bc: seq<BC.Ins>, numparams: int, framesize: int, vararg: bool)

  /** The address of an instruction, four bytes each. */
  function BcAddr(f: Fn, pc: int): int { f.addr + 4 * pc }

  /** The prototype of a function object. */
  type Heap = int -> Fn

  /** A slot of the recorder: a reference, and whether it is a frame link. */
  datatype Cell = Cell(tr: TRef, frame: bool)
  const EMPTY := Cell(None, false)

  datatype FrameInfo = FrameInfo(pt: Fn, callee: Fn, cbase: int, want: int, prev_baseslot: int)

  datatype Error = NYIBC | CUNROLL | LUNROLL | STACKOV | NYIRETL | GFAIL

  /** Recording goes on, stops at a compiled callee, or fails. */
  datatype Outcome = Ok | Stop(link: int) | Fail(e: Error)

  /** Call instructions name registers of their frame: the callee, its two frame
      slots, the arguments and the results. */
  predicate WfFn(f: Fn) {
    && 0 <= f.numparams <= f.framesize && f.bc != []
    && forall pc {:trigger f.bc[pc]} :: 0 <= pc < |f.bc| && f.bc[pc].op == BC.CALL ==>
         var i := f.bc[pc]; pc + 1 < |f.bc| && 0 <= i.a && 0 <= i.d && 1 <= BC.BcC(i) && i.a + 2 <= f.framesize && i.a + BC.BcC(i) + 1 <= f.framesize && i.a + BC.BcB(i) - 1 <= f.framesize
  }

  // -- The frame stack ------------------------------------------------------------

  /** Base slot of frame `i`; the last is the current one. */
  function Base(fr: seq<FrameInfo>, baseslot: int, i: int): int
    requires 0 <= i <= |fr|
  { if i < |fr| then fr[i].prev_baseslot else baseslot }

  function FnOf(fr: seq<FrameInfo>, pt: Fn, i: int): Fn
    requires 0 <= i <= |fr|
  { if i < |fr| then fr[i].pt else pt }

  /** Frame `i` called frame `i + 1` from an instruction of its function. */
  predicate FrameAt(fr: seq<FrameInfo>, pt: Fn, baseslot: int, i: int)
    requires 0 <= i < |fr|
  {
    && WfFn(fr[i].pt) && 0 <= fr[i].cbase && 0 <= fr[i].want
    && FnOf(fr, pt, i + 1) == fr[i].callee
    && Base(fr, baseslot, i + 1) == fr[i].prev_baseslot + fr[i].cbase + 2
  }

  predicate ConstAt(k: seq<KIns>, r: int) { 0 <= REF_NIL - r < |k| }

  /** The slots below frame `i + 1`: the callee as a constant, and a link that
      leads back behind the call. */
  ghost predicate LinkAt(heap: Heap, fr: seq<FrameInfo>, baseslot: int, slot: seq<Cell>, k: seq<KIns>, i: int)
    requires 0 <= i < |fr|
  {
    var b := Base(fr, baseslot, i + 1);
    && 3 < b <= |slot|
    && slot[b - 2].tr.Ref? && !slot[b - 2].frame && ConstAt(k, slot[b - 2].tr.ref) && IsFn(heap, k[REF_NIL - slot[b - 2].tr.ref], fr[i].callee)
    && slot[b - 1].tr.Ref? && slot[b - 1].frame && ConstAt(k, slot[b - 1].tr.ref) && LeadsBack(fr[i], k[REF_NIL - slot[b - 1].tr.ref])
  }

  predicate IsFn(heap: Heap, c: KIns, f: Fn) {
    c.op == KGC && c.val.KObject? && c.val.v.Gc? && c.val.v.t == IRT_FUNC && heap(c.val.v.id) == f
  }

  ghost predicate LeadsBack(fi: FrameInfo, c: KIns) {
    c.op == KINT64 && c.val.KInteger? && exists pc :: CallsFrom(fi, pc) && c.val.i == BcAddr(fi.pt, pc + 1)
  }

  predicate CallsFrom(fi: FrameInfo, pc: int) {
    0 <= pc && pc + 1 < |fi.pt.bc| && fi.pt.bc[pc].op == BC.CALL && fi.pt.bc[pc].a == fi.cbase && BC.BcB(fi.pt.bc[pc]) == fi.want + 1
  }

  /** The pending frames, as data and as slots: the link slots are exactly the
      flagged ones. */
  ghost predicate FramesOk(heap: Heap, start: Fn, fr: seq<FrameInfo>, pt: Fn, baseslot: int, slot: seq<Cell>, k: seq<KIns>) {
    && |slot| == MAX_JSLOTS && FnOf(fr, pt, 0) == start && Base(fr, baseslot, 0) == 2 && WfFn(pt) && 2 <= baseslot
    && (forall i {:trigger FrameAt(fr, pt, baseslot, i)} :: 0 <= i < |fr| ==> FrameAt(fr, pt, baseslot, i))
    && (forall i {:trigger LinkAt(heap, fr, baseslot, slot, k, i)} :: 0 <= i < |fr| ==> LinkAt(heap, fr, baseslot, slot, k, i))
    && forall s {:trigger slot[s]} :: 0 <= s < MAX_JSLOTS && slot[s].frame ==> exists i {:trigger Base(fr, baseslot, i + 1)} :: 0 <= i < |fr| && s == Base(fr, baseslot, i + 1) - 1
  }

  /** Constants a side trace can take over. */
  predicate Replayable(op: int) { op == KPRI || op == KINT || op == KGC || op == KNUM || op == KINT64 }

  /** A constant with the payload its opcode asks for. */
  predicate KindOk(c: KIns) {
    && (c.op == KPRI ==> 0 <= c.t < 3 && c.val == KPri) && (c.op == KINT || c.op == KINT64 ==> c.val.KInteger?)
    && (c.op == KGC ==> c.val.KObject?) && (c.op == KNUM ==> c.val.KNumber?)
  }

  /** A slot refers to an instruction or to a constant, if to anything. */
  predicate CellOk(c: Cell, n: int, k: seq<KIns>) {
    c.tr.Ref? ==> 0 <= c.tr.ref - REF_BIAS < n || (ConstAt(k, c.tr.ref) && Replayable(k[REF_NIL - c.tr.ref].op) && KindOk(k[REF_NIL - c.tr.ref]))
  }

  predicate CellsOk(slot: seq<Cell>, n: int, k: seq<KIns>) {
    forall s {:trigger slot[s]} :: 0 <= s < |slot| ==> CellOk(slot[s], n, k)
  }

  lemma CellsGrow(slot: seq<Cell>, n: int, k: seq<KIns>, n2: int, k2: seq<KIns>)
    requires CellsOk(slot, n, k) && n <= n2 && Grows(k, k2)
    ensures CellsOk(slot, n2, k2)
  {
    forall s | 0 <= s < |slot| ensures CellOk(slot[s], n2, k2) {
      if slot[s].tr.Ref? && ConstAt(k, slot[s].tr.ref) { ConstKept(k, k2, slot[s].tr.ref); }
    }
  }

  /** Bases grow from frame to frame. */
  lemma {:induction false} BasesUp(fr: seq<FrameInfo>, pt: Fn, baseslot: int, i: int, j: int)
    requires 0 <= i <= j <= |fr| && forall n {:trigger FrameAt(fr, pt, baseslot, n)} :: 0 <= n < |fr| ==> FrameAt(fr, pt, baseslot, n)
    ensures Base(fr, baseslot, i) + 2 * (j - i) <= Base(fr, baseslot, j)
    decreases j - i
  {
    if i < j {
      assert FrameAt(fr, pt, baseslot, i);
      BasesUp(fr, pt, baseslot, i + 1, j);
    }
  }

  // -- What a call loads and checks --------------------------------------------------

  /** The reference `tr` of slot `at`: the one it had, or a load of type `t`. */
  predicate Fetched(ir: seq<IRIns>, was: TRef, at: int, t: int, tr: TRef) {
    if was.Ref? then tr == was
    else if t <= IRT_TRUE then tr == PriRef(t)
    else tr.Ref? && tr.t == t && 0 <= tr.ref - REF_BIAS < |ir| && LoadOf(ir[tr.ref - REF_BIAS], at, t)
  }

  predicate LoadOf(i: IRIns, at: int, t: int) { i.op == SLOAD && i.op1 == at && i.t == t && i.guard }

  /** A guard that reference `ftr` is the function `fv`. */
  predicate Checks(i: IRIns, k: seq<KIns>, ftr: TRef, fv: Value) {
    i.guard && i.op == EQ && i.t == IRT_FUNC && ftr.Ref? && i.op1 == ftr.ref && ConstAt(k, i.op2) && k[REF_NIL - i.op2].op == KGC && k[REF_NIL - i.op2].val == KObject(fv)
  }

  /** There is one from position `from` on, unless the reference is a constant. */
  ghost predicate Checked(ir: seq<IRIns>, k: seq<KIns>, from: int, ftr: TRef, fv: Value) {
    ftr.Ref? && 0 <= from && (ftr.ref >= REF_BIAS ==> exists g {:trigger ir[g]} :: from <= g < |ir| && Checks(ir[g], k, ftr, fv))
  }

  lemma CheckedMore(ir: seq<IRIns>, k: seq<KIns>, ir2: seq<IRIns>, k2: seq<KIns>, from: int, ftr: TRef, fv: Value)
    requires Checked(ir, k, from, ftr, fv) && ir <= ir2 && Grows(k, k2)
    ensures Checked(ir2, k2, from, ftr, fv)
  {
    if ftr.ref >= REF_BIAS {
      var g :| from <= g < |ir| && Checks(ir[g], k, ftr, fv);
      ConstKept(k, k2, ir[g].op2);
      assert ir2[g] == ir[g];
    }
  }

  /** Every run that passes the guards has the function in the called register. */
  lemma CalleeIs(ir: seq<IRIns>, k: seq<KIns>, from: int, ftr: TRef, fv: Value, w: TV.Arith, s: TV.Stack)
    requires Checked(ir, k, from, ftr, fv) && REF_BIAS <= ftr.ref < REF_BIAS + from && TI.Passes(ir, k, w, s, |ir|)
    ensures TI.ReadRef(k, TI.Env(ir, k, w, s, |ir|), ftr.ref) == fv
  {
    var g :| from <= g < |ir| && Checks(ir[g], k, ftr, fv);
    TI.PassesLess(ir, k, w, s, g + 1, |ir|);
    TI.EnvPrefix(ir, k, w, s, g, |ir|);
    assert TI.GuardAt(ir, k, w, s, g);
  }

  /** The two slots below a frame: the function as a constant, and the address to
      return to. */
  predicate CallLaid(now: seq<Cell>, b: int, k: seq<KIns>, fv: Value, addr: int) {
    && 0 <= b && b + 1 < |now| && !now[b].frame && HoldsFn(now[b].tr, k, fv)
    && now[b + 1].frame && now[b + 1].tr.Ref? && ConstAt(k, now[b + 1].tr.ref) && k[REF_NIL - now[b + 1].tr.ref].op == KINT64 && k[REF_NIL - now[b + 1].tr.ref].val == KInteger(addr)
  }

  lemma LaidKept(s1: seq<Cell>, s2: seq<Cell>, b: int, k: seq<KIns>, fv: Value, addr: int)
    requires CallLaid(s1, b, k, fv, addr) && |s2| == |s1| && s2[b] == s1[b] && s2[b + 1] == s1[b + 1]
    ensures CallLaid(s2, b, k, fv, addr)
  {
  }

  predicate HoldsFn(tr: TRef, k: seq<KIns>, fv: Value) { tr.Ref? && ConstAt(k, tr.ref) && k[REF_NIL - tr.ref].op == KGC && k[REF_NIL - tr.ref].val == KObject(fv) }

  /** Slot `n` of a frame just entered: an argument, nil, or nothing. */
  predicate ArgAt(was: seq<Cell>, c: Cell, n: int, from: int, nargs: int, f: Fn, ir: seq<IRIns>, rt: int -> int) {
    if n >= f.numparams then c == EMPTY
    else if n >= nargs then c == Cell(PriRef(IRT_NIL), false)
    else 0 <= from + n < |was| && !c.frame && Fetched(ir, was[from + n].tr, from + n, rt(from + n), c.tr)
  }

  /** A frame at `base` just entered, with the arguments that were from `from` on. */
  ghost predicate Entered(was: seq<Cell>, now: seq<Cell>, base: int, from: int, nargs: int, f: Fn, ir: seq<IRIns>, rt: int -> int) {
    && |now| == |was| && (forall j {:trigger now[j]} :: 0 <= j < base - 2 && j < |was| ==> now[j] == was[j])
    && forall j {:trigger now[j]} :: 0 <= base <= j < base + f.framesize && j < |now| ==> ArgAt(was, now[j], j - base, from, nargs, f, ir, rt)
  }

  /** Slot `n` of a frame after the setup of a function: missing parameters are
      nil, registers behind the parameters empty. */
  function Prepared(c: Cell, n: int, nargs: int, f: Fn): Cell {
    if f.numparams <= n < f.framesize then EMPTY else if nargs <= n < f.numparams then Cell(PriRef(IRT_NIL), false) else c
  }

  /** The cells of arguments, once loaded. */
  ghost predicate ArgsIn(was: seq<Cell>, now: seq<Cell>, base: int, n: int, ir: seq<IRIns>, rt: int -> int) {
    && |now| == |was| && 0 <= base && base + n <= |was|
    && forall j {:trigger now[j]} :: base <= j < base + n ==> !now[j].frame && Fetched(ir, was[j].tr, j, rt(j), now[j].tr)
  }

  /** How many pending frames run `f`. */
  function Pending(fr: seq<FrameInfo>, f: Fn): (n: nat) {
    if fr == [] then 0 else Pending(fr[..|fr| - 1], f) + if fr[|fr| - 1].callee.addr == f.addr then 1 else 0
  }

  class FrameRecorder {
    const heap: Heap
    const ir: IrBuf
    /** The function the trace started in, whether it is a root trace, and
        whether it starts at a function head. */
    const startpt: Fn
    const root: bool
    const fromhead: bool
    const callunroll: int
    const recunroll: int
    const loopunroll: int
    const slot: array<Cell>
    var baseslot: int
    var maxslot: int
    var pt: Fn
    var frames: seq<FrameInfo>
    var framedepth: int
    var tailcalled: int
    var pc: int

    ghost predicate Valid()
      reads this, ir, slot
    {
      && ir.Valid() && slot.Length == MAX_JSLOTS && FramesOk(heap, startpt, frames, pt, baseslot, slot[..], ir.k)
      && CellsOk(slot[..], |ir.ins|, ir.k)
      && framedepth == |frames| && 0 <= maxslot <= pt.framesize && baseslot + pt.framesize <= MAX_JSLOTS
      && (forall i {:trigger frames[i]} :: 0 <= i < |frames| ==> frames[i].prev_baseslot + frames[i].pt.framesize <= MAX_JSLOTS)
    }

    ghost predicate Room(n: int)
      reads this, ir
    {
      |ir.ins| + n <= 0x7fff && |ir.k| + n <= 0x7fff
    }

    /** A trace that starts in `fn`, without inlined frames. */
    constructor (h: Heap, fn: Fn, isroot: bool, head: bool, cu: int, ru: int, lu: int)
      requires WfFn(fn) && 1 + fn.framesize < MAX_JSLOTS
      ensures Valid() && frames == [] && pt == startpt == fn && baseslot == 2 && heap == h && fresh(ir) && fresh(slot)
      ensures framedepth == 0 && |ir.k| == 3 && |ir.ins| == 1 && slot.Length == MAX_JSLOTS && forall s :: 0 <= s < MAX_JSLOTS ==> slot[s] == EMPTY
    {
      heap, startpt, root, fromhead, callunroll, recunroll, loopunroll := h, fn, isroot, head, cu, ru, lu;
      ir := new IrBuf();
      slot := new Cell[MAX_JSLOTS](_ => EMPTY);
      baseslot, maxslot, pt, frames, framedepth, tailcalled, pc := 2, 0, fn, [], 0, 0, 0;
    }

    lemma PriOk(t: int)
      requires ir.Valid() && 0 <= t < 3
      ensures CellOk(Cell(PriRef(t), false), |ir.ins|, ir.k)
    {
    }

    /** What stack slot `at` holds, loaded with type `t` if the trace has not used
        it yet; it lies in the innermost of the frames `fr`. */
    method LoadSlot(at: int, t: int, ghost fr: seq<FrameInfo>, ghost fn: Fn, ghost base: int) returns (tr: TRef)
      requires ir.Valid() && slot.Length == MAX_JSLOTS && FramesOk(heap, startpt, fr, fn, base, slot[..], ir.k)
      requires Room(1) && base <= at < MAX_JSLOTS && 0 <= t < IRT_INT && CellsOk(slot[..], |ir.ins|, ir.k)
      modifies ir, slot
      ensures CellsOk(slot[..], |ir.ins|, ir.k) && |old(ir.ins)| <= |ir.ins|
      ensures ir.Valid() && FramesOk(heap, startpt, fr, fn, base, slot[..], ir.k)
      ensures tr.Ref? && slot[..] == old(slot[..])[at := Cell(tr, false)] && ir.k == old(ir.k) && |ir.ins| <= |old(ir.ins)| + 1
      ensures old(ir.ins) <= ir.ins && Fetched(ir.ins, old(slot[at]).tr, at, t, tr)
    {
      hide FramesOk;
      BaseFacts(heap, startpt, fr, fn, base, slot[..], ir.k);
      NoLink(heap, startpt, fr, fn, base, slot[..], ir.k, at);
      tr := slot[at].tr;
      assert CellOk(slot[..][at], |ir.ins|, ir.k);
      if tr.None? {
        tr := ir.EmitIns(Fresh(SLOAD, t, true, at, MODE_TYPECHECK));
        if t <= IRT_TRUE {
          tr := PriRef(t);
        }
      }
      ghost var was := slot[..];
      slot[at] := Cell(tr, false);
      Stored(heap, startpt, fr, fn, base, was, slot[..], ir.k, at);
    }

    /** Stores `tr` to register `a`. */
    method SetBase(a: int, tr: TRef)
      requires Valid() && 0 <= a < pt.framesize && tr.Ref? && CellOk(Cell(tr, false), |ir.ins|, ir.k)
      modifies this`maxslot, slot
      ensures Valid() && slot[..] == old(slot[..])[baseslot + a := Cell(tr, false)] && maxslot == if old(maxslot) <= a then a + 1 else old(maxslot)
    {
      hide FramesOk, IrBuf.Valid;
      BaseFacts(heap, startpt, frames, pt, baseslot, slot[..], ir.k);
      ghost var was := slot[..];
      slot[baseslot + a] := Cell(tr, false);
      if maxslot <= a {
        maxslot := a + 1;
      }
      Stored(heap, startpt, frames, pt, baseslot, was, slot[..], ir.k, baseslot);
    }

    /** Records an instruction whose result goes to register `a`. */
    method Result(a: int, fins: IRIns)
      requires Valid() && Room(1) && 0 <= a < pt.framesize && 0 <= fins.op < IR_MAX && !IsConstOp(fins.op) && fins.op != BASE
      modifies this`maxslot, slot, ir
      ensures Valid() && frames == old(frames) && slot[..] == old(slot[..])[baseslot + a := Cell(Ref(REF_BIAS + |old(ir.ins)|, fins.t), false)]
    {
      hide FramesOk, IrBuf.Valid;
      var tr := ir.EmitIns(fins);
      CellsGrow(slot[..], |old(ir.ins)|, ir.k, |ir.ins|, ir.k);
      SetBase(a, tr);
    }

    /** Loads a number into register `a`. */
    method Constant(a: int, n: Number)
      requires Valid() && Room(1) && 0 <= a < pt.framesize
      modifies this`maxslot, slot, ir
      ensures Valid() && frames == old(frames)
    {
      hide FramesOk, IrBuf.Valid;
      ghost var k0 := ir.k;
      var tr := ir.KNum(n);
      assert Grows(k0, ir.k);
      KGrown(heap, startpt, frames, pt, baseslot, slot[..], k0, ir.k);
      CellsGrow(slot[..], |ir.ins|, k0, |ir.ins|, ir.k);
      SetBase(a, tr);
    }

    /** How many pending frames run `f`. */
    method SameFrames(f: Fn) returns (n: int)
      ensures n == Pending(frames, f)
    {
      assert frames[..0] == [];
      n := 0;
      var i := 0;
      while i < |frames|
        invariant 0 <= i <= |frames| && n == Pending(frames[..i], f)
      {
        assert frames[..i + 1][..i] == frames[..i];
        if frames[i].callee.addr == f.addr {
          n := n + 1;
        }
        i := i + 1;
      }
      assert frames[..i] == frames;
    }

    /** Guards the identity of the callee. */
    method SpecializeCallee(ftr: TRef, fv: Value) returns (kf: TRef)
      requires Valid() && Room(3) && ftr.Ref? && fv.Gc? && fv.t == IRT_FUNC
      modifies ir
      ensures Valid() && Grows(old(ir.k), ir.k)
      ensures ir.Valid() && FramesOk(heap, startpt, frames, pt, baseslot, slot[..], ir.k) && |ir.ins| <= |old(ir.ins)| + 1 && |ir.k| <= |old(ir.k)| + 1
      ensures CellsOk(slot[..], |ir.ins|, ir.k)
      ensures old(ir.ins) <= ir.ins && Checked(ir.ins, ir.k, |old(ir.ins)|, ftr, fv)
      ensures HoldsFn(kf, ir.k, fv)
      ensures kf.Ref? && ConstAt(ir.k, kf.ref) && IsFn(heap, ir.k[REF_NIL - kf.ref], heap(fv.id))
    {
      hide FramesOk, LeadsBack, IrBuf.Valid;
      ghost var k0 := ir.k;
      kf := ir.KGc(fv, IRT_FUNC);
      if !(ftr.ref < REF_BIAS) {
        var _ := ir.EmitIns(Fresh(EQ, IRT_FUNC, true, ftr.ref, kf.ref));
        assert Checks(ir.ins[|ir.ins| - 1], ir.k, ftr, fv);
      }
      KGrown(heap, startpt, frames, pt, baseslot, slot[..], k0, ir.k);
      CellsGrow(slot[..], |old(ir.ins)|, k0, |ir.ins|, ir.k);
    }

    /** Specializes the callee slot, and writes the return address above it. */
    method LayFrame(a: int, fv: Value, pc0: int, ghost fi: FrameInfo)
      requires Valid() && Room(3) && 0 <= a && baseslot + a + 2 < MAX_JSLOTS && slot[baseslot + a].tr.Ref?
      requires fv.Gc? && fv.t == IRT_FUNC && WfFn(heap(fv.id))
      requires fi.pt == pt && fi.callee == heap(fv.id) && fi.cbase == a && fi.prev_baseslot == baseslot && fi.want >= 0 && CallsFrom(fi, pc0)
      modifies ir, slot
      ensures ir.Valid() && FramesOk(heap, startpt, frames + [fi], heap(fv.id), baseslot + a + 2, slot[..], ir.k)
      ensures |ir.ins| <= |old(ir.ins)| + 1 && |ir.k| <= |old(ir.k)| + 2 && CellsOk(slot[..], |ir.ins|, ir.k)
      ensures forall s {:trigger slot[s]} :: 0 <= s < MAX_JSLOTS && !(baseslot + a <= s < baseslot + a + 2) ==> slot[s] == old(slot[s])
      ensures CallLaid(slot[..], baseslot + a, ir.k, fv, BcAddr(pt, pc0 + 1))
      ensures old(ir.ins) <= ir.ins && Checked(ir.ins, ir.k, |old(ir.ins)|, old(slot[baseslot + a]).tr, fv)
    {
      hide FramesOk, LeadsBack, IrBuf.Valid;
      BaseFacts(heap, startpt, frames, pt, baseslot, slot[..], ir.k);
      ghost var was := slot[..];
      var kf := SpecializeCallee(slot[baseslot + a].tr, fv);
      ghost var k1 := ir.k;
      slot[baseslot + a] := Cell(kf, false);
      var lk := ir.KInt64(BcAddr(pt, pc0 + 1));
      slot[baseslot + a + 1] := Cell(lk, true);
      KGrown(heap, startpt, frames, pt, baseslot, was, k1, ir.k);
      ConstKept(k1, ir.k, kf.ref);
      CheckedMore(ir.ins, k1, ir.ins, ir.k, |old(ir.ins)|, was[baseslot + a].tr, fv);
      CellsGrow(was, |ir.ins|, k1, |ir.ins|, ir.k);
      PushedFrame(heap, startpt, frames, pt, baseslot, was, slot[..], ir.k, fi, pc0);
    }

    /** Pads missing parameters with nil and clears the rest of the frame. */
    method SetupFrame(nargs: int, ghost fr: seq<FrameInfo>)
      requires slot.Length == MAX_JSLOTS && FramesOk(heap, startpt, fr, pt, baseslot, slot[..], ir.k) && 0 <= nargs && baseslot + pt.framesize <= MAX_JSLOTS
      requires ir.Valid() && 0 <= pt.numparams <= pt.framesize && CellsOk(slot[..], |ir.ins|, ir.k)
      modifies slot
      ensures ir.Valid() && FramesOk(heap, startpt, fr, pt, baseslot, slot[..], ir.k) && CellsOk(slot[..], |ir.ins|, ir.k)
      ensures forall j {:trigger slot[j]} :: 0 <= j < MAX_JSLOTS ==> slot[j] == Prepared(old(slot[j]), j - baseslot, nargs, pt)
    {
      hide LinkAt, FrameAt, IrBuf.Valid, FramesOk;
      BaseFacts(heap, startpt, fr, pt, baseslot, slot[..], ir.k);
      ghost var was := slot[..];
      PriOk(IRT_NIL);
      var s := nargs;
      while s < pt.numparams
        invariant nargs <= s && (s <= pt.numparams || s == nargs) && CellsOk(slot[..], |ir.ins|, ir.k)
        invariant forall j {:trigger slot[j]} :: 0 <= j < MAX_JSLOTS ==> slot[j] == if baseslot + nargs <= j < baseslot + s then Cell(PriRef(IRT_NIL), false) else was[j]
      {
        slot[baseslot + s] := Cell(PriRef(IRT_NIL), false);
        s := s + 1;
      }
      Clear(baseslot + pt.numparams, baseslot + pt.framesize);
      Stored(heap, startpt, fr, pt, baseslot, was, slot[..], ir.k, baseslot);
    }

    /** Loads the arguments of a call whose frame is at `newbase`. */
    method LoadArgs(newbase: int, nargs: int, rt: int -> int, ghost fr: seq<FrameInfo>, ghost cpt: Fn)
      requires ir.Valid() && slot.Length == MAX_JSLOTS && FramesOk(heap, startpt, fr, cpt, newbase, slot[..], ir.k) && CellsOk(slot[..], |ir.ins|, ir.k)
      requires 0 <= nargs <= 260 && Room(nargs) && 0 <= newbase && newbase + nargs <= MAX_JSLOTS && forall s :: 0 <= rt(s) < IRT_INT
      modifies ir, slot
      ensures ir.Valid() && FramesOk(heap, startpt, fr, cpt, newbase, slot[..], ir.k) && CellsOk(slot[..], |ir.ins|, ir.k)
      ensures old(ir.ins) <= ir.ins && ir.k == old(ir.k) && |ir.ins| <= |old(ir.ins)| + nargs && ArgsIn(old(slot[..]), slot[..], newbase, nargs, ir.ins, rt)
      ensures forall j {:trigger slot[j]} :: 0 <= j < MAX_JSLOTS && !(newbase <= j < newbase + nargs) ==> slot[j] == old(slot[j])
    {
      hide LinkAt, LeadsBack, IrBuf.Valid, FramesOk, Fetched, CellOk;
      ghost var was := slot[..];
      var n := 0;
      while n < nargs
        invariant 0 <= n <= nargs && ir.Valid() && FramesOk(heap, startpt, fr, cpt, newbase, slot[..], ir.k) && CellsOk(slot[..], |ir.ins|, ir.k)
        invariant old(ir.ins) <= ir.ins && ir.k == old(ir.k) && |ir.ins| <= |old(ir.ins)| + n && ArgsIn(was, slot[..], newbase, n, ir.ins, rt)
        invariant forall j {:trigger slot[j]} :: 0 <= j < MAX_JSLOTS && !(newbase <= j < newbase + n) ==> slot[j] == was[j]
      {
        ghost var s0, i0 := slot[..], ir.ins;
        var _ := LoadSlot(newbase + n, rt(newbase + n), fr, cpt, newbase);
        ArgMore(was, s0, slot[..], newbase, n, i0, ir.ins, rt);
        n := n + 1;
      }
    }

    /** Lays the frame of the callee, loads its arguments and enters it. */
    method EnterFrame(pc0: int, fv: Value, rt: int -> int)
      requires Valid() && Room(290) && 0 <= pc0 < |pt.bc| && pt.bc[pc0].op == BC.CALL && BC.BcB(pt.bc[pc0]) >= 1 && fv.Gc? && fv.t == IRT_FUNC
      requires WfFn(heap(fv.id)) && (forall s :: 0 <= rt(s) < IRT_INT) && slot[baseslot + pt.bc[pc0].a].tr.Ref?
      requires 3 + baseslot + pt.bc[pc0].a + heap(fv.id).framesize < MAX_JSLOTS
      modifies this`frames, this`framedepth, this`baseslot, this`pt, this`maxslot, ir, slot
      ensures Valid() && pt == heap(fv.id) && baseslot == old(baseslot + pt.bc[pc0].a) + 2 && maxslot == pt.numparams
      ensures var b, i := old(baseslot + pt.bc[pc0].a), old(pt.bc[pc0]);
        Checked(ir.ins, ir.k, |old(ir.ins)|, old(slot[b]).tr, fv) && Entered(old(slot[..]), slot[..], b + 2, b + 2, BC.BcC(i) - 1, heap(fv.id), ir.ins, rt)
      ensures old(ir.ins) <= ir.ins && CallLaid(slot[..], old(baseslot + pt.bc[pc0].a), ir.k, fv, BcAddr(old(pt), pc0 + 1))
      ensures frames == old(frames) + [FrameInfo(old(pt), heap(fv.id), old(pt.bc[pc0].a), BC.BcB(old(pt.bc[pc0])) - 1, old(baseslot))]
    {
      hide LinkAt, LeadsBack, IrBuf.Valid, FramesOk, Fetched, Checked, Entered, CellOk, ArgsIn, CallLaid;
      BaseFacts(heap, startpt, frames, pt, baseslot, slot[..], ir.k);
      var i := pt.bc[pc0];
      var a, want, nargs := i.a, BC.BcB(i) - 1, BC.BcC(i) - 1;
      var cpt, newbase := heap(fv.id), baseslot + a + 2;
      ghost var fi := FrameInfo(pt, cpt, a, want, baseslot);
      ghost var ftr, was := slot[baseslot + a].tr, slot[..];
      LayFrame(a, fv, pc0, fi);
      ghost var laid, ins0, k0 := slot[..], ir.ins, ir.k;
      LoadArgs(newbase, nargs, rt, frames + [fi], cpt);
      frames := frames + [FrameInfo(pt, cpt, a, want, baseslot)];
      framedepth := framedepth + 1;
      baseslot := newbase;
      pt := cpt;
      ghost var args := slot[..];
      SetupFrame(nargs, frames);
      LaidKept(laid, slot[..], newbase - 2, ir.k, fv, BcAddr(old(pt), pc0 + 1));
      CheckedMore(ins0, k0, ir.ins, ir.k, |old(ir.ins)|, ftr, fv);
      FrameEntered(was, laid, args, slot[..], newbase, nargs, cpt, ir.ins, rt);
      maxslot := cpt.numparams;
    }

    /** What a call comes to. */
    ghost function CallOutcome(i: BC.Ins, cpt: Fn): Outcome
      reads this
    {
      var uprec := root && fromhead && cpt.addr == startpt.addr && Pending(frames, cpt) >= recunroll;
      var stoproot := !uprec && cpt.bc != [] && cpt.bc[0].op == BC.JFUNCF;
      if BC.BcB(i) < 1 || cpt.vararg then Fail(NYIBC)
      else if !uprec && !stoproot && Pending(frames, cpt) >= callunroll then Fail(CUNROLL)
      else if 3 + baseslot + i.a + cpt.framesize >= MAX_JSLOTS then Fail(STACKOV)
      else if uprec then Fail(GFAIL)
      else if stoproot then Stop(cpt.bc[0].d)
      else Ok
    }

    /** What a tail call comes to. */
    ghost function TailOutcome(cpt: Fn): Outcome
      reads this
    {
      var tailrec := framedepth == 0 && root && fromhead && cpt.addr == startpt.addr;
      if cpt.vararg || (framedepth == 0 && !tailrec) then Fail(NYIBC)
      else if tailcalled + 1 > loopunroll then Fail(LUNROLL)
      else if 1 + baseslot + cpt.framesize >= MAX_JSLOTS then Fail(STACKOV)
      else if tailrec then Fail(GFAIL)
      else Ok
    }

    /** Inlines the `CALL` at `pc0` of the function value `fv`; `rt` gives the
        runtime types of the stack slots. */
    method RecCall(pc0: int, fv: Value, rt: int -> int) returns (st: Outcome, ghost ftr: TRef)
      requires Valid() && Room(300) && 0 <= pc0 < |pt.bc| && pt.bc[pc0].op == BC.CALL && fv.Gc? && fv.t == IRT_FUNC
      requires WfFn(heap(fv.id)) && forall s :: 0 <= rt(s) < IRT_INT
      modifies this, ir, slot
      ensures !st.Fail? ==> Valid() && pt == heap(fv.id) && baseslot == old(baseslot + pt.bc[pc0].a) + 2 && maxslot == pt.numparams
      ensures st == old(CallOutcome(pt.bc[pc0], heap(fv.id)))
      ensures !st.Fail? ==> var b, i := old(baseslot + pt.bc[pc0].a), old(pt.bc[pc0]);
        && Fetched(ir.ins, old(slot[b]).tr, b, rt(b), ftr) && Checked(ir.ins, ir.k, |old(ir.ins)|, ftr, fv)
        && CallLaid(slot[..], b, ir.k, fv, BcAddr(old(pt), pc0 + 1))
        && Entered(old(slot[..]), slot[..], b + 2, b + 2, BC.BcC(i) - 1, heap(fv.id), ir.ins, rt)
      ensures !st.Fail? ==> frames == old(frames) + [FrameInfo(old(pt), heap(fv.id), old(pt.bc[pc0].a), BC.BcB(old(pt.bc[pc0])) - 1, old(baseslot))]
    {
      hide LinkAt, LeadsBack, IrBuf.Valid, FramesOk, Fetched, Checked, Entered, CellOk, Pending;
      BaseFacts(heap, startpt, frames, pt, baseslot, slot[..], ir.k);
      var i := pt.bc[pc0];
      ghost var was := slot[..];
      var tr := LoadSlot(baseslot + i.a, rt(baseslot + i.a), frames, pt, baseslot);
      ftr := tr;
      ghost var loaded, ins1 := slot[..], ir.ins;
      if BC.BcB(i) - 1 < 0 {
        return Fail(NYIBC), ftr;
      }
      var cpt := heap(fv.id);
      if cpt.vararg {
        return Fail(NYIBC), ftr;
      }
      var same := SameFrames(cpt);
      var uprec := root && fromhead && cpt.addr == startpt.addr && same >= recunroll;
      var stoproot := !uprec && cpt.bc[0].op == BC.JFUNCF;
      if !uprec && !stoproot && same >= callunroll {
        return Fail(CUNROLL), ftr;
      }
      if 1 + (baseslot + i.a + 2) + cpt.framesize >= MAX_JSLOTS {
        return Fail(STACKOV), ftr;
      }
      ghost var b, nargs := baseslot + i.a, BC.BcC(i) - 1;
      EnterFrame(pc0, fv, rt);
      FetchedMore(ins1, ir.ins, was[b].tr, b, rt(b), ftr);
      CheckedFrom(ir.ins, ir.k, |ins1|, |old(ir.ins)|, ftr, fv);
      EnteredFrom(was, loaded, slot[..], b, nargs, cpt, ir.ins, rt);
      if uprec || stoproot {
        pc := 1;
        if uprec {
          return Fail(GFAIL), ftr;
        }
        return Stop(cpt.bc[0].d), ftr;
      }
      st := Ok;
    }

    /** Loads `n` registers of the current frame from `a` on. */
    method Loads(a: int, n: int, rt: int -> int) returns (res: seq<TRef>)
      requires Valid() && 0 <= a && 0 <= n <= 260 && baseslot + a + n <= MAX_JSLOTS && Room(n) && forall s :: 0 <= rt(s) < IRT_INT
      modifies ir, slot
      ensures Valid() && |res| == n && ir.k == old(ir.k) && |ir.ins| <= |old(ir.ins)| + n
      ensures forall i {:trigger res[i]} :: 0 <= i < n ==> res[i].Ref? && res[i] == slot[baseslot + a + i].tr && CellOk(Cell(res[i], false), |ir.ins|, ir.k)
      ensures old(ir.ins) <= ir.ins && Loaded(ir.ins, old(slot[..]), baseslot + a, res, rt) && forall j {:trigger slot[j]} :: 0 <= j < MAX_JSLOTS && !(baseslot + a <= j < baseslot + a + n) ==> slot[j] == old(slot[j])
    {
      hide LinkAt, LeadsBack, IrBuf.Valid, FramesOk, Fetched;
      BaseFacts(heap, startpt, frames, pt, baseslot, slot[..], ir.k);
      res := [];
      var i := 0;
      while i < n
        invariant 0 <= i <= n && Valid() && |res| == i && ir.k == old(ir.k) && |ir.ins| <= |old(ir.ins)| + i
        invariant forall j :: 0 <= j < i ==> res[j].Ref? && res[j] == slot[baseslot + a + j].tr
        invariant old(ir.ins) <= ir.ins && Loaded(ir.ins, old(slot[..]), baseslot + a, res, rt) && forall j {:trigger slot[j]} :: 0 <= j < MAX_JSLOTS && !(baseslot + a <= j < baseslot + a + i) ==> slot[j] == old(slot[j])
      {
        ghost var i0, r0 := ir.ins, res;
        var tr := LoadSlot(baseslot + a + i, rt(baseslot + a + i), frames, pt, baseslot);
        res := res + [tr];
        LoadedMore(i0, ir.ins, old(slot[..]), baseslot + a, r0, tr, rt);
        i := i + 1;
      }
    }

    /** Stores `want` values from slot `lo` on, padded with nil. */
    method Fill(lo: int, want: int, vals: seq<TRef>)
      requires ir.Valid() && slot.Length == MAX_JSLOTS && CellsOk(slot[..], |ir.ins|, ir.k) && 0 <= lo && 0 <= want && lo + want <= MAX_JSLOTS
      requires forall i {:trigger vals[i]} :: 0 <= i < |vals| ==> CellOk(Cell(vals[i], false), |ir.ins|, ir.k)
      modifies slot
      ensures CellsOk(slot[..], |ir.ins|, ir.k)
      ensures forall j {:trigger slot[j]} :: 0 <= j < MAX_JSLOTS ==>
        slot[j] == if lo <= j < lo + want then Cell(if j - lo < |vals| then vals[j - lo] else PriRef(IRT_NIL), false) else old(slot[j])
    {
      PriOk(IRT_NIL);
      hide IrBuf.Valid;
      var i := 0;
      while i < want
        invariant 0 <= i <= want && CellsOk(slot[..], |ir.ins|, ir.k)
        invariant forall j {:trigger slot[j]} :: 0 <= j < MAX_JSLOTS ==>
          slot[j] == if lo <= j < lo + i then Cell(if j - lo < |vals| then vals[j - lo] else PriRef(IRT_NIL), false) else old(slot[j])
      {
        slot[lo + i] := Cell(if i < |vals| then vals[i] else PriRef(IRT_NIL), false);
        i := i + 1;
      }
    }

    method Clear(lo: int, hi: int)
      requires slot.Length == MAX_JSLOTS && CellsOk(slot[..], |ir.ins|, ir.k) && 0 <= lo && hi <= MAX_JSLOTS
      modifies slot
      ensures CellsOk(slot[..], |ir.ins|, ir.k)
      ensures forall j {:trigger slot[j]} :: 0 <= j < MAX_JSLOTS ==> slot[j] == if lo <= j < hi then EMPTY else old(slot[j])
    {
      var s := lo;
      while s < hi
        invariant lo <= s && (s <= hi || s == lo) && CellsOk(slot[..], |ir.ins|, ir.k)
        invariant forall j {:trigger slot[j]} :: 0 <= j < MAX_JSLOTS ==> slot[j] == if lo <= j < s then EMPTY else old(slot[j])
      {
        slot[s] := EMPTY;
        s := s + 1;
      }
    }

    /** A tail call replaces the innermost frame in place; the return target
        stays. `CALLT a` passes `nargs` arguments. */
    method RecCallT(a: int, nargs: int, fv: Value, rt: int -> int) returns (st: Outcome, ghost ftr: TRef)
      requires Valid() && Room(300) && 0 <= a && 0 <= nargs && a + 2 + nargs <= pt.framesize && fv.Gc? && fv.t == IRT_FUNC
      requires WfFn(heap(fv.id)) && forall s :: 0 <= rt(s) < IRT_INT
      modifies this, ir, slot
      ensures st.Ok? ==> Valid() && pt == heap(fv.id) && baseslot == old(baseslot) && maxslot == pt.numparams
      ensures st.Ok? ==> old(frames) != [] && frames == old(frames)[|old(frames)| - 1 := old(frames)[|old(frames)| - 1].(callee := heap(fv.id))]
      ensures st == old(TailOutcome(heap(fv.id)))
      ensures st.Ok? ==> var b := old(baseslot);
        && Fetched(ir.ins, old(slot[b + a]).tr, b + a, rt(b + a), ftr) && Checked(ir.ins, ir.k, |old(ir.ins)|, ftr, fv)
        && 2 <= b <= MAX_JSLOTS && HoldsFn(slot[b - 2].tr, ir.k, fv) && slot[b - 1] == old(slot[b - 1])
        && Entered(old(slot[..]), slot[..], b, b + a + 2, nargs, heap(fv.id), ir.ins, rt)
    {
      hide LinkAt, LeadsBack, IrBuf.Valid, FramesOk;
      var cpt := heap(fv.id);
      ftr := TRef.None;
      if cpt.vararg {
        return Fail(NYIBC), ftr;
      }
      var tailrec := framedepth == 0 && root && fromhead && cpt.addr == startpt.addr;
      if framedepth == 0 && !tailrec {
        return Fail(NYIBC), ftr;
      }
      tailcalled := tailcalled + 1;
      if tailcalled > loopunroll {
        return Fail(LUNROLL), ftr;
      }
      if 1 + baseslot + cpt.framesize >= MAX_JSLOTS {
        return Fail(STACKOV), ftr;
      }
      if tailrec {
        // The head is replaced too, but the trace is given up.
        pc := 1;
        return Fail(GFAIL), ftr;
      }
      ftr := ReplaceFrame(a, nargs, fv, rt);
      st := Ok;
    }

    /** Puts the new callee and its arguments in place of the old ones. */
    method SwapFrame(kf: TRef, args: seq<TRef>, cpt: Fn)
      requires Valid() && frames != [] && WfFn(cpt) && kf.Ref? && ConstAt(ir.k, kf.ref) && IsFn(heap, ir.k[REF_NIL - kf.ref], cpt) && baseslot + |args| <= MAX_JSLOTS
      requires forall i {:trigger args[i]} :: 0 <= i < |args| ==> CellOk(Cell(args[i], false), |ir.ins|, ir.k)
      modifies slot
      ensures ir.Valid() && FramesOk(heap, startpt, frames[|frames| - 1 := frames[|frames| - 1].(callee := cpt)], cpt, baseslot, slot[..], ir.k)
      ensures CellsOk(slot[..], |ir.ins|, ir.k)
      ensures forall j {:trigger slot[j]} :: 0 <= j < MAX_JSLOTS && j != baseslot - 2 ==> slot[j] == if baseslot <= j < baseslot + |args| then Cell(args[j - baseslot], false) else old(slot[j])
      ensures 2 <= baseslot <= MAX_JSLOTS && slot[baseslot - 2] == Cell(kf, false)
    {
      hide LinkAt, LeadsBack, IrBuf.Valid, FramesOk;
      BaseFacts(heap, startpt, frames, pt, baseslot, slot[..], ir.k);
      LastBase(heap, startpt, frames, pt, baseslot, slot[..], ir.k);
      ghost var was := slot[..];
      slot[baseslot - 2] := Cell(kf, false);
      Fill(baseslot, |args|, args);
      Replaced(heap, startpt, frames, pt, baseslot, was, slot[..], ir.k, cpt);
    }

    /** Loads what a tail call passes, and checks its callee. */
    method LoadTail(a: int, nargs: int, fv: Value, rt: int -> int) returns (kf: TRef, args: seq<TRef>, ghost ftr: TRef)
      requires Valid() && Room(300) && 0 <= a && 0 <= nargs && a + 2 + nargs <= pt.framesize && fv.Gc? && fv.t == IRT_FUNC && forall s :: 0 <= rt(s) < IRT_INT
      modifies ir, slot
      ensures HoldsFn(kf, ir.k, fv)
      ensures Valid() && |args| == nargs && kf.Ref? && ConstAt(ir.k, kf.ref) && IsFn(heap, ir.k[REF_NIL - kf.ref], heap(fv.id))
      ensures forall i {:trigger args[i]} :: 0 <= i < |args| ==> CellOk(Cell(args[i], false), |ir.ins|, ir.k)
      ensures Fetched(ir.ins, old(slot[baseslot + a]).tr, baseslot + a, rt(baseslot + a), ftr) && Checked(ir.ins, ir.k, |old(ir.ins)|, ftr, fv)
      ensures Loaded(ir.ins, old(slot[..]), baseslot + a + 2, args, rt) && forall j {:trigger slot[j]} :: 0 <= j < baseslot ==> slot[j] == old(slot[j])
    {
      hide LinkAt, LeadsBack, IrBuf.Valid, FramesOk, Fetched, Checked, CellOk;
      BaseFacts(heap, startpt, frames, pt, baseslot, slot[..], ir.k);
      ghost var was := slot[..];
      var called := Loads(a, 1, rt);
      ftr := called[0];
      ghost var ins1, s1 := ir.ins, slot[..];
      kf := SpecializeCallee(called[0], fv);
      ghost var ins2, k2 := ir.ins, ir.k;
      args := Loads(a + 2, nargs, rt);
      CheckedMore(ins2, k2, ir.ins, ir.k, |ins1|, ftr, fv);
      CheckedFrom(ir.ins, ir.k, |ins1|, |old(ir.ins)|, ftr, fv);
      TailLoaded(was, s1, baseslot, a, called, args, ins1, ir.ins, rt);
    }

    method ReplaceFrame(a: int, nargs: int, fv: Value, rt: int -> int) returns (ghost ftr: TRef)
      requires Valid() && frames != [] && Room(300) && 0 <= a && 0 <= nargs && a + 2 + nargs <= pt.framesize && fv.Gc? && fv.t == IRT_FUNC
      requires WfFn(heap(fv.id)) && (forall s :: 0 <= rt(s) < IRT_INT) && 1 + baseslot + heap(fv.id).framesize < MAX_JSLOTS
      modifies this`frames, this`pt, this`maxslot, ir, slot
      ensures Valid() && pt == heap(fv.id) && maxslot == pt.numparams
      ensures Fetched(ir.ins, old(slot[baseslot + a]).tr, baseslot + a, rt(baseslot + a), ftr) && Checked(ir.ins, ir.k, |old(ir.ins)|, ftr, fv)
      ensures Entered(old(slot[..]), slot[..], baseslot, baseslot + a + 2, nargs, heap(fv.id), ir.ins, rt)
      ensures 2 <= baseslot <= MAX_JSLOTS && HoldsFn(slot[baseslot - 2].tr, ir.k, fv) && slot[baseslot - 1] == old(slot[baseslot - 1])
      ensures frames == old(frames)[|old(frames)| - 1 := old(frames)[|old(frames)| - 1].(callee := heap(fv.id))]
    {
      hide LinkAt, LeadsBack, IrBuf.Valid, FramesOk, Fetched, Checked, Entered, Loaded, CellOk, HoldsFn, IsFn;
      BaseFacts(heap, startpt, frames, pt, baseslot, slot[..], ir.k);
      var cpt, last := heap(fv.id), |frames| - 1;
      ghost var was := slot[..];
      var kf, args;
      kf, args, ftr := LoadTail(a, nargs, fv, rt);
      ghost var s2 := slot[..];
      SwapFrame(kf, args, cpt);
      ghost var s3 := slot[..];
      frames := frames[last := frames[last].(callee := cpt)];
      pt := cpt;
      SetupFrame(nargs, frames);
      TailEntered(was, s2, s3, slot[..], baseslot, a, args, nargs, cpt, ir.ins, rt);
      maxslot := cpt.numparams;
    }

    /** Stores the results into the calling frame `fr`, and clears what is left
        of the callee's. */
    method ReturnSlots(fr: FrameInfo, res: seq<TRef>)
      requires Valid() && frames != [] && fr == frames[|frames| - 1]
      requires forall i {:trigger res[i]} :: 0 <= i < |res| ==> CellOk(Cell(res[i], false), |ir.ins|, ir.k)
      modifies slot
      ensures ir.Valid() && FramesOk(heap, startpt, frames[..|frames| - 1], fr.pt, fr.prev_baseslot, slot[..], ir.k)
      ensures CellsOk(slot[..], |ir.ins|, ir.k)
      ensures forall j {:trigger slot[j]} :: 0 <= j < MAX_JSLOTS ==> slot[j] == Returned(old(slot[..]), fr, res, baseslot + pt.framesize, j)
    {
      hide LinkAt, LeadsBack, IrBuf.Valid, FramesOk, FrameAt;
      BaseFacts(heap, startpt, frames, pt, baseslot, slot[..], ir.k);
      LastBase(heap, startpt, frames, pt, baseslot, slot[..], ir.k);
      ghost var was := slot[..];
      Fill(fr.prev_baseslot + fr.cbase, fr.want, res);
      Clear(fr.prev_baseslot + fr.cbase + fr.want, baseslot + pt.framesize);
      Popped(heap, startpt, frames, pt, baseslot, was, slot[..], ir.k);
    }

    /** Returns `gotres` results from register `rbase` on to the calling frame:
        the wanted ones are in the registers from the call on, nil where there are
        fewer; the callee's slots behind them are cleared, all others kept. */
    method RecRet(rbase: int, gotres: int, rt: int -> int) returns (st: Outcome, ghost res: seq<TRef>)
      requires Valid() && Room(300) && 0 <= rbase && 0 <= gotres && rbase + gotres <= pt.framesize && forall s :: 0 <= rt(s) < IRT_INT
      modifies this, ir, slot
      ensures !st.Stop? && (st.Fail? <==> old(frames) == [])
      ensures st.Ok? ==> Valid() && var fr := old(frames)[|old(frames)| - 1];
        && frames == old(frames)[..|old(frames)| - 1] && baseslot == fr.prev_baseslot && pt == fr.pt && maxslot == fr.cbase + fr.want
      ensures st.Ok? ==> |res| == gotres && Loaded(ir.ins, old(slot[..]), old(baseslot) + rbase, res, rt) && var fr := old(frames)[|old(frames)| - 1];
        forall j {:trigger slot[j]} :: 0 <= j < MAX_JSLOTS ==> slot[j] == Returned(old(slot[..]), fr, res, old(baseslot + pt.framesize), j)
    {
      hide LinkAt, LeadsBack, IrBuf.Valid, FramesOk;
      if framedepth <= 0 {
        return Fail(NYIRETL), [];
      }
      BaseFacts(heap, startpt, frames, pt, baseslot, slot[..], ir.k);
      var vals := Loads(rbase, gotres, rt);
      res := vals;
      var fr := frames[|frames| - 1];
      LastBase(heap, startpt, frames, pt, baseslot, slot[..], ir.k);
      ReturnSlots(fr, vals);
      frames := frames[..|frames| - 1];
      framedepth := framedepth - 1;
      baseslot := fr.prev_baseslot;
      pt := fr.pt;
      maxslot := fr.cbase + fr.want;
      st := Ok;
    }
  }

  /** A slot after a return. */
  function Returned(was: seq<Cell>, fr: FrameInfo, res: seq<TRef>, top: int, j: int): Cell
    requires 0 <= j < |was|
  {
    var lo := fr.prev_baseslot + fr.cbase;
    if lo <= j < lo + fr.want then Cell(if j - lo < |res| then res[j - lo] else PriRef(IRT_NIL), false)
    else if lo + fr.want <= j < top then EMPTY
    else was[j]
  }

  /** References of slots from `lo` on: those that are there, or new loads. */
  ghost predicate Loaded(ir: seq<IRIns>, was: seq<Cell>, lo: int, res: seq<TRef>, rt: int -> int) {
    0 <= lo && lo + |res| <= |was| && forall i {:trigger res[i]} :: 0 <= i < |res| ==> res[i].Ref? && Fetched(ir, was[lo + i].tr, lo + i, rt(lo + i), res[i])
  }

  lemma FetchedMore(ir: seq<IRIns>, ir2: seq<IRIns>, was: TRef, at: int, t: int, tr: TRef)
    requires Fetched(ir, was, at, t, tr) && ir <= ir2
    ensures Fetched(ir2, was, at, t, tr)
  {
  }

  lemma LoadedMore(ir: seq<IRIns>, ir2: seq<IRIns>, was: seq<Cell>, lo: int, res: seq<TRef>, tr: TRef, rt: int -> int)
    requires Loaded(ir, was, lo, res, rt) && ir <= ir2 && lo + |res| < |was| && tr.Ref? && Fetched(ir2, was[lo + |res|].tr, lo + |res|, rt(lo + |res|), tr)
    ensures Loaded(ir2, was, lo, res + [tr], rt)
  {
    hide Fetched;
    var r2 := res + [tr];
    forall i {:trigger r2[i]} | 0 <= i < |r2|
      ensures r2[i].Ref? && Fetched(ir2, was[lo + i].tr, lo + i, rt(lo + i), r2[i])
    {
      if i < |res| { assert r2[i] == res[i]; FetchedMore(ir, ir2, was[lo + i].tr, lo + i, rt(lo + i), res[i]); }
    }
  }

  lemma ArgMore(was: seq<Cell>, s0: seq<Cell>, s1: seq<Cell>, base: int, n: int, ir: seq<IRIns>, ir2: seq<IRIns>, rt: int -> int)
    requires ArgsIn(was, s0, base, n, ir, rt) && ir <= ir2 && 0 <= n && base + n < |was| && s0[base + n] == was[base + n]
    requires |s1| == |s0| && (forall j {:trigger s1[j]} :: 0 <= j < |s0| && j != base + n ==> s1[j] == s0[j])
    requires !s1[base + n].frame && Fetched(ir2, was[base + n].tr, base + n, rt(base + n), s1[base + n].tr)
    ensures ArgsIn(was, s1, base, n + 1, ir2, rt)
  {
    hide Fetched;
    forall j {:trigger s1[j]} | base <= j < base + n + 1
      ensures !s1[j].frame && Fetched(ir2, was[j].tr, j, rt(j), s1[j].tr)
    {
      if j < base + n { assert s1[j] == s0[j]; FetchedMore(ir, ir2, was[j].tr, j, rt(j), s0[j].tr); }
    }
  }

  /** The frame of a call: arguments loaded, padded and cleared. */
  lemma FrameEntered(was: seq<Cell>, laid: seq<Cell>, args: seq<Cell>, now: seq<Cell>, base: int, nargs: int, f: Fn, ir: seq<IRIns>, rt: int -> int)
    requires 2 <= base && 0 <= nargs && 0 <= f.numparams <= f.framesize && |was| == |laid| == |args| == |now| && base + f.framesize <= |was|
    requires forall j {:trigger laid[j]} :: 0 <= j < |was| && !(base - 2 <= j < base) ==> laid[j] == was[j]
    requires ArgsIn(laid, args, base, nargs, ir, rt) && (forall j {:trigger args[j]} :: 0 <= j < |was| && !(base <= j < base + nargs) ==> args[j] == laid[j])
    requires forall j {:trigger now[j]} :: 0 <= j < |was| ==> now[j] == Prepared(args[j], j - base, nargs, f)
    ensures Entered(was, now, base, base, nargs, f, ir, rt)
  {
    hide Fetched;
    forall j {:trigger now[j]} | 0 <= j < base - 2
      ensures now[j] == was[j]
    {
      assert args[j] == laid[j];
    }
    forall j {:trigger now[j]} | base <= j < base + f.framesize
      ensures ArgAt(was, now[j], j - base, base, nargs, f, ir, rt)
    {
      if j - base < f.numparams && j - base < nargs { assert now[j] == args[j] && laid[j] == was[j]; }
    }
  }

  lemma CheckedFrom(ir: seq<IRIns>, k: seq<KIns>, from: int, from2: int, ftr: TRef, fv: Value)
    requires Checked(ir, k, from, ftr, fv) && 0 <= from2 <= from
    ensures Checked(ir, k, from2, ftr, fv)
  {
  }

  /** Loading the called register changes none of the arguments. */
  lemma EnteredFrom(was: seq<Cell>, loaded: seq<Cell>, now: seq<Cell>, b: int, nargs: int, f: Fn, ir: seq<IRIns>, rt: int -> int)
    requires |was| == |loaded| && 0 <= b && (forall j {:trigger loaded[j]} :: 0 <= j < |was| && j != b ==> loaded[j] == was[j])
    requires Entered(loaded, now, b + 2, b + 2, nargs, f, ir, rt)
    ensures Entered(was, now, b + 2, b + 2, nargs, f, ir, rt)
  {
    hide Fetched;
    forall j {:trigger now[j]} | 0 <= b + 2 <= j < b + 2 + f.framesize && j < |now|
      ensures ArgAt(was, now[j], j - (b + 2), b + 2, nargs, f, ir, rt)
    {
      assert ArgAt(loaded, now[j], j - (b + 2), b + 2, nargs, f, ir, rt);
    }
  }

  lemma TailLoaded(was: seq<Cell>, s1: seq<Cell>, base: int, a: int, called: seq<TRef>, args: seq<TRef>, ins1: seq<IRIns>, ir: seq<IRIns>, rt: int -> int)
    requires |was| == |s1| && 0 <= base + a < |was| && (forall j {:trigger s1[j]} :: 0 <= j < |was| && j != base + a ==> s1[j] == was[j])
    requires Loaded(ins1, was, base + a, called, rt) && |called| == 1 && ins1 <= ir && Loaded(ir, s1, base + a + 2, args, rt)
    ensures Loaded(ir, was, base + a + 2, args, rt) && Fetched(ir, was[base + a].tr, base + a, rt(base + a), called[0])
  {
    hide Fetched;
    FetchedMore(ins1, ir, was[base + a].tr, base + a, rt(base + a), called[0]);
  }

  /** The frame of a tail call: the arguments moved down, padded and cleared. */
  lemma TailEntered(was: seq<Cell>, s2: seq<Cell>, s3: seq<Cell>, now: seq<Cell>, base: int, a: int, args: seq<TRef>, nargs: int, f: Fn, ir: seq<IRIns>, rt: int -> int)
    requires 2 <= base && |args| == nargs && 0 <= f.numparams <= f.framesize && |was| == |s2| == |s3| == |now| && base + f.framesize <= |was|
    requires Loaded(ir, was, base + a + 2, args, rt) && forall j {:trigger s2[j]} :: 0 <= j < base ==> s2[j] == was[j]
    requires forall j {:trigger s3[j]} :: 0 <= j < |was| && j != base - 2 ==> s3[j] == if base <= j < base + nargs then Cell(args[j - base], false) else s2[j]
    requires forall j {:trigger now[j]} :: 0 <= j < |was| ==> now[j] == Prepared(s3[j], j - base, nargs, f)
    ensures Entered(was, now, base, base + a + 2, nargs, f, ir, rt)
  {
    hide Fetched;
    forall j {:trigger now[j]} | 0 <= j < base - 2
      ensures now[j] == was[j]
    {
      assert s3[j] == s2[j];
    }
    forall j {:trigger now[j]} | base <= j < base + f.framesize
      ensures ArgAt(was, now[j], j - base, base + a + 2, nargs, f, ir, rt)
    {
      var n := j - base;
      if n < f.numparams && n < nargs { assert now[j] == s3[j] && args[n].Ref?; }
    }
  }

  /** The innermost frame sits above its two slots, within its caller's frame. */
  lemma LastBase(heap: Heap, start: Fn, fr: seq<FrameInfo>, pt: Fn, baseslot: int, slot: seq<Cell>, k: seq<KIns>)
    requires FramesOk(heap, start, fr, pt, baseslot, slot, k) && fr != []
    ensures var f := fr[|fr| - 1];
      && f.prev_baseslot >= 2 && 0 <= f.cbase && 0 <= f.want && baseslot == f.prev_baseslot + f.cbase + 2
      && f.cbase + f.want <= f.pt.framesize && f.callee == pt && WfFn(f.pt) && 3 < baseslot <= MAX_JSLOTS
  {
    var n := |fr| - 1;
    assert FrameAt(fr, pt, baseslot, n) && LinkAt(heap, fr, baseslot, slot, k, n);
    BasesUp(fr, pt, baseslot, 0, n);
  }

  /** A new callee in place of the innermost one. */
  lemma Replaced(heap: Heap, start: Fn, fr: seq<FrameInfo>, pt: Fn, baseslot: int, slot: seq<Cell>, slot2: seq<Cell>, k: seq<KIns>, cpt: Fn)
    requires FramesOk(heap, start, fr, pt, baseslot, slot, k) && fr != [] && WfFn(cpt) && |slot2| == |slot| == MAX_JSLOTS && 3 < baseslot <= MAX_JSLOTS
    requires forall j :: 0 <= j < MAX_JSLOTS && j != baseslot - 2 ==> if j < baseslot then slot2[j] == slot[j] else !slot2[j].frame || slot2[j] == slot[j]
    requires 3 < baseslot <= |slot2| && var f := slot2[baseslot - 2]; f.tr.Ref? && !f.frame && ConstAt(k, f.tr.ref) && IsFn(heap, k[REF_NIL - f.tr.ref], cpt)
    ensures FramesOk(heap, start, fr[|fr| - 1 := fr[|fr| - 1].(callee := cpt)], cpt, baseslot, slot2, k)
  {
    var n := |fr| - 1;
    var fr2 := fr[n := fr[n].(callee := cpt)];
    forall i | 0 <= i <= |fr| ensures Base(fr2, baseslot, i) == Base(fr, baseslot, i) && (i <= n ==> FnOf(fr2, cpt, i) == FnOf(fr, pt, i)) { }
    forall i | 0 <= i < |fr2| ensures FrameAt(fr2, cpt, baseslot, i) && LinkAt(heap, fr2, baseslot, slot2, k, i) {
      assert FrameAt(fr, pt, baseslot, i) && LinkAt(heap, fr, baseslot, slot, k, i);
      if i < n {
        BasesUp(fr, pt, baseslot, i + 1, n);
        BasesUp(fr, pt, baseslot, n, |fr|);
      } else {
        LeadsCallee(fr[n], fr2[n], k[REF_NIL - slot[baseslot - 1].tr.ref]);
      }
    }
    forall s | 0 <= s < MAX_JSLOTS && slot2[s].frame ensures exists i {:trigger Base(fr2, baseslot, i + 1)} :: 0 <= i < |fr2| && s == Base(fr2, baseslot, i + 1) - 1 {
      assert slot[s].frame;
      var i :| 0 <= i < |fr| && s == Base(fr, baseslot, i + 1) - 1;
      assert s == Base(fr2, baseslot, i + 1) - 1;
    }
  }

  lemma LeadsCallee(f: FrameInfo, f2: FrameInfo, c: KIns)
    requires LeadsBack(f, c) && f2 == f.(callee := f2.callee)
    ensures LeadsBack(f2, c)
  {
    var pc :| CallsFrom(f, pc) && c.val.i == BcAddr(f.pt, pc + 1);
    assert CallsFrom(f2, pc);
  }

  /** Back in the caller, with the frame's slots cleared or overwritten. */
  lemma Popped(heap: Heap, start: Fn, fr: seq<FrameInfo>, pt: Fn, baseslot: int, slot: seq<Cell>, slot2: seq<Cell>, k: seq<KIns>)
    requires FramesOk(heap, start, fr, pt, baseslot, slot, k) && fr != [] && |slot2| == |slot| == MAX_JSLOTS
    requires var f := fr[|fr| - 1]; 0 <= f.prev_baseslot <= |slot| && slot2[..f.prev_baseslot] == slot[..f.prev_baseslot]
    requires var f := fr[|fr| - 1];
      forall j :: f.prev_baseslot <= j < MAX_JSLOTS ==> slot2[j] == slot[j] || !slot2[j].frame
    requires |slot| == MAX_JSLOTS && 1 < baseslot <= MAX_JSLOTS && !slot2[baseslot - 1].frame
    ensures var f := fr[|fr| - 1]; FramesOk(heap, start, fr[..|fr| - 1], f.pt, f.prev_baseslot, slot2, k)
  {
    var n := |fr| - 1;
    var fr2, f := fr[..n], fr[n];
    assert FrameAt(fr, pt, baseslot, n);
    BasesUp(fr, pt, baseslot, 0, n);
    forall i | 0 <= i <= n ensures Base(fr2, f.prev_baseslot, i) == Base(fr, baseslot, i) && FnOf(fr2, f.pt, i) == FnOf(fr, pt, i) { }
    forall i | 0 <= i < n ensures FrameAt(fr2, f.pt, f.prev_baseslot, i) && LinkAt(heap, fr2, f.prev_baseslot, slot2, k, i) {
      assert FrameAt(fr, pt, baseslot, i) && LinkAt(heap, fr, baseslot, slot, k, i);
      BasesUp(fr, pt, baseslot, i + 1, n);
      var b := Base(fr, baseslot, i + 1);
      assert slot2[..f.prev_baseslot][b - 1] == slot[..f.prev_baseslot][b - 1] && slot2[..f.prev_baseslot][b - 2] == slot[..f.prev_baseslot][b - 2];
    }
    forall s | 0 <= s < MAX_JSLOTS && slot2[s].frame ensures exists i {:trigger Base(fr2, f.prev_baseslot, i + 1)} :: 0 <= i < n && s == Base(fr2, f.prev_baseslot, i + 1) - 1 {
      if s < f.prev_baseslot { assert slot2[..f.prev_baseslot][s] == slot[..f.prev_baseslot][s]; }
      assert slot[s].frame;
      var i :| 0 <= i < |fr| && s == Base(fr, baseslot, i + 1) - 1;
      assert i < n;
      assert s == Base(fr2, f.prev_baseslot, i + 1) - 1;
    }
  }

  lemma BaseFacts(heap: Heap, start: Fn, fr: seq<FrameInfo>, pt: Fn, baseslot: int, slot: seq<Cell>, k: seq<KIns>)
    requires FramesOk(heap, start, fr, pt, baseslot, slot, k)
    ensures |slot| == MAX_JSLOTS && 2 <= baseslot && WfFn(pt)
  {
  }

  /** Interning keeps every constant where it is. */
  predicate Grows(k: seq<KIns>, k2: seq<KIns>) { |k| <= |k2| && k2[..|k|] == k }

  lemma ConstKept(k: seq<KIns>, k2: seq<KIns>, r: int)
    requires Grows(k, k2) && ConstAt(k, r)
    ensures ConstAt(k2, r) && k2[REF_NIL - r] == k[REF_NIL - r]
  {
    assert k2[..|k|][REF_NIL - r] == k[REF_NIL - r];
  }

  lemma KGrown(heap: Heap, start: Fn, fr: seq<FrameInfo>, pt: Fn, baseslot: int, slot: seq<Cell>, k: seq<KIns>, k2: seq<KIns>)
    requires FramesOk(heap, start, fr, pt, baseslot, slot, k) && Grows(k, k2)
    ensures FramesOk(heap, start, fr, pt, baseslot, slot, k2)
  {
    forall i | 0 <= i < |fr| ensures LinkAt(heap, fr, baseslot, slot, k2, i) {
      var b := Base(fr, baseslot, i + 1);
      assert LinkAt(heap, fr, baseslot, slot, k, i);
      ConstKept(k, k2, slot[b - 2].tr.ref);
      ConstKept(k, k2, slot[b - 1].tr.ref);
    }
  }

  /** One more frame, once its two slots are laid. */
  lemma PushedFrame(heap: Heap, start: Fn, fr: seq<FrameInfo>, pt: Fn, baseslot: int, slot: seq<Cell>, slot2: seq<Cell>, k: seq<KIns>, fi: FrameInfo, pc0: int)
    requires FramesOk(heap, start, fr, pt, baseslot, slot, k) && fi.pt == pt && fi.prev_baseslot == baseslot && WfFn(fi.callee)
    requires 0 <= fi.cbase && 0 <= fi.want && CallsFrom(fi, pc0) && baseslot + fi.cbase + 2 < MAX_JSLOTS && |slot2| == |slot|
    requires var f, l := slot2[baseslot + fi.cbase], slot2[baseslot + fi.cbase + 1];
      && f.tr.Ref? && !f.frame && ConstAt(k, f.tr.ref) && IsFn(heap, k[REF_NIL - f.tr.ref], fi.callee)
      && l.tr.Ref? && l.frame && ConstAt(k, l.tr.ref) && k[REF_NIL - l.tr.ref].op == KINT64 && k[REF_NIL - l.tr.ref].val == KInteger(BcAddr(pt, pc0 + 1))
    requires forall s :: 0 <= s < MAX_JSLOTS && s != baseslot + fi.cbase && s != baseslot + fi.cbase + 1 ==> slot2[s] == slot[s]
    ensures FramesOk(heap, start, fr + [fi], fi.callee, baseslot + fi.cbase + 2, slot2, k)
  {
    var fr2, nb := fr + [fi], baseslot + fi.cbase + 2;
    forall i | 0 <= i <= |fr| ensures Base(fr2, nb, i) == Base(fr, baseslot, i) && FnOf(fr2, fi.callee, i) == FnOf(fr, pt, i) { }
    forall i | 0 <= i < |fr2| ensures FrameAt(fr2, fi.callee, nb, i) && LinkAt(heap, fr2, nb, slot2, k, i) {
      if i < |fr| {
        assert FrameAt(fr, pt, baseslot, i) && LinkAt(heap, fr, baseslot, slot, k, i);
        BasesUp(fr, pt, baseslot, i + 1, |fr|);
      }
    }
    forall s | 0 <= s < MAX_JSLOTS && slot2[s].frame ensures exists i {:trigger Base(fr2, nb, i + 1)} :: 0 <= i < |fr2| && s == Base(fr2, nb, i + 1) - 1 {
      if s == baseslot + fi.cbase + 1 {
        assert s == Base(fr2, nb, |fr| + 1) - 1;
      } else {
        assert slot[s].frame;
        var i :| 0 <= i < |fr| && s == Base(fr, baseslot, i + 1) - 1;
        assert s == Base(fr2, nb, i + 1) - 1;
      }
    }
  }

  /** No register of the current frame is a link. */
  lemma NoLink(heap: Heap, start: Fn, fr: seq<FrameInfo>, pt: Fn, baseslot: int, slot: seq<Cell>, k: seq<KIns>, s: int)
    requires FramesOk(heap, start, fr, pt, baseslot, slot, k) && baseslot <= s < MAX_JSLOTS
    ensures !slot[s].frame
  {
    if slot[s].frame {
      var i :| 0 <= i < |fr| && s == Base(fr, baseslot, i + 1) - 1;
      BasesUp(fr, pt, baseslot, i + 1, |fr|);
    }
  }

  /** Storing to registers of the current frame leaves the frames alone. */
  lemma Stored(heap: Heap, start: Fn, fr: seq<FrameInfo>, pt: Fn, baseslot: int, slot: seq<Cell>, slot2: seq<Cell>, k: seq<KIns>, lo: int)
    requires FramesOk(heap, start, fr, pt, baseslot, slot, k) && |slot2| == |slot| && baseslot <= lo
    requires forall s :: 0 <= s < MAX_JSLOTS ==> if s < lo then slot2[s] == slot[s] else !slot2[s].frame || slot2[s] == slot[s]
    ensures FramesOk(heap, start, fr, pt, baseslot, slot2, k)
  {
    forall i | 0 <= i < |fr| ensures LinkAt(heap, fr, baseslot, slot2, k, i) {
      BasesUp(fr, pt, baseslot, i + 1, |fr|);
      assert LinkAt(heap, fr, baseslot, slot, k, i);
    }
    forall s | 0 <= s < MAX_JSLOTS && slot2[s].frame ensures exists i {:trigger Base(fr, baseslot, i + 1)} :: 0 <= i < |fr| && s == Base(fr, baseslot, i + 1) - 1 {
      assert slot[s].frame;
    }
  }
}
