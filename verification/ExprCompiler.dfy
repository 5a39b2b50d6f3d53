/** The one-pass expression compiler of the parser: jump lists, registers and
    emission work in place on the instruction array of one function. */
module ExprCompiler {
  import opened Bytecode
  import opened Exec
  import opened Patching
  import opened Delivery
  import opened Emission
  import opened Steps
  import opened Branches
  import opened Resolve
  import opened NilMerge
  import opened JumpLists
  import opened Operands

  /** The outcome of a compile step: done, or a syntax error because a jump is
      too long or the expression needs too many registers. */
  datatype Status = Ok | Limit {
    predicate IsFailure() { Limit? }
    function PropagateFailure(): Status { this }
  }

  datatype ExpKind = VKNil | VKFalse | VKTrue | VKStr | VKNum | VLocal | VUpval | VJmp | VRelocable | VNonReloc

  /** Expression descriptor: where the value is, and its true and false lists. */
  datatype ExpDesc = ExpDesc(k: ExpKind, info: int, nval: real, sval: string, t: int, f: int)

  function InitExp(k: ExpKind, info: int): ExpDesc { ExpDesc(k, info, 0.0, "", NO_JMP, NO_JMP) }

  predicate HasJump(e: ExpDesc) { e.t != e.f }
  predicate IsConst(e: ExpDesc) { e.k.VKNil? || e.k.VKFalse? || e.k.VKTrue? || e.k.VKStr? || e.k.VKNum? }

  /** What the descriptor says about control falling out of the code so far. */
  function EndOf(e: ExpDesc): End {
    match e.k
    case VKNil => Const(Nil)
    case VKFalse => Const(False)
    case VKTrue => Const(True)
    case VKStr => Const(Str(e.sval))
    case VKNum => Const(Num(e.nval))
    case VLocal => Reg(e.info)
    case VNonReloc => Reg(e.info)
    case VUpval => Ready(Ins(UGET, 0, e.info))
    case VJmp => Cond(e.info)
    case VRelocable => Reloc(e.info)
  }

  /** Operand of a short integer load, when `n` fits one. */
  function ShortOperand(n: real): int {
    if n.Floor as real == n && -32768 <= n.Floor <= 32767 then
      (if n.Floor < 0 then n.Floor + 0x10000 else n.Floor)
    else -1
  }

  class FuncState {
    var code: seq<Ins>
    var lasttarget: int
    var jpc: int
    var freereg: int
    var nactvar: int
    var framesize: int
    var kn: seq<real>
    var kgc: seq<string>
    /** The jumps on the `jpc` list. */
    ghost var pending: seq<int>

    ghost predicate Valid()
      reads this
    {
      && 1 <= |code| && 0 <= nactvar <= freereg <= framesize < MAX_SLOTS
      && IsList(code, jpc, pending)
    }

    ghost predicate AtLimit()
      reads this
    {
      |code| > 0x7fff || freereg + 1 >= MAX_SLOTS
    }

    // -- Jump lists ---------------------------------------------------------

    method JmpNovalue(list: int, ghost s: seq<int>) returns (b: bool)
      requires IsList(code, list, s)
      ensures b <==> !AllValued(code, Elems(s))
    {
      var l := list;
      ghost var k := 0;
      ListPositive(code, list, s);
      while l != NO_JMP
        invariant 0 <= k <= |s| && l == (if k < |s| then s[k] else NO_JMP)
        invariant forall i :: 0 <= i < k ==> 0 < s[i] < |code| && Valued(code[s[i] - 1])
        decreases |s| - k
      {
        assert LinkAt(code, s, k);
        var p := code[if l >= 1 then l - 1 else l];
        if !(p.op == ISTC || p.op == ISFC || p.a == NO_REG) {
          assert l in Elems(s);
          return true;
        }
        l := Next(code, l);
        k := k + 1;
      }
      forall q | q in Elems(s) && 0 < q < |code| ensures Valued(code[q - 1]) {
        var i :| 0 <= i < |s| && s[i] == q;
      }
      return false;
    }

    method JmpPatchTestReg(pc: int, reg: int) returns (b: bool)
      requires 0 < pc < |code|
      modifies this`code
      ensures b == Valued(old(code)[pc - 1])
      ensures code == old(code)[pc - 1 := PatchedTest(old(code)[pc - 1], old(code)[pc], reg)]
                               [pc := old(code)[pc].(a := PatchedBase(old(code)[pc - 1], old(code)[pc], reg))]
    {
      var i := if pc >= 1 then pc - 1 else pc;
      var ins := code[i];
      if ins.op == ISTC || ins.op == ISFC {
        if reg != NO_REG && reg != ins.d {
          code := code[i := ins.(a := reg)];
        } else {
          code := code[i := ins.(op := ins.op + (IST - ISTC), a := 0)];
        }
      } else if ins.a == NO_REG {
        if reg == NO_REG {
          code := code[i := MakeJump(code[pc].a, 0)];
        } else {
          code := code[i := ins.(a := reg)];
          if reg >= code[i + 1].a {
            code := code[i + 1 := code[i + 1].(a := reg + 1)];
          }
        }
      } else {
        return false;
      }
      return true;
    }

    method JmpDropVal(list: int, ghost s: seq<int>)
      requires IsList(code, list, s) && Shape(code)
      modifies this`code
      ensures code == Dropped(old(code), Elems(s)) && IsList(code, list, s)
    {
      ghost var code0 := code;
      assert code == Dropped(code0, Elems(s[..0]));
      var l := list;
      ghost var k := 0;
      ListPositive(code, list, s);
      while l != NO_JMP
        invariant 0 <= k <= |s| && l == (if k < |s| then s[k] else NO_JMP)
        invariant code == Dropped(code0, Elems(s[..k])) && IsList(code, list, s)
        decreases |s| - k
      {
        DropStep(code0, list, s, k);
        var _ := JmpPatchTestReg(l, NO_REG);
        assert LinkAt(code, s, k);
        l := Next(code, l);
        k := k + 1;
      }
      assert s[..k] == s;
    }

    method JmpPatchIns(pc: int, dest: int) returns (st: Status)
      requires 0 <= pc < |code| && 0 <= dest <= |code|
      modifies this`code
      ensures st.Ok? ==> code == old(code)[pc := Retarget(old(code)[pc], pc, dest)]
      ensures st.Limit? ==> AtLimit()
    {
      var offset := dest - (pc + 1) + BIAS;
      if !(0 <= offset <= MAX_D) {
        return Limit;
      }
      code := code[pc := code[pc].(d := offset)];
      return Ok;
    }

    method JmpAppend(l1: int, l2: int, ghost s1: seq<int>, ghost s2: seq<int>) returns (st: Status, l: int)
      requires IsList(code, l1, s1) && IsList(code, l2, s2)
      requires forall q :: q in s1 ==> q !in s2
      modifies this`code
      ensures st.Ok? ==> IsList(code, l, s1 + s2) && code == Linked(old(code), s1, l2)
      ensures st.Limit? ==> AtLimit()
    {
      l := l1;
      ListPositive(code, l1, s1);
      ListPositive(code, l2, s2);
      if l2 == NO_JMP {
        assert s1 + s2 == s1;
      } else if l1 == NO_JMP {
        l := l2;
        assert s1 + s2 == s2;
      } else {
        assert s1 != [] && s2 != [];
        var list := l1;
        ghost var k := 0;
        while Next(code, list) != NO_JMP
          invariant 0 <= k < |s1| && list == s1[k] && 0 < list < |code|
          decreases |s1| - k
        {
          assert LinkAt(code, s1, k);
          list := Next(code, list);
          k := k + 1;
          assert LinkAt(code, s1, k);
        }
        assert LinkAt(code, s1, k) && k == |s1| - 1;
        ghost var code0 := code;
        :- JmpPatchIns(list, l2);
        ListLinked(code0, l1, s1, l2, s2, code);
      }
      st := Ok;
    }

    method JmpPatchVal(list: int, vtarget: int, reg: int, dtarget: int, ghost s: seq<int>) returns (st: Status)
      requires IsList(code, list, s) && (s != [] ==> Shape(code)) && (reg == NO_REG || 0 <= reg < MAX_SLOTS)
      requires 0 <= vtarget <= |code| && (AllValued(code, Elems(s)) || 0 <= dtarget <= |code|)
      modifies this`code
      ensures st.Ok? ==> code == Patched(old(code), Elems(s), reg, vtarget, dtarget)
      ensures st.Limit? ==> AtLimit()
    {
      ghost var code0 := code;
      assert code == Patched(code0, Elems(s[..0]), reg, vtarget, dtarget);
      var l := list;
      ghost var k := 0;
      ListPositive(code, list, s);
      while l != NO_JMP
        invariant 0 <= k <= |s| && l == (if k < |s| then s[k] else NO_JMP)
        invariant code == Patched(code0, Elems(s[..k]), reg, vtarget, dtarget)
        decreases |s| - k
      {
        PatchStep(code0, list, s, k, reg, vtarget, dtarget);
        assert l in Elems(s);
        var next := Next(code, l);
        var b := JmpPatchTestReg(l, reg);
        if b {
          :- JmpPatchIns(l, vtarget);
        } else {
          :- JmpPatchIns(l, dtarget);
        }
        l := next;
        k := k + 1;
      }
      assert s[..k] == s;
      st := Ok;
    }

    method JmpToHere(list: int, ghost s: seq<int>) returns (st: Status)
      requires Valid() && IsList(code, list, s) && forall q :: q in pending ==> q !in s
      modifies this`code, this`lasttarget, this`jpc, this`pending
      ensures st.Ok? ==> Valid() && pending == old(pending) + s && lasttarget == |code| && code == Linked(old(code), old(pending), list)
      ensures st.Limit? ==> AtLimit()
    {
      lasttarget := |code|;
      var j :- JmpAppend(jpc, list, pending, s);
      jpc := j;
      pending := pending + s;
      st := Ok;
    }

    // -- Registers and constants ----------------------------------------------

    method BcRegReserve(n: int) returns (st: Status)
      requires Valid() && 0 < n <= 2
      modifies this`freereg, this`framesize
      ensures st.Ok? ==> Valid() && freereg == old(freereg) + n && framesize >= old(framesize)
      ensures st.Limit? ==> freereg + n >= MAX_SLOTS
    {
      var sz := freereg + n;
      if sz > framesize {
        if sz >= MAX_SLOTS {
          return Limit;
        }
        framesize := sz;
      }
      freereg := freereg + n;
      return Ok;
    }

    method BcRegFree(reg: int)
      requires Valid() && reg < freereg
      modifies this`freereg
      ensures Valid() && freereg == old(freereg) - if reg >= nactvar && reg == old(freereg) - 1 then 1 else 0
    {
      if reg >= nactvar {
        if reg == freereg - 1 {
          freereg := freereg - 1;
        }
      }
    }

    method ConstNum(n: real) returns (idx: int)
      modifies this`kn
      ensures old(kn) <= kn && 0 <= idx < |kn| && kn[idx] == n
      ensures n in old(kn) ==> kn == old(kn)
    {
      idx := 0;
      while idx < |kn|
        invariant 0 <= idx <= |kn| && n !in kn[..idx]
      {
        if kn[idx] == n { return; }
        idx := idx + 1;
      }
      kn := kn + [n];
    }

    method ConstStr(s: string) returns (idx: int)
      modifies this`kgc
      ensures old(kgc) <= kgc && 0 <= idx < |kgc| && kgc[idx] == s
      ensures s in old(kgc) ==> kgc == old(kgc)
    {
      idx := 0;
      while idx < |kgc|
        invariant 0 <= idx <= |kgc| && s !in kgc[..idx]
      {
        if kgc[idx] == s { return; }
        idx := idx + 1;
      }
      kgc := kgc + [s];
    }

    // -- Emission --------------------------------------------------------------

    method BcEmit(ins: Ins) returns (st: Status, pc: int)
      requires Valid() && (pending != [] ==> Shape(code))
      modifies this`code, this`jpc, this`pending
      ensures st.Ok? ==> Valid() && pending == [] && jpc == NO_JMP && pc == |old(code)|
      ensures st.Ok? ==> code == Landed(old(code), Elems(old(pending))) + [ins]
      ensures st.Limit? ==> AtLimit()
    {
      pc := |code|;
      :- JmpPatchVal(jpc, pc, NO_REG, pc, pending);
      jpc := NO_JMP;
      pending := [];
      code := code + [ins];
      st := Ok;
    }

    /** Emits a jump and takes the pending jumps onto its list. */
    method BcEmitJmp() returns (st: Status, l: int)
      requires Valid()
      modifies this`code, this`jpc, this`pending
      ensures st.Ok? ==> Valid() && pending == [] && jpc == NO_JMP && l == |old(code)|
      ensures st.Ok? ==> |code| == l + 1 && code[..l] == old(code) && code[l].op == JMP && code[l].a == freereg
      ensures st.Ok? ==> IsList(code, l, [l] + old(pending)) && (old(pending) == [] ==> code[l] == MakeJump(freereg, -1))
      ensures st.Limit? ==> AtLimit()
    {
      l := NO_JMP;
      var oldjpc := jpc;
      ghost var s := pending;
      ghost var code0 := code;
      jpc := NO_JMP;
      pending := [];
      ListPositive(code, oldjpc, s);
      var j :- BcEmit(MakeJump(freereg, -1));
      LandedNone(code0);
      assert Elems([]) == {};
      assert code == code0 + [MakeJump(freereg, -1)];
      ListKept(code0, code, oldjpc, s);
      assert IsList(code, j, [j]);
      l :- JmpAppend(j, oldjpc, [j], s);
      st := Ok;
    }

    // -- Expressions -------------------------------------------------------------

    /** The code of an expression in progress, inside the jumps `ctx` of the
        expressions around it. */
    ghost function See(ctx: set<int>, end: End, ts: seq<int>, fs: seq<int>): View
      reads this
    {
      View(code, ctx, Elems(pending), end, Elems(ts), Elems(fs))
    }

    /** The job at hand, with the constant tables as they are now. */
    ghost function Now(job: Job): Job
      reads this
    {
      job.(kn := kn, ks := kgc)
    }

    /** Running the code does what the job asks for, up to register `skip`, when
        `end` describes its end and `t`, `f` head its exits. */
    ghost predicate Half(job: Job, ctx: set<int>, end: End, t: int, f: int, ts: seq<int>, fs: seq<int>, skip: int)
      reads this
    {
      && Valid() && IsList(code, t, ts) && IsList(code, f, fs)
      && Wf(See(ctx, end, ts, fs), job.start, lasttarget)
      && Den(Now(job), See(ctx, end, ts, fs), skip)
    }

    /** The descriptor tells the truth about the code. */
    ghost predicate Sound(job: Job, ctx: set<int>, e: ExpDesc, ts: seq<int>, fs: seq<int>, skip: int)
      reads this
    {
      && Half(job, ctx, EndOf(e), e.t, e.f, ts, fs, skip)
      && (e.k.VJmp? ==> 0 < e.info < |code| && JumpOf(code[e.info]) == -1)
    }

    method ExprDischarge(ghost job: Job, ghost ctx: set<int>, e: ExpDesc, ghost ts: seq<int>, ghost fs: seq<int>)
      returns (st: Status, d: ExpDesc)
      requires Sound(job, ctx, e, ts, fs, NO_REG)
      modifies this`code, this`jpc, this`pending
      ensures st.Ok? ==> Sound(job, ctx, d, ts, fs, NO_REG) && Kept(old(code), code, ctx)
      ensures st.Ok? ==> d == (if e.k.VUpval? then e.(k := VRelocable, info := |old(code)|) else if e.k.VLocal? then e.(k := VNonReloc) else e)
      ensures st.Ok? && !e.k.VUpval? ==> code == old(code) && pending == old(pending)
      ensures st.Limit? ==> AtLimit()
    {
      hide Wf, Den;
      WfFacts(See(ctx, EndOf(e), ts, fs), job.start, lasttarget);
      d := e;
      if e.k.VUpval? {
        ghost var v := See(ctx, EndOf(e), ts, fs);
        var ins := Ins(UGET, 0, e.info);
        var pc :- BcEmit(ins);
        d := e.(k := VRelocable, info := pc);
        ghost var v2 := See(ctx, EndOf(d), ts, fs);
        HangLoad(Now(job), v, lasttarget, v2);
        EmitList(v, job.start, lasttarget, [ins], e.t, ts);
        EmitList(v, job.start, lasttarget, [ins], e.f, fs);
        EmitKept(v, job.start, lasttarget, [ins]);
      } else if e.k.VLocal? {
        d := e.(k := VNonReloc);
      }
      st := Ok;
    }

    /** Emits a load and states what the descriptor then means. */
    method EmitLoad(ghost job: Job, ghost ctx: set<int>, e: ExpDesc, ghost ts: seq<int>, ghost fs: seq<int>, ins: Ins)
      returns (st: Status, d: ExpDesc)
      requires Sound(job, ctx, e, ts, fs, NO_REG) && (IsConst(e) || e.k.VNonReloc?)
      requires IsLoad(ins.op) && 0 <= ins.a < MAX_SLOTS && Supplies(Now(job), EndOf(e), ins)
      modifies this`code, this`jpc, this`pending
      ensures st.Ok? ==> d == e.(k := VNonReloc, info := ins.a) && Sound(job, ctx, d, ts, fs, ins.a) && Kept(old(code), code, ctx)
      ensures st.Limit? ==> AtLimit()
    {
      hide Wf, Den;
      WfFacts(See(ctx, EndOf(e), ts, fs), job.start, lasttarget);
      d := e;
      ghost var v := See(ctx, EndOf(e), ts, fs);
      var _ :- BcEmit(ins);
      d := e.(k := VNonReloc, info := ins.a);
      ghost var v2 := See(ctx, EndOf(d), ts, fs);
      Load(Now(job), v, lasttarget, ins, v2);
      EmitList(v, job.start, lasttarget, [ins], e.t, ts);
      EmitList(v, job.start, lasttarget, [ins], e.f, fs);
      EmitKept(v, job.start, lasttarget, [ins]);
      st := Ok;
    }

    /** `nil` into a register, folded into a nil load right before when no jump
        can land between the two. */
    method BcEmitNil(ghost job: Job, ghost ctx: set<int>, e: ExpDesc, ghost ts: seq<int>, ghost fs: seq<int>, from: int)
      returns (st: Status, d: ExpDesc)
      requires Sound(job, ctx, e, ts, fs, NO_REG) && e.k.VKNil? && 0 <= from < MAX_SLOTS
      modifies this`code, this`jpc, this`pending
      ensures st.Ok? ==> d == e.(k := VNonReloc, info := from) && Sound(job, ctx, d, ts, fs, from) && Kept(old(code), code, ctx)
      ensures st.Limit? ==> AtLimit()
    {
      if |code| > lasttarget {
        var ip := code[|code| - 1];
        if ip.op == KPRI && ip.d == 0 {
          if from == ip.a {
            d := MergeNil(job, ctx, e, ts, fs, from, ip);
            return Ok, d;
          } else if from == ip.a + 1 {
            d := MergeNil(job, ctx, e, ts, fs, from, Ins(KNIL, ip.a, from));
            return Ok, d;
          }
        } else if ip.op == KNIL && ip.a <= from <= ip.d + 1 {
          d := MergeNil(job, ctx, e, ts, fs, from, if from > ip.d then ip.(d := from) else ip);
          return Ok, d;
        }
      }
      st, d := EmitLoad(job, ctx, e, ts, fs, Ins(KPRI, from, 0));
    }

    method MergeNil(ghost job: Job, ghost ctx: set<int>, e: ExpDesc, ghost ts: seq<int>, ghost fs: seq<int>, from: int, to: Ins)
      returns (d: ExpDesc)
      requires Sound(job, ctx, e, ts, fs, NO_REG) && e.k.VKNil? && lasttarget < |code| && Merges(code[|code| - 1], to, from)
      modifies this`code
      ensures d == e.(k := VNonReloc, info := from) && Sound(job, ctx, d, ts, fs, from) && Kept(old(code), code, ctx)
      ensures code == old(code)[|old(code)| - 1 := to]
    {
      hide Wf, Den;
      ghost var v := See(ctx, EndOf(e), ts, fs);
      ListsAvoid(v, job.start, lasttarget, e.t, ts);
      ListsAvoid(v, job.start, lasttarget, e.f, fs);
      ListsAvoid(v, job.start, lasttarget, jpc, pending);
      ghost var code0 := code;
      code := code[|code| - 1 := to];
      d := e.(k := VNonReloc, info := from);
      Merge(Now(job), v, lasttarget, to, from, See(ctx, EndOf(d), ts, fs));
      ListKept(code0, code, e.t, ts);
      ListKept(code0, code, e.f, fs);
      ListKept(code0, code, jpc, pending);
      MergeKept(v, job.start, lasttarget, to, from);
    }

    /** Gives the relocatable load at the end of the code its register. */
    method SetRelocated(ghost job: Job, ghost ctx: set<int>, e: ExpDesc, ghost ts: seq<int>, ghost fs: seq<int>, reg: int)
      returns (d: ExpDesc)
      requires Sound(job, ctx, e, ts, fs, NO_REG) && e.k.VRelocable? && 0 <= reg < MAX_SLOTS
      modifies this`code
      ensures d == e.(k := VNonReloc, info := reg) && Sound(job, ctx, d, ts, fs, reg) && Kept(old(code), code, ctx)
    {
      ghost var v := See(ctx, EndOf(e), ts, fs);
      ghost var code0 := code;
      PlaceFrame(v, job.start, lasttarget, reg);
      var pc := e.info;
      code := code[pc := code[pc].(a := reg)];
      d := e.(k := VNonReloc, info := reg);
      TakeBack(Now(job), v, lasttarget);
      Load(Now(job), Back(v), lasttarget, code[pc], See(ctx, EndOf(d), ts, fs));
      ElemsMember(pending);
      assert forall q :: q in ts || q in fs ==> q in Lists(v) by { assert forall q :: (q in ts ==> q in Elems(ts)) && (q in fs ==> q in Elems(fs)); }
      ListKept(code0, code, e.t, ts);
      ListKept(code0, code, e.f, fs);
    }

    method ExprToRegNoBranch(ghost job: Job, ghost ctx: set<int>, e: ExpDesc, ghost ts: seq<int>, ghost fs: seq<int>, reg: int)
      returns (st: Status, d: ExpDesc)
      requires Sound(job, ctx, e, ts, fs, NO_REG) && 0 <= reg < MAX_SLOTS
      modifies this`code, this`jpc, this`pending, this`kn, this`kgc
      ensures st.Ok? ==> d.t == e.t && d.f == e.f && Kept(old(code), code, ctx) && old(kn) <= kn && old(kgc) <= kgc
      ensures st.Ok? ==> if e.k.VJmp? then d == e && Sound(job, ctx, d, ts, fs, NO_REG)
        else d.k.VNonReloc? && d.info == reg && Sound(job, ctx, d, ts, fs, reg)
      ensures st.Limit? ==> AtLimit()
    {
      hide Wf, Den;
      ghost var code0 := code;
      d :- ExprDischarge(job, ctx, e, ts, fs);
      ghost var code1 := code;
      if d.k.VRelocable? {
        d := SetRelocated(job, ctx, d, ts, fs, reg);
      } else if d.k.VNonReloc? {
        if reg != d.info {
          d :- EmitLoad(job, ctx, d, ts, fs, Ins(MOV, reg, d.info));
        } else {
          DenSkip(Now(job), See(ctx, EndOf(d), ts, fs), NO_REG, reg);
        }
      } else if d.k.VKNil? {
        d :- BcEmitNil(job, ctx, d, ts, fs, reg);
      } else if IsConst(d) {
        var ins := ConstIns(job, ctx, d, ts, fs, reg);
        d :- EmitLoad(job, ctx, d, ts, fs, ins);
      }
      KeptTrans(code0, code1, code, ctx);
      st := Ok;
    }

    /** The instruction that loads a constant other than nil. */
    method ConstIns(ghost job: Job, ghost ctx: set<int>, e: ExpDesc, ghost ts: seq<int>, ghost fs: seq<int>, reg: int) returns (ins: Ins)
      requires Sound(job, ctx, e, ts, fs, NO_REG) && IsConst(e)
      modifies this`kn, this`kgc
      ensures Sound(job, ctx, e, ts, fs, NO_REG) && old(kn) <= kn && old(kgc) <= kgc
      ensures IsLoad(ins.op) && ins.a == reg && Supplies(Now(job), EndOf(e), ins) && (IsNilLoad(ins) ==> e.k.VKNil?)
    {
      hide Wf, Den;
      ghost var job0 := Now(job);
      if e.k.VKStr? {
        var idx := ConstStr(e.sval);
        ins := Ins(KSTR, reg, idx);
      } else if e.k.VKNum? {
        var k := ShortOperand(e.nval);
        if k >= 0 {
          ins := Ins(KSHORT, reg, k);
        } else {
          var idx := ConstNum(e.nval);
          ins := Ins(KNUM, reg, idx);
        }
      } else {
        ins := Ins(KPRI, reg, if e.k.VKNil? then 0 else if e.k.VKFalse? then 1 else 2);
      }
      DenGrown(job0, Now(job), See(ctx, EndOf(e), ts, fs), NO_REG);
    }

    /** The two constants behind an expression with valueless exits. */
    method EmitTail(reg: int, over: bool) returns (st: Status, jfalse: int, jtrue: int, ghost link: int)
      requires Valid() && 0 <= reg < MAX_SLOTS && (over || pending == [])
      modifies this`code, this`jpc, this`pending, this`lasttarget
      ensures st.Ok? ==> Valid() && jfalse == |code| - 3 && jtrue == |code| - 1 && lasttarget == |code|
      ensures st.Ok? ==> code == old(code) + Tail(if over then Reg(reg) else Const(False), reg, freereg, link)
      ensures st.Ok? ==> pending == if over then [|old(code)|] + old(pending) else []
      ensures st.Limit? ==> AtLimit()
    {
      hide Wf, Den;
      jfalse, jtrue, link := NO_JMP, NO_JMP, -1;
      var jval := NO_JMP;
      ghost var vals: seq<int> := [];
      ghost var code0 := code;
      if over {
        vals := [|code|] + pending;
        jval :- BcEmitJmp();
        link := JumpOf(code[jval]);
      }
      ghost var code1 := code;
      assert Elems(pending) == {};
      LandedNone(code1);
      LandedNone(code1 + [Ins(KPRI, reg, 1)]);
      LandedNone(code1 + [Ins(KPRI, reg, 1)] + [MakeJump(freereg, 1)]);
      jfalse :- BcEmit(Ins(KPRI, reg, 1));
      var _ :- BcEmit(MakeJump(freereg, 1));
      jtrue :- BcEmit(Ins(KPRI, reg, 2));
      ListKept(code1, code, jval, vals);
      :- JmpToHere(jval, vals);
      assert code == code0 + Tail(if over then Reg(reg) else Const(False), reg, freereg, link);
      st := Ok;
    }

    /** The two patches at the end of `expr_toreg`. */
    method PatchBoth(ghost v: View, ghost start: int, ghost lim: int, ghost link: int, ghost direct: bool, t: int, f: int,
                     ghost ts: seq<int>, ghost fs: seq<int>, reg: int, jfalse: int, jtrue: int) returns (st: Status)
      requires Valid() && Wf(v, start, lim) && IsList(v.code, t, ts) && IsList(v.code, f, fs) && v.ts == Elems(ts) && v.fs == Elems(fs)
      requires Tailed(v, reg, freereg, link, direct, code, Elems(pending)) && (direct || (jfalse == |code| - 3 && jtrue == |code| - 1))
      modifies this`code
      ensures st.Ok? ==> Valid() && Kept(v.code, code, v.ctx) && |code| == |old(code)|
      ensures st.Ok? ==> Resolved(v, reg, direct, old(code), jfalse, jtrue, Elems(pending), View(code, v.ctx, Elems(pending), Reg(reg), {}, {}))
      ensures st.Limit? ==> AtLimit()
    {
      ghost var c1 := code;
      TailLists(v, start, lim, reg, freereg, link, direct, c1, Elems(pending), jfalse, jtrue, t, ts, f, fs);
      :- JmpPatchVal(f, |code|, reg, jfalse, fs);
      :- JmpPatchVal(t, |code|, reg, jtrue, ts);
      SettleKept(v, start, lim, reg, freereg, link, direct, c1, pending, jfalse, jtrue, View(code, v.ctx, Elems(pending), Reg(reg), {}, {}), jpc);
      st := Ok;
    }

    /** Resolves both lists of an expression whose value is in `reg` at the end
        (`over`), or is `false` there. */
    method ResolveInto(ghost job: Job, ghost ctx: set<int>, over: bool, t: int, f: int, ghost ts: seq<int>, ghost fs: seq<int>, reg: int) returns (st: Status)
      requires Half(job, ctx, if over then Reg(reg) else Const(False), t, f, ts, fs, if over then reg else NO_REG)
      requires 0 <= reg < MAX_SLOTS && Plain(job.goal) && (over || (pending == [] && !AllValued(code, Elems(ts))))
      modifies this`code, this`jpc, this`pending, this`lasttarget
      ensures st.Ok? ==> Half(job, ctx, Reg(reg), NO_JMP, NO_JMP, [], [], reg) && Kept(old(code), code, ctx)
      ensures st.Limit? ==> AtLimit()
    {
      hide Wf, Den;
      ghost var v := See(ctx, if over then Reg(reg) else Const(False), ts, fs);
      ghost var lim := lasttarget;
      var jfalse, jtrue := NO_JMP, NO_JMP;
      ghost var link := -1;
      var b := JmpNovalue(t, ts);
      if !b {
        b := JmpNovalue(f, fs);
      }
      assert AllValued(code, Elems(ts)) && AllValued(code, Elems(fs)) ==> AllValued(code, Elems(ts) + Elems(fs));
      if b {
        jfalse, jtrue, link :- EmitTail(reg, over);
      }
      lasttarget := |code|;
      ghost var c1 := code;
      assert Elems([|v.code|] + old(pending)) == {|v.code|} + Elems(old(pending)) && Elems([]) == {};
      :- PatchBoth(v, job.start, lim, link, !b, t, f, ts, fs, reg, jfalse, jtrue);
      Settle(Now(job), v, lim, reg, freereg, link, !b, c1, Elems(pending), jfalse, jtrue, See(ctx, Reg(reg), [], []));
      st := Ok;
    }

    /** Files the jump of a comparison at the end of the code in its true list. */
    method FileJump(ghost job: Job, ghost ctx: set<int>, e: ExpDesc, ghost ts: seq<int>, ghost fs: seq<int>) returns (st: Status, t: int)
      requires Sound(job, ctx, e, ts, fs, NO_REG) && e.k.VJmp? && Plain(job.goal)
      modifies this`code
      ensures st.Ok? ==> Half(job, ctx, Const(False), t, e.f, ts + [e.info], fs, NO_REG) && Kept(old(code), code, ctx)
      ensures st.Ok? ==> pending == [] && !AllValued(code, Elems(ts + [e.info]))
      ensures st.Limit? ==> AtLimit()
    {
      t := NO_JMP;
      ghost var v := See(ctx, EndOf(e), ts, fs);
      ghost var v2 := v.(ts := v.ts + {e.info}, end := Const(False));
      FileCond(Now(job), v, lasttarget, v2);
      FileCondWf(v, job.start, lasttarget, v2);
      LinkView(Now(job), v2, lasttarget, NO_REG, ts, e.info);
      LinkKept(v2, job.start, lasttarget, ts, e.info, ctx);
      LinkList(code, ts, e.info, e.f, fs);
      LinkList(code, ts, e.info, jpc, pending);
      ElemsMember(pending);
      ElemsConcat(ts, [e.info]);
      assert Elems([e.info]) == {e.info};
      ElemsApart(ts, [e.info]);
      RelinkExits(v2, job.start, lasttarget, e.info, v2);
      LinkExits(v2, job.start, lasttarget, ts, e.info);
      t :- JmpAppend(e.t, e.info, ts, [e.info]);
      assert e.info in Elems(ts + [e.info]);
      st := Ok;
    }

    /** `expr_toreg` once the end of the code is a comparison. */
    method ToRegJmp(ghost job: Job, ghost ctx: set<int>, e: ExpDesc, ghost ts: seq<int>, ghost fs: seq<int>, reg: int) returns (st: Status)
      requires Sound(job, ctx, e, ts, fs, NO_REG) && e.k.VJmp? && 0 <= reg < MAX_SLOTS && Plain(job.goal)
      modifies this`code, this`jpc, this`pending, this`lasttarget
      ensures st.Ok? ==> Sound(job, ctx, InitExp(VNonReloc, reg), [], [], reg) && Kept(old(code), code, ctx)
      ensures st.Limit? ==> AtLimit()
    {
      hide Wf, Den;
      ghost var code0 := code;
      var t :- FileJump(job, ctx, e, ts, fs);
      ghost var code1 := code;
      :- ResolveInto(job, ctx, false, t, e.f, ts + [e.info], fs, reg);
      KeptTrans(code0, code1, code, ctx);
      st := Ok;
    }

    /** `expr_toreg` once the value is in its register at the end of the code. */
    method ToRegVal(ghost job: Job, ghost ctx: set<int>, e: ExpDesc, ghost ts: seq<int>, ghost fs: seq<int>, reg: int) returns (st: Status)
      requires Sound(job, ctx, e, ts, fs, reg) && e.k.VNonReloc? && e.info == reg && 0 <= reg < MAX_SLOTS && Plain(job.goal)
      modifies this`code, this`jpc, this`pending, this`lasttarget
      ensures st.Ok? ==> Sound(job, ctx, InitExp(VNonReloc, reg), [], [], reg) && Kept(old(code), code, ctx)
      ensures st.Limit? ==> AtLimit()
    {
      hide Wf, Den;
      WfFacts(See(ctx, EndOf(e), ts, fs), job.start, lasttarget);
      if HasJump(e) {
        :- ResolveInto(job, ctx, true, e.t, e.f, ts, fs, reg);
      } else {
        SameHead(code, e.t, ts, e.f, fs);
      }
      st := Ok;
    }

    method ExprToReg(ghost job: Job, ghost ctx: set<int>, e: ExpDesc, ghost ts: seq<int>, ghost fs: seq<int>, reg: int)
      returns (st: Status, d: ExpDesc)
      requires Sound(job, ctx, e, ts, fs, NO_REG) && 0 <= reg < MAX_SLOTS && Plain(job.goal)
      modifies this`code, this`jpc, this`pending, this`kn, this`kgc, this`lasttarget
      ensures st.Ok? ==> d == InitExp(VNonReloc, reg) && Sound(job, ctx, d, [], [], reg)
      ensures st.Ok? ==> Kept(old(code), code, ctx) && old(kn) <= kn && old(kgc) <= kgc
      ensures st.Limit? ==> AtLimit()
    {
      hide Wf, Den;
      ghost var code0 := code;
      d :- ExprToRegNoBranch(job, ctx, e, ts, fs, reg);
      ghost var code1 := code;
      if d.k.VJmp? {
        :- ToRegJmp(job, ctx, d, ts, fs, reg);
      } else {
        :- ToRegVal(job, ctx, d, ts, fs, reg);
      }
      KeptTrans(code0, code1, code, ctx);
      d := InitExp(VNonReloc, reg);
      st := Ok;
    }

    /** The register discipline between operands: everything below `base` is in
        use, and a temporary value sits right at `base`. */
    ghost predicate RegsOk(e: ExpDesc, base: int)
      reads this
    {
      && nactvar <= base
      && match e.k
         case VLocal => 0 <= e.info < nactvar && freereg == base
         case VNonReloc => (0 <= e.info < nactvar && freereg == base) || (e.info == base && freereg == base + 1)
         case _ => freereg == base
    }

    ghost predicate ExprOk(job: Job, ctx: set<int>, e: ExpDesc, ts: seq<int>, fs: seq<int>)
      reads this
    {
      Sound(job, ctx, e, ts, fs, NO_REG) && RegsOk(e, job.base) && Plain(job.goal)
    }

    /** The value is in a register, with nothing left to resolve. */
    ghost predicate InReg(job: Job, ctx: set<int>, d: ExpDesc)
      reads this
    {
      ExprOk(job, ctx, d, [], []) && d.k.VNonReloc? && d.t == NO_JMP && d.f == NO_JMP
    }

    method ExprFree(e: ExpDesc)
      requires Valid() && (e.k.VNonReloc? ==> e.info < freereg)
      modifies this`freereg
      ensures Valid() && freereg == old(freereg) - if e.k.VNonReloc? && e.info >= nactvar && e.info == old(freereg) - 1 then 1 else 0
    {
      if e.k.VNonReloc? {
        BcRegFree(e.info);
      }
    }

    method ExprToNextReg(ghost job: Job, ghost ctx: set<int>, e: ExpDesc, ghost ts: seq<int>, ghost fs: seq<int>)
      returns (st: Status, d: ExpDesc)
      requires ExprOk(job, ctx, e, ts, fs)
      modifies this`code, this`jpc, this`pending, this`kn, this`kgc, this`lasttarget, this`freereg, this`framesize
      ensures st.Ok? ==> d.info == job.base && InReg(job, ctx, d)
      ensures st.Ok? ==> Kept(old(code), code, ctx) && old(kn) <= kn && old(kgc) <= kgc
      ensures st.Limit? ==> AtLimit()
    {
      hide Wf, Den;
      ghost var code0 := code;
      d :- ExprDischarge(job, ctx, e, ts, fs);
      ghost var code1 := code;
      ExprFree(d);
      :- BcRegReserve(1);
      var reg := freereg - 1;
      d :- ExprToReg(job, ctx, d, ts, fs, reg);
      DenSkip(Now(job), See(ctx, EndOf(d), [], []), reg, NO_REG);
      KeptTrans(code0, code1, code, ctx);
      st := Ok;
    }

    method ExprToAnyReg(ghost job: Job, ghost ctx: set<int>, e: ExpDesc, ghost ts: seq<int>, ghost fs: seq<int>)
      returns (st: Status, d: ExpDesc)
      requires ExprOk(job, ctx, e, ts, fs)
      modifies this`code, this`jpc, this`pending, this`kn, this`kgc, this`lasttarget, this`freereg, this`framesize
      ensures st.Ok? ==> InReg(job, ctx, d)
      ensures st.Ok? ==> Kept(old(code), code, ctx) && old(kn) <= kn && old(kgc) <= kgc
      ensures st.Limit? ==> AtLimit()
    {
      hide Wf, Den;
      ghost var code0 := code;
      d :- ExprDischarge(job, ctx, e, ts, fs);
      ghost var code1 := code;
      if d.k.VNonReloc? {
        WfFacts(See(ctx, EndOf(d), ts, fs), job.start, lasttarget);
        if !HasJump(d) {
          SameHead(code, d.t, ts, d.f, fs);
          return Ok, d;
        }
        if d.info >= nactvar {
          var reg := d.info;
          d :- ExprToReg(job, ctx, d, ts, fs, reg);
          DenSkip(Now(job), See(ctx, EndOf(d), [], []), reg, NO_REG);
          KeptTrans(code0, code1, code, ctx);
          return Ok, d;
        }
      }
      d :- ExprToNextReg(job, ctx, d, ts, fs);
      KeptTrans(code0, code1, code, ctx);
      st := Ok;
    }

    method ExprToVal(ghost job: Job, ghost ctx: set<int>, e: ExpDesc, ghost ts: seq<int>, ghost fs: seq<int>)
      returns (st: Status, d: ExpDesc)
      requires ExprOk(job, ctx, e, ts, fs)
      modifies this`code, this`jpc, this`pending, this`kn, this`kgc, this`lasttarget, this`freereg, this`framesize
      ensures st.Ok? ==> ExprOk(job, ctx, d, [], []) && !HasJump(d) && !d.k.VLocal? && !d.k.VUpval?
      ensures st.Ok? ==> Kept(old(code), code, ctx) && old(kn) <= kn && old(kgc) <= kgc
      ensures st.Limit? ==> AtLimit()
    {
      hide Wf, Den;
      WfFacts(See(ctx, EndOf(e), ts, fs), job.start, lasttarget);
      if HasJump(e) {
        st, d := ExprToAnyReg(job, ctx, e, ts, fs);
      } else {
        SameHead(code, e.t, ts, e.f, fs);
        st, d := ExprDischarge(job, ctx, e, ts, fs);
      }
    }

    // -- Branches ------------------------------------------------------------------

    function ExitsFor(b: bool, cond: bool, list: seq<int>, ps: seq<int>): seq<int> {
      if b == cond then list + ps else list
    }

    /** A conditional jump on the truth `cond` of the value sits on the list `pc`,
        not yet appended to its list; falling through, the truth is the other. */
    ghost predicate Branched(job: Job, ctx: set<int>, cond: bool, end: End, pc: int, ps: seq<int>, t: int, f: int, ts: seq<int>, fs: seq<int>)
      reads this
    {
      && Valid() && IsList(code, pc, ps) && IsList(code, t, ts) && IsList(code, f, fs)
      && Elems(ps) !! Elems(ts) && Elems(ps) !! Elems(fs)
      && (end == Tested(!cond) || (end.Const? && Truthy(end.v) == !cond))
      && Wf(See(ctx, end, ExitsFor(true, cond, ts, ps), ExitsFor(false, cond, fs, ps)), job.start, lasttarget)
      && Den(Now(job), See(ctx, end, ExitsFor(true, cond, ts, ps), ExitsFor(false, cond, fs, ps)), NO_REG)
    }

    /** The code is that of `v` with a guard and its jump behind it. */
    lemma GuardedBy(job: Job, v: View, cond: bool, end2: End, g: Ins, jmp: Ins, t: int, f: int, ts: seq<int>, fs: seq<int>)
      requires Valid() && Wf(v, job.start, lasttarget) && Den(Now(job), v, NO_REG) && Plain(job.goal)
      requires v.ts == Elems(ts) && v.fs == Elems(fs) && IsList(v.code, t, ts) && IsList(v.code, f, fs)
      requires (v.end.Const? || v.end.Reg? || v.end.Ready?) && Emittable([g, jmp]) && JumpOf(jmp) == -1
      requires end2 == Tested(!cond) || (end2.Const? && Truthy(end2.v) == !cond)
      requires forall w :: Fits(w, kn, kgc) ==> Guards(w, v.end, g, cond, end2)
      requires code == Landed(v.code, v.js) + [g, jmp] && pending == []
      ensures var pc := |v.code| + 1; Branched(job, v.ctx, cond, end2, pc, [pc], t, f, ts, fs) && Kept(v.code, code, v.ctx)
    {
      hide Wf, Den;
      WfFacts(v, job.start, lasttarget);
      var pc := |v.code| + 1;
      assert Elems([pc]) == {pc} && Elems([]) == {} && pc !in Lists(v);
      ElemsConcat(ts, [pc]);
      ElemsConcat(fs, [pc]);
      Guard(Now(job), v, lasttarget, g, jmp, cond, See(v.ctx, end2, ExitsFor(true, cond, ts, [pc]), ExitsFor(false, cond, fs, [pc])));
      EmitList(v, job.start, lasttarget, [g, jmp], t, ts);
      EmitList(v, job.start, lasttarget, [g, jmp], f, fs);
      EmitKept(v, job.start, lasttarget, [g, jmp]);
    }

    /** Emits a guard and its jump. */
    method EmitGuard(ghost job: Job, ghost ctx: set<int>, ghost end: End, ghost cond: bool, ghost end2: End, g: Ins, t: int, f: int, ghost ts: seq<int>, ghost fs: seq<int>)
      returns (st: Status, pc: int)
      requires Half(job, ctx, end, t, f, ts, fs, NO_REG) && Plain(job.goal)
      requires (end.Const? || end.Reg? || end.Ready?) && IsGuard(g)
      requires end2 == Tested(!cond) || (end2.Const? && Truthy(end2.v) == !cond)
      requires forall w :: Fits(w, kn, kgc) ==> Guards(w, end, g, cond, end2)
      modifies this`code, this`jpc, this`pending
      ensures st.Ok? ==> Branched(job, ctx, cond, end2, pc, [pc], t, f, ts, fs) && Kept(old(code), code, ctx)
      ensures st.Limit? ==> AtLimit()
    {
      hide Wf, Den;
      ghost var v := See(ctx, end, ts, fs);
      WfFacts(v, job.start, lasttarget);
      pc := NO_JMP;
      var _ :- BcEmit(g);
      pc :- BcEmitJmp();
      GuardedBy(job, v, cond, end2, g, MakeJump(freereg, -1), t, f, ts, fs);
      st := Ok;
    }

    /** Replaces the relocatable load at the end of the code by a guard. */
    method GuardInPlace(ghost job: Job, ghost ctx: set<int>, ghost cond: bool, e: ExpDesc, g: Ins, ghost ts: seq<int>, ghost fs: seq<int>)
      returns (st: Status, pc: int)
      requires Sound(job, ctx, e, ts, fs, NO_REG) && e.k.VRelocable? && Plain(job.goal) && IsGuard(g)
      requires forall w :: Fits(w, kn, kgc) ==> Guards(w, Ready(code[e.info]), g, cond, Tested(!cond))
      modifies this`code, this`jpc, this`pending
      ensures st.Ok? ==> Branched(job, ctx, cond, Tested(!cond), pc, [pc], e.t, e.f, ts, fs) && Kept(old(code), code, ctx)
      ensures st.Limit? ==> AtLimit()
    {
      hide Wf, Den, Guards;
      pc := NO_JMP;
      ghost var v := See(ctx, EndOf(e), ts, fs);
      HangingFacts(v, job.start, lasttarget);
      BackFrame(v, job.start, lasttarget, e.t, ts);
      BackFrame(v, job.start, lasttarget, e.f, fs);
      TakeBack(Now(job), v, lasttarget);
      LandedNone(Back(v).code);
      ElemsMember(pending);
      code := code[e.info := g];
      pc :- BcEmitJmp();
      GuardedBy(job, Back(v), cond, Tested(!cond), g, MakeJump(freereg, -1), e.t, e.f, ts, fs);
      KeptBack(v, job.start, lasttarget, code);
      st := Ok;
    }

    /** Tests a register. */
    method BranchOnReg(ghost job: Job, ghost ctx: set<int>, e: ExpDesc, cond: bool, ghost ts: seq<int>, ghost fs: seq<int>) returns (st: Status, pc: int)
      requires ExprOk(job, ctx, e, ts, fs) && e.k.VNonReloc?
      modifies this`code, this`jpc, this`pending, this`freereg
      ensures st.Ok? ==> Branched(job, ctx, cond, Tested(!cond), pc, [pc], e.t, e.f, ts, fs) && freereg == job.base
      ensures st.Ok? ==> Kept(old(code), code, ctx)
      ensures st.Limit? ==> AtLimit()
    {
      hide Wf, Den, Guards;
      var g := Ins(if cond then ISTC else ISFC, NO_REG, e.info);
      ghost var end2 := Tested(!cond);
      forall w: World ensures Guards(w, Reg(e.info), g, cond, end2) { TestGuards(w, e.info, cond); }
      pc :- EmitGuard(job, ctx, EndOf(e), cond, end2, g, e.t, e.f, ts, fs);
      ExprFree(e);
      st := Ok;
    }

    method BcEmitBranch(ghost job: Job, ghost ctx: set<int>, e: ExpDesc, cond: bool, ghost ts: seq<int>, ghost fs: seq<int>) returns (st: Status, pc: int)
      requires ExprOk(job, ctx, e, ts, fs) && (e.k.VRelocable? || e.k.VNonReloc?)
      modifies this`code, this`jpc, this`pending, this`kn, this`kgc, this`freereg, this`framesize
      ensures st.Ok? ==> Branched(job, ctx, cond, Tested(!cond), pc, [pc], e.t, e.f, ts, fs) && freereg == job.base
      ensures st.Ok? ==> Kept(old(code), code, ctx) && old(kn) <= kn && old(kgc) <= kgc
      ensures st.Limit? ==> AtLimit()
    {
      hide Wf, Den, Guards;
      ghost var code0 := code;
      var d := e;
      if e.k.VRelocable? {
        HangingFacts(See(ctx, EndOf(e), ts, fs), job.start, lasttarget);
        if code[e.info].op == NOT {
          var not := code[e.info];
          var g := Ins(if cond then ISF else IST, 0, not.d);
          ghost var end2 := Tested(!cond);
          forall w: World ensures Guards(w, Ready(not), g, cond, end2) { NotGuards(w, not, cond); }
          st, pc := GuardInPlace(job, ctx, cond, e, g, ts, fs);
          return;
        }
      }
      pc := NO_JMP;
      if !d.k.VNonReloc? {
        :- BcRegReserve(1);
        var reg := freereg - 1;
        d :- ExprToRegNoBranch(job, ctx, d, ts, fs, reg);
        DenSkip(Now(job), See(ctx, EndOf(d), ts, fs), reg, NO_REG);
      }
      ghost var code1 := code;
      pc :- BranchOnReg(job, ctx, d, cond, ts, fs);
      KeptTrans(code0, code1, code, ctx);
      st := Ok;
    }

    /** A constant whose truth takes the branch: loaded without a register in
        front of the jump. */
    method BranchOnConst(ghost job: Job, ghost ctx: set<int>, e: ExpDesc, ghost cond: bool, ghost ts: seq<int>, ghost fs: seq<int>) returns (st: Status, pc: int)
      requires ExprOk(job, ctx, e, ts, fs) && IsConst(e) && Truthy(EndOf(e).v) == cond
      modifies this`code, this`jpc, this`pending, this`kn, this`kgc
      ensures st.Ok? ==> Branched(job, ctx, cond, Tested(!cond), pc, [pc], e.t, e.f, ts, fs)
      ensures st.Ok? ==> Kept(old(code), code, ctx) && old(kn) <= kn && old(kgc) <= kgc
      ensures st.Limit? ==> AtLimit()
    {
      hide Wf, Den, Guards;
      pc := NO_JMP;
      var ins := ConstIns(job, ctx, e, ts, fs, NO_REG);
      ConstGuards(Now(job), EndOf(e).v, ins, cond);
      pc :- EmitGuard(job, ctx, EndOf(e), cond, Tested(!cond), ins, e.t, e.f, ts, fs);
      st := Ok;
    }

    method InvertCond(e: ExpDesc)
      requires 0 < e.info < |code|
      modifies this`code
      ensures code == old(code)[e.info - 1 := Inverted(old(code)[e.info - 1])]
    {
      var pc := e.info - 1;
      var op := code[pc].op;
      code := code[pc := code[pc].(op := if op % 2 == 0 then op + 1 else op - 1)];
    }

    /** The jump of a comparison, inverted when it must be taken on false. */
    method BranchOnJmp(ghost job: Job, ghost ctx: set<int>, e: ExpDesc, cond: bool, ghost ts: seq<int>, ghost fs: seq<int>) returns (pc: int)
      requires ExprOk(job, ctx, e, ts, fs) && e.k.VJmp?
      modifies this`code
      ensures Branched(job, ctx, cond, Const(Bool(!cond)), pc, [pc], e.t, e.f, ts, fs) && Kept(old(code), code, ctx)
    {
      hide Wf, Den, Guards;
      ghost var v := See(ctx, EndOf(e), ts, fs);
      HangingFacts(v, job.start, lasttarget);
      ghost var cmp, jmp := code[e.info - 1], code[e.info];
      BackFrame(v, job.start, lasttarget, e.t, ts);
      BackFrame(v, job.start, lasttarget, e.f, fs);
      TakeBack(Now(job), v, lasttarget);
      LandedNone(Back(v).code);
      ElemsMember(pending);
      if !cond {
        InvertCond(e);
      }
      pc := e.info;
      ghost var g := if cond then cmp else Inverted(cmp);
      ghost var end2 := Const(Bool(!cond));
      forall w: World ensures Guards(w, Ready(cmp), g, cond, end2) { CompareGuards(w, cmp, cond); }
      GuardedBy(job, Back(v), cond, end2, g, jmp, e.t, e.f, ts, fs);
      KeptBack(v, job.start, lasttarget, code);
    }

    /** The state behind a branch: the exits taken on truth `cond` are on the
        list `l`, and control goes on where the truth is the other. */
    ghost predicate Decided(job: Job, ctx: set<int>, cond: bool, l: int, ls: seq<int>)
      reads this
    {
      Half(job, ctx, Tested(!cond), if cond then l else NO_JMP, if cond then NO_JMP else l, if cond then ls else [], if cond then [] else ls, NO_REG)
    }

    /** Appends the branch to the exits it belongs to and lets the other exits
        go on behind it. */
    method AppendBranch(ghost job: Job, ghost ctx: set<int>, cond: bool, ghost end: End, pc: int, ghost ps: seq<int>, t: int, f: int, ghost ts: seq<int>, ghost fs: seq<int>)
      returns (st: Status, l: int, ghost ls: seq<int>)
      requires Branched(job, ctx, cond, end, pc, ps, t, f, ts, fs) && Plain(job.goal)
      modifies this`code
      ensures st.Ok? ==> ls == (if cond then ts else fs) + ps && Kept(old(code), code, ctx)
      ensures st.Ok? ==> Half(job, ctx, end, if cond then l else t, if cond then f else l, if cond then ls else ts, if cond then fs else ls, NO_REG)
      ensures st.Limit? ==> AtLimit()
    {
      hide Wf, Den;
      l, ls := NO_JMP, (if cond then ts else fs) + ps;
      ghost var v := See(ctx, end, ExitsFor(true, cond, ts, ps), ExitsFor(false, cond, fs, ps));
      ghost var ks, os := if cond then ts else fs, if cond then fs else ts;
      WfFacts(v, job.start, lasttarget);
      ElemsConcat(ks, ps);
      LinkView(Now(job), v, lasttarget, NO_REG, ks, pc);
      LinkKept(v, job.start, lasttarget, ks, pc, ctx);
      LinkList(code, ks, pc, if cond then f else t, os);
      LinkList(code, ks, pc, jpc, pending);
      ElemsApart(ks, ps);
      if cond {
        l :- JmpAppend(t, pc, ts, ps);
      } else {
        l :- JmpAppend(f, pc, fs, ps);
      }
      st := Ok;
    }

    method FinishBranch(ghost job: Job, ghost ctx: set<int>, cond: bool, ghost end: End, pc: int, ghost ps: seq<int>, t: int, f: int, ghost ts: seq<int>, ghost fs: seq<int>)
      returns (st: Status, l: int, ghost ls: seq<int>)
      requires Branched(job, ctx, cond, end, pc, ps, t, f, ts, fs) && Plain(job.goal)
      modifies this`code, this`lasttarget, this`jpc, this`pending
      ensures st.Ok? ==> Decided(job, ctx, cond, l, ls) && Kept(old(code), code, ctx)
      ensures st.Limit? ==> AtLimit()
    {
      hide Wf, Den;
      ghost var code0 := code;
      l, ls :- AppendBranch(job, ctx, cond, end, pc, ps, t, f, ts, fs);
      ghost var code1, os := code, if cond then fs else ts;
      ghost var v := See(ctx, end, if cond then ls else ts, if cond then fs else ls);
      ghost var v2 := v.(code := Linked(v.code, pending, if cond then f else t));
      WfFacts(v, job.start, lasttarget);
      LinkView(Now(job), v, lasttarget, NO_REG, pending, if cond then f else t);
      LinkKept(v, job.start, lasttarget, pending, if cond then f else t, ctx);
      LinkList(code, pending, if cond then f else t, l, ls);
      ElemsApart(pending, os);
      ElemsConcat(pending, os);
      Join(Now(job), v2, lasttarget, !cond,
           if cond then v2.(js := v2.js + v2.fs, fs := {}, end := Tested(false)) else v2.(js := v2.js + v2.ts, ts := {}, end := Tested(true)));
      if cond {
        :- JmpToHere(f, fs);
      } else {
        :- JmpToHere(t, ts);
      }
      assert Elems([]) == {};
      KeptTrans(code0, code1, code, ctx);
      st := Ok;
    }

    method BcEmitBranchT(ghost job: Job, ghost ctx: set<int>, e: ExpDesc, ghost ts: seq<int>, ghost fs: seq<int>) returns (st: Status, f: int, ghost ls: seq<int>)
      requires ExprOk(job, ctx, e, ts, fs)
      modifies this`code, this`jpc, this`pending, this`kn, this`kgc, this`lasttarget, this`freereg, this`framesize
      ensures st.Ok? ==> Decided(job, ctx, false, f, ls) && freereg == job.base
      ensures st.Ok? ==> Kept(old(code), code, ctx) && old(kn) <= kn && old(kgc) <= kgc
      ensures st.Limit? ==> AtLimit()
    {
      hide Wf, Den, Guards;
      f, ls := NO_JMP, [];
      ghost var code0 := code;
      var d :- ExprDischarge(job, ctx, e, ts, fs);
      ghost var code1 := code;
      var pc := NO_JMP;
      ghost var ps: seq<int>, end := [], Tested(true);
      if d.k.VKStr? || d.k.VKNum? || d.k.VKTrue? {
        NoBranch(job, ctx, false, d, ts, fs);
        end := EndOf(d);
      } else if d.k.VJmp? {
        pc := BranchOnJmp(job, ctx, d, false, ts, fs);
        ps, end := [pc], Const(True);
      } else if d.k.VKFalse? || d.k.VKNil? {
        pc :- BranchOnConst(job, ctx, d, false, ts, fs);
        ps := [pc];
      } else {
        pc :- BcEmitBranch(job, ctx, d, false, ts, fs);
        ps := [pc];
      }
      ghost var code2 := code;
      f, ls :- FinishBranch(job, ctx, false, end, pc, ps, d.t, d.f, ts, fs);
      KeptTrans(code0, code1, code2, ctx);
      KeptTrans(code0, code2, code, ctx);
      st := Ok;
    }

    method BcEmitBranchF(ghost job: Job, ghost ctx: set<int>, e: ExpDesc, ghost ts: seq<int>, ghost fs: seq<int>) returns (st: Status, t: int, ghost ls: seq<int>)
      requires ExprOk(job, ctx, e, ts, fs)
      modifies this`code, this`jpc, this`pending, this`kn, this`kgc, this`lasttarget, this`freereg, this`framesize
      ensures st.Ok? ==> Decided(job, ctx, true, t, ls) && freereg == job.base
      ensures st.Ok? ==> Kept(old(code), code, ctx) && old(kn) <= kn && old(kgc) <= kgc
      ensures st.Limit? ==> AtLimit()
    {
      hide Wf, Den, Guards;
      t, ls := NO_JMP, [];
      ghost var code0 := code;
      var d :- ExprDischarge(job, ctx, e, ts, fs);
      ghost var code1 := code;
      var pc := NO_JMP;
      ghost var ps: seq<int>, end := [], Tested(false);
      if d.k.VKNil? || d.k.VKFalse? {
        NoBranch(job, ctx, true, d, ts, fs);
        end := EndOf(d);
      } else if d.k.VJmp? {
        pc := BranchOnJmp(job, ctx, d, true, ts, fs);
        ps, end := [pc], Const(False);
      } else if d.k.VKStr? || d.k.VKNum? || d.k.VKTrue? {
        pc :- BranchOnConst(job, ctx, d, true, ts, fs);
        ps := [pc];
      } else {
        pc :- BcEmitBranch(job, ctx, d, true, ts, fs);
        ps := [pc];
      }
      ghost var code2 := code;
      t, ls :- FinishBranch(job, ctx, true, end, pc, ps, d.t, d.f, ts, fs);
      KeptTrans(code0, code1, code2, ctx);
      KeptTrans(code0, code2, code, ctx);
      st := Ok;
    }

    /** A constant that never takes the branch needs no jump. */
    lemma NoBranch(job: Job, ctx: set<int>, cond: bool, e: ExpDesc, ts: seq<int>, fs: seq<int>)
      requires ExprOk(job, ctx, e, ts, fs) && IsConst(e) && Truthy(EndOf(e).v) == !cond
      ensures Branched(job, ctx, cond, EndOf(e), NO_JMP, [], e.t, e.f, ts, fs)
    {
      assert ts + [] == ts && fs + [] == fs;
    }

    // -- Comparisons ---------------------------------------------------------------

    /** The left operand of a comparison while the right one is compiled: a
        constant, or a register below the base of the right operand. */
    ghost predicate LeftOk(job: Job, inner: Job, e: ExpDesc, a: Expr)
      reads this
    {
      && (IsConst(e) || e.k.VNonReloc?) && !HasJump(e) && Held(kn, kgc, job, inner, EndOf(e), a)
      && Scoped(a, nactvar) && nactvar <= job.base
      && (e.k.VNonReloc? ==> (0 <= e.info < nactvar && inner.base == job.base) || (e.info == job.base && inner.base == job.base + 1))
      && (!e.k.VNonReloc? ==> inner.base == job.base)
    }

    /** `bcemit_binop_left` for comparisons: only constants stay out of registers. */
    method CompareLeft(ghost job: Job, ghost ctx: set<int>, op: CmpOp, e: ExpDesc, ghost ts: seq<int>, ghost fs: seq<int>)
      returns (st: Status, d: ExpDesc)
      requires ExprOk(job, ctx, e, ts, fs)
      modifies this`code, this`jpc, this`pending, this`kn, this`kgc, this`lasttarget, this`freereg, this`framesize
      ensures st.Ok? ==> ExprOk(job, ctx, d, [], []) && !HasJump(d) && (d.k.VNonReloc? || (IsConst(d) && (op.Eq? || op.Ne? || d.k.VKNum?)))
      ensures st.Ok? ==> Kept(old(code), code, ctx) && old(kn) <= kn && old(kgc) <= kgc
      ensures st.Limit? ==> AtLimit()
    {
      hide Wf, Den;
      d := e;
      WfFacts(See(ctx, EndOf(e), ts, fs), job.start, lasttarget);
      SameHead(code, e.t, ts, e.f, fs);
      if op.Eq? || op.Ne? {
        if !(IsConst(e) && !HasJump(e)) {
          d :- ExprToAnyReg(job, ctx, e, ts, fs);
        }
      } else if !(e.k.VKNum? && !HasJump(e)) {
        d :- ExprToAnyReg(job, ctx, e, ts, fs);
      }
      st := Ok;
    }

    /** The constant that operand D of an equality test names. */
    predicate ConstAt(e: ExpDesc, idx: int)
      reads this
    {
      if e.k.VKStr? then 0 <= idx < |kgc| && kgc[idx] == e.sval
      else if e.k.VKNum? then 0 <= idx < |kn| && kn[idx] == e.nval
      else idx == if e.k.VKNil? then 0 else if e.k.VKFalse? then 1 else 2
    }

    /** Operand D of an equality test against a constant. */
    method ConstOperand(ghost job: Job, ghost ctx: set<int>, ghost end: End, e: ExpDesc) returns (idx: int)
      requires IsConst(e) && Half(job, ctx, end, NO_JMP, NO_JMP, [], [], NO_REG)
      modifies this`kn, this`kgc
      ensures old(kn) <= kn && old(kgc) <= kgc && Half(job, ctx, end, NO_JMP, NO_JMP, [], [], NO_REG)
      ensures ConstAt(e, idx)
    {
      hide Wf, Den;
      ghost var job0 := Now(job);
      if e.k.VKStr? {
        idx := ConstStr(e.sval);
      } else if e.k.VKNum? {
        idx := ConstNum(e.nval);
      } else {
        idx := if e.k.VKNil? then 0 else if e.k.VKFalse? then 1 else 2;
      }
      DenGrown(job0, Now(job), See(ctx, end, [], []), NO_REG);
    }

    function EqOp(op: CmpOp, k: ExpKind): int {
      (if op.Eq? then ISEQV else ISNEV) + match k
        case VKStr => ISEQS - ISEQV
        case VKNum => ISEQN - ISEQV
        case VKNil => ISEQP - ISEQV
        case VKFalse => ISEQP - ISEQV
        case VKTrue => ISEQP - ISEQV
        case _ => 0
    }

    /** Emits the comparison and its jump once both operands are in place. */
    method EmitComp(ghost job: Job, ghost inner: Job, ghost ctx: set<int>, ghost end: End, ghost endX: End, ghost x: Expr, ghost y: Expr, ghost z: Expr,
                    ghost first: bool, ins: Ins)
      returns (st: Status, e: ExpDesc)
      requires Half(Aim(inner, y), ctx, end, NO_JMP, NO_JMP, [], [], NO_REG) && (end.Const? || end.Reg?)
      requires Held(kn, kgc, job, inner, endX, x) && Scoped(y, job.base) && IsCompare(ins.op) && 0 <= ins.a < MAX_SLOTS
      requires forall w, s :: Fits(w, kn, kgc) ==> Decides(w, ins, endX, end, s, x, y, z, first)
      requires freereg == job.base && nactvar <= job.base
      modifies this`code, this`jpc, this`pending
      ensures st.Ok? ==> ExprOk(Aim(job, z), ctx, e, [], []) && Kept(old(code), code, ctx) && e.k.VJmp? && !HasJump(e)
      ensures st.Limit? ==> AtLimit()
    {
      hide Wf, Den, Decides, Held;
      ghost var v := See(ctx, end, [], []);
      ghost var v2 := v.(end := Ready(ins));
      assert Held(kn, kgc, Now(job), Now(inner), endX, x) by { SameHeld(kn, kgc, job, inner, Now(job), Now(inner), endX, x); }
      HeldStart(kn, kgc, job, inner, endX, x);
      CompareReady(Now(job), Now(inner), v, lasttarget, endX, x, y, ins, z, first);
      WfFacts(v, job.start, lasttarget);
      e := InitExp(VJmp, NO_JMP);
      assert Elems([]) == {};
      var _ :- BcEmit(ins);
      var pc :- BcEmitJmp();
      e := InitExp(VJmp, pc);
      var jmp := MakeJump(freereg, -1);
      assert code == Landed(v.code, v.js) + [ins, jmp];
      HangCompare(Aim(Now(job), z), v2, lasttarget, jmp, See(ctx, Cond(pc), [], []));
      EmitKept(v, job.start, lasttarget, [ins, jmp]);
      AimPlain(job, z);
      st := Ok;
    }

    /** Releases the temporaries of both operands. */
    method FreeOperands(e1: ExpDesc, e2: ExpDesc)
      modifies this`freereg
      ensures freereg == old(freereg) - (if e1.k.VNonReloc? && e1.info >= nactvar then 1 else 0) - (if e2.k.VNonReloc? && e2.info >= nactvar then 1 else 0)
    {
      if e1.k.VNonReloc? && e1.info >= nactvar {
        freereg := freereg - 1;
      }
      if e2.k.VNonReloc? && e2.info >= nactvar {
        freereg := freereg - 1;
      }
    }

    /** `==` and `~=` with a constant on the left: it goes to the right. */
    method CompEqSwapped(ghost job: Job, ghost inner: Job, ghost ctx: set<int>, op: CmpOp, e1: ExpDesc, e2: ExpDesc, ghost a: Expr, ghost b: Expr,
                         ghost ts: seq<int>, ghost fs: seq<int>)
      returns (st: Status, e: ExpDesc)
      requires ExprOk(Aim(inner, b), ctx, e2, ts, fs) && LeftOk(job, inner, e1, a) && Scoped(b, nactvar) && (op.Eq? || op.Ne?) && IsConst(e1)
      modifies this`code, this`jpc, this`pending, this`kn, this`kgc, this`lasttarget, this`freereg, this`framesize
      ensures st.Ok? ==> ExprOk(Aim(job, Compare(op, a, b)), ctx, e, [], []) && e.k.VJmp? && !HasJump(e)
      ensures st.Ok? ==> Kept(old(code), code, ctx) && old(kn) <= kn && old(kgc) <= kgc
      ensures st.Limit? ==> AtLimit()
    {
      hide Wf, Den, Decides, Held;
      e := e1;
      ghost var code0, kn0, ks0 := code, kn, kgc;
      ghost var z := Compare(op, a, b);
      ScopedMore(b, nactvar, job.base);
      var d :- ExprToAnyReg(Aim(inner, b), ctx, e2, ts, fs);
      ghost var code1 := code;
      var idx := ConstOperand(Aim(inner, b), ctx, EndOf(d), e1);
      var ins := Ins(EqOp(op, e1.k), d.info, idx);
      HeldGrown(kn0, ks0, kn, kgc, job, inner, EndOf(e1), a);
      FreeOperands(d, e1);
      forall w, s | Fits(w, kn, kgc) ensures Decides(w, ins, EndOf(e1), EndOf(d), s, a, b, z, true) {
        EqConst(w, ins, op, e1, d.info, s);
        DecidesEq(w, ins, EndOf(e1), EndOf(d), s, a, b, z);
      }
      e :- EmitComp(job, inner, ctx, EndOf(d), EndOf(e1), a, b, z, true, ins);
      KeptTrans(code0, code1, code, ctx);
      st := Ok;
    }

    /** The right operand of an equality test: a constant index or a register. */
    method EqOperand(ghost job: Job, ghost ctx: set<int>, op: CmpOp, ra: int, e2: ExpDesc, ghost ts: seq<int>, ghost fs: seq<int>)
      returns (st: Status, d: ExpDesc, ins: Ins)
      requires ExprOk(job, ctx, e2, ts, fs)
      modifies this`code, this`jpc, this`pending, this`kn, this`kgc, this`lasttarget, this`freereg, this`framesize
      ensures st.Ok? ==> ExprOk(job, ctx, d, [], []) && (IsConst(d) || d.k.VNonReloc?)
      ensures st.Ok? ==> ins.op == EqOp(op, d.k) && ins.a == ra && if IsConst(d) then ConstAt(d, ins.d) else ins.d == d.info
      ensures st.Ok? ==> Half(job, ctx, EndOf(d), NO_JMP, NO_JMP, [], [], NO_REG)
      ensures st.Ok? ==> Kept(old(code), code, ctx) && old(kn) <= kn && old(kgc) <= kgc
      ensures st.Limit? ==> AtLimit()
    {
      hide Wf, Den;
      ghost var code0 := code;
      ins := Ins(EqOp(op, VNonReloc), ra, 0);
      d :- ExprToVal(job, ctx, e2, ts, fs);
      ghost var code1 := code;
      if IsConst(d) {
        var idx := ConstOperand(job, ctx, EndOf(d), d);
        ins := Ins(EqOp(op, d.k), ra, idx);
      } else {
        d :- ExprToAnyReg(job, ctx, d, [], []);
        ins := Ins(EqOp(op, d.k), ra, d.info);
      }
      KeptTrans(code0, code1, code, ctx);
      st := Ok;
    }

    method CompEq(ghost job: Job, ghost inner: Job, ghost ctx: set<int>, op: CmpOp, e1: ExpDesc, e2: ExpDesc, ghost a: Expr, ghost b: Expr,
                  ghost ts: seq<int>, ghost fs: seq<int>)
      returns (st: Status, e: ExpDesc)
      requires ExprOk(Aim(inner, b), ctx, e2, ts, fs) && LeftOk(job, inner, e1, a) && Scoped(b, nactvar) && (op.Eq? || op.Ne?)
      modifies this`code, this`jpc, this`pending, this`kn, this`kgc, this`lasttarget, this`freereg, this`framesize
      ensures st.Ok? ==> ExprOk(Aim(job, Compare(op, a, b)), ctx, e, [], []) && e.k.VJmp? && !HasJump(e)
      ensures st.Ok? ==> Kept(old(code), code, ctx) && old(kn) <= kn && old(kgc) <= kgc
      ensures st.Limit? ==> AtLimit()
    {
      hide Wf, Den, Decides, Held;
      if IsConst(e1) {
        st, e := CompEqSwapped(job, inner, ctx, op, e1, e2, a, b, ts, fs);
        return;
      }
      e := e1;
      ghost var code0, kn0, ks0 := code, kn, kgc;
      ghost var z := Compare(op, a, b);
      ScopedMore(b, nactvar, job.base);
      var d, ins :- EqOperand(Aim(inner, b), ctx, op, e1.info, e2, ts, fs);
      ghost var code1 := code;
      HeldGrown(kn0, ks0, kn, kgc, job, inner, EndOf(e1), a);
      FreeOperands(e1, d);
      forall w, s | Fits(w, kn, kgc) ensures Decides(w, ins, EndOf(e1), EndOf(d), s, a, b, z, true) {
        EqHolds(w, ins, op, e1, d, s);
        DecidesEq(w, ins, EndOf(e1), EndOf(d), s, a, b, z);
      }
      e :- EmitComp(job, inner, ctx, EndOf(d), EndOf(e1), a, b, z, true, ins);
      KeptTrans(code0, code1, code, ctx);
      st := Ok;
    }

    lemma EqHolds(w: World, ins: Ins, op: CmpOp, e1: ExpDesc, d: ExpDesc, s: Regs)
      requires (op.Eq? || op.Ne?) && Fits(w, kn, kgc) && ins.op == EqOp(op, d.k) && ins.a == e1.info && e1.k.VNonReloc?
      requires if IsConst(d) then ConstAt(d, ins.d) else d.k.VNonReloc? && ins.d == d.info
      ensures Holds(w, ins, s) == (w.eq(EndValue(w, EndOf(e1), s), EndValue(w, EndOf(d), s)) == op.Eq?)
    {
      if IsConst(d) { EqConst(w, ins, op, d, e1.info, s); } else { EqReg(w, ins, op, e1.info, d.info, s); }
    }

    lemma EqConst(w: World, ins: Ins, op: CmpOp, c: ExpDesc, ra: int, s: Regs)
      requires (op.Eq? || op.Ne?) && IsConst(c) && Fits(w, kn, kgc) && ins.op == EqOp(op, c.k) && ins.a == ra
      requires ConstAt(c, ins.d)
      ensures Holds(w, ins, s) == (w.eq(Get(s, ra), EndOf(c).v) == op.Eq?)
      ensures w.eq(Get(s, ra), EndOf(c).v) == w.eq(EndOf(c).v, Get(s, ra))
    {
    }

    lemma EqReg(w: World, ins: Ins, op: CmpOp, ra: int, rd: int, s: Regs)
      requires (op.Eq? || op.Ne?) && ins == Ins(EqOp(op, VNonReloc), ra, rd)
      ensures Holds(w, ins, s) == (w.eq(Get(s, ra), Get(s, rd)) == op.Eq?)
    {
    }

    /** The left constant of an ordering, loaded behind the right operand. */
    method LoadLeft(ghost job: Job, ghost inner: Job, ghost ctx: set<int>, e1: ExpDesc, d: ExpDesc, ghost a: Expr, ghost b: Expr)
      returns (st: Status, c: ExpDesc, ghost next: Job)
      requires InReg(Aim(inner, b), ctx, d) && LeftOk(job, inner, e1, a) && Scoped(b, nactvar) && IsConst(e1)
      modifies this`code, this`jpc, this`pending, this`kn, this`kgc, this`lasttarget, this`freereg, this`framesize
      ensures st.Ok? ==> InReg(Aim(next, a), ctx, c) && Held(kn, kgc, job, next, EndOf(d), b) && next.base == old(freereg) && next.start == job.start
      ensures st.Ok? ==> Kept(old(code), code, ctx) && old(kn) <= kn && old(kgc) <= kgc
      ensures st.Limit? ==> AtLimit()
    {
      hide Wf, Den, Held;
      ghost var v := See(ctx, EndOf(d), [], []);
      ghost var kn0, ks0 := kn, kgc;
      next := Behind(inner, v, freereg);
      c := e1.(t := NO_JMP, f := NO_JMP);
      HeldStart(kn, kgc, job, inner, EndOf(e1), a);
      SameHeld(kn, kgc, job, inner, Now(job), Now(inner), EndOf(e1), a);
      ScopedMore(a, nactvar, job.base);
      ScopedMore(b, nactvar, job.base);
      ConstLeaf(Now(job), Now(inner), v, lasttarget, EndOf(e1).v, a, b, freereg);
      SameHeld(kn, kgc, Now(job), Behind(Now(inner), v, freereg), job, next, EndOf(d), b);
      AimPlain(next, a);
      c :- ExprToAnyReg(Aim(next, a), ctx, c, [], []);
      HeldGrown(kn0, ks0, kn, kgc, job, next, EndOf(d), b);
      st := Ok;
    }

    /** `<`, `<=`, `>`, `>=`: the last two swap their operands. */
    method CompOrder(ghost job: Job, ghost inner: Job, ghost ctx: set<int>, op: CmpOp, e1: ExpDesc, e2: ExpDesc, ghost a: Expr, ghost b: Expr,
                     ghost ts: seq<int>, ghost fs: seq<int>)
      returns (st: Status, e: ExpDesc)
      requires ExprOk(Aim(inner, b), ctx, e2, ts, fs) && LeftOk(job, inner, e1, a) && Scoped(b, nactvar) && !op.Eq? && !op.Ne?
      modifies this`code, this`jpc, this`pending, this`kn, this`kgc, this`lasttarget, this`freereg, this`framesize
      ensures st.Ok? ==> ExprOk(Aim(job, Compare(op, a, b)), ctx, e, [], []) && e.k.VJmp? && !HasJump(e)
      ensures st.Ok? ==> Kept(old(code), code, ctx) && old(kn) <= kn && old(kgc) <= kgc
      ensures st.Limit? ==> AtLimit()
    {
      hide Wf, Den, Decides, Held, AimGoal, Kept;
      e := e1;
      ghost var code0, kn0, ks0 := code, kn, kgc;
      ScopedMore(a, nactvar, job.base);
      ScopedMore(b, nactvar, job.base);
      var d :- OrderOperand(Aim(inner, b), ctx, op, e2, ts, fs);
      ghost var code1 := code;
      HeldGrown(kn0, ks0, kn, kgc, job, inner, EndOf(e1), a);
      if IsConst(e1) {
        e :- CompLoaded(job, inner, ctx, op, e1, d, a, b);
      } else {
        var ins := OrderIns(op, e1.info, d.info);
        FreeOperands(e1, d);
        OrderDecides(kn, kgc, ins, op, e1.info, d.info, a, b);
        e :- EmitComp(job, inner, ctx, EndOf(d), EndOf(e1), a, b, Compare(op, a, b), true, ins);
      }
      KeptTrans(code0, code1, code, ctx);
      st := Ok;
    }

    /** An ordering whose left operand is a constant: it is loaded last. */
    method CompLoaded(ghost job: Job, ghost inner: Job, ghost ctx: set<int>, op: CmpOp, e1: ExpDesc, d: ExpDesc, ghost a: Expr, ghost b: Expr)
      returns (st: Status, e: ExpDesc)
      requires InReg(Aim(inner, b), ctx, d) && LeftOk(job, inner, e1, a) && Scoped(b, nactvar) && IsConst(e1) && !op.Eq? && !op.Ne?
      modifies this`code, this`jpc, this`pending, this`kn, this`kgc, this`lasttarget, this`freereg, this`framesize
      ensures st.Ok? ==> ExprOk(Aim(job, Compare(op, a, b)), ctx, e, [], []) && e.k.VJmp? && !HasJump(e)
      ensures st.Ok? ==> Kept(old(code), code, ctx) && old(kn) <= kn && old(kgc) <= kgc
      ensures st.Limit? ==> AtLimit()
    {
      hide Wf, Den, Decides, Held, AimGoal, Kept;
      e := e1;
      ScopedMore(a, nactvar, job.base);
      ScopedMore(b, nactvar, job.base);
      ghost var code0 := code;
      var c; ghost var next;
      c, next :- LoadLeft(job, inner, ctx, e1, d, a, b);
      ghost var code1 := code;
      var ins := OrderIns(op, c.info, d.info);
      FreeOperands(c, d);
      OrderDecides(kn, kgc, ins, op, c.info, d.info, a, b);
      e :- EmitComp(job, next, ctx, EndOf(c), EndOf(d), b, a, Compare(op, a, b), false, ins);
      KeptTrans(code0, code1, code, ctx);
      st := Ok;
    }

    method OrderOperand(ghost job: Job, ghost ctx: set<int>, op: CmpOp, e2: ExpDesc, ghost ts: seq<int>, ghost fs: seq<int>)
      returns (st: Status, d: ExpDesc)
      requires ExprOk(job, ctx, e2, ts, fs)
      modifies this`code, this`jpc, this`pending, this`kn, this`kgc, this`lasttarget, this`freereg, this`framesize
      ensures st.Ok? ==> InReg(job, ctx, d) && Kept(old(code), code, ctx) && old(kn) <= kn && old(kgc) <= kgc
      ensures st.Limit? ==> AtLimit()
    {
      hide Wf, Den;
      ghost var code0 := code;
      d := e2;
      ghost var ts1, fs1 := ts, fs;
      if op.Ge? || op.Gt? {
        d :- ExprToVal(job, ctx, d, ts, fs);
        ts1, fs1 := [], [];
      }
      ghost var code1 := code;
      d :- ExprToAnyReg(job, ctx, d, ts1, fs1);
      if op.Ge? || op.Gt? { KeptTrans(code0, code1, code, ctx); }
      st := Ok;
    }

    method BcEmitComp(ghost job: Job, ghost inner: Job, ghost ctx: set<int>, op: CmpOp, e1: ExpDesc, e2: ExpDesc, ghost a: Expr, ghost b: Expr,
                      ghost ts: seq<int>, ghost fs: seq<int>)
      returns (st: Status, e: ExpDesc)
      requires ExprOk(Aim(inner, b), ctx, e2, ts, fs) && LeftOk(job, inner, e1, a) && Scoped(b, nactvar)
      modifies this`code, this`jpc, this`pending, this`kn, this`kgc, this`lasttarget, this`freereg, this`framesize
      ensures st.Ok? ==> ExprOk(Aim(job, Compare(op, a, b)), ctx, e, [], []) && e.k.VJmp? && !HasJump(e)
      ensures st.Ok? ==> Kept(old(code), code, ctx) && old(kn) <= kn && old(kgc) <= kgc
      ensures st.Limit? ==> AtLimit()
    {
      if op.Eq? || op.Ne? {
        st, e := CompEq(job, inner, ctx, op, e1, e2, a, b, ts, fs);
      } else {
        st, e := CompOrder(job, inner, ctx, op, e1, e2, a, b, ts, fs);
      }
    }

    // -- `and`, `or`, `not` ----------------------------------------------------------

    /** Ready to compile an operand: runs arrive at the end of the code, or
        leave through a jump of `ctx`. */
    ghost predicate Entry(job: Job, ctx: set<int>)
      reads this
    {
      && Half(Aim(job, Lit(Nil)), ctx, Const(Nil), NO_JMP, NO_JMP, [], [], NO_REG)
      && nactvar <= job.base && freereg == job.base
    }

    /** The code of a finished operand is where the next one starts. */
    lemma EnterNext(job: Job, ctx: set<int>, end: End, t: int, f: int, ts: seq<int>, fs: seq<int>, base: int)
      requires Half(job, ctx, end, t, f, ts, fs, NO_REG) && Hanging(end) == {} && base == freereg && nactvar <= base
      ensures Entry(Behind(Now(job), See(ctx, end, ts, fs), base), ctx + Elems(ts) + Elems(fs))
    {
      hide Wf, Den;
      assert Elems([]) == {};
      EnterBehind(Now(job), See(ctx, end, ts, fs), lasttarget, base);
    }

    /** The second operand of `and` (`cond` false) or `or` begins where `v1`
        ends: the first left its exits on the list `l`. */
    static ghost predicate Began(job: Job, job1: Job, ctx: set<int>, cond: bool, v1: View, lim1: int, l: int, ls: seq<int>, x: Expr, y: Expr) {
      && v1.end == Tested(!cond) && v1.ctx == ctx && v1.ts == Elems(if cond then ls else []) && v1.fs == Elems(if cond then [] else ls)
      && Wf(v1, job.start, lim1) && Den(Aim(job1, x), v1, NO_REG) && IsList(v1.code, l, ls)
      && job1 == job.(kn := job1.kn, ks := job1.ks) && Scoped(y, job.base) && job.base <= NO_REG
    }

    ghost predicate Between(job: Job, job1: Job, ctx: set<int>, cond: bool, v1: View, lim1: int, l: int, ls: seq<int>, x: Expr, y: Expr)
      reads this
    {
      Began(job, job1, ctx, cond, v1, lim1, l, ls, x, y) && Kept(v1.code, code, ctx + Elems(ls)) && job1.kn <= kn && job1.ks <= kgc
    }

    function ShortOp(cond: bool, x: Expr, y: Expr): Expr { if cond then Or(x, y) else And(x, y) }

    lemma Chained(job: Job, job1: Job, ctx: set<int>, cond: bool, v1: View, lim1: int, l: int, ls: seq<int>,
                  e: ExpDesc, x: Expr, y: Expr, ts: seq<int>, fs: seq<int>, v4: View)
      requires Between(job, job1, ctx, cond, v1, lim1, l, ls, x, y)
      requires Sound(Aim(Behind(job, v1, job.base), y), ctx + Elems(ls), e, ts, fs, NO_REG)
      requires v4 == View(code, ctx, Elems(pending), EndOf(e), Elems(ts) + if cond then Elems(ls) else {}, Elems(fs) + if cond then {} else Elems(ls))
      ensures Wf(v4, job.start, lasttarget) && Den(Aim(Now(job), ShortOp(cond, x, y)), v4, NO_REG) && IsList(code, l, ls)
    {
      hide Wf, Den;
      assert Elems([]) == {};
      KeptList(v1.code, code, l, ls, ctx + Elems(ls));
      var v3 := See(ctx + Elems(ls), EndOf(e), ts, fs);
      assert v4 == Rejoined(v1, v3, !cond);
      assert Kept(v1.code, v3.code, v1.ts + v1.fs);
      ChainDen(Now(job), job1, v1, lim1, !cond, x, y, v3, lasttarget);
    }

    /** The second operand's list takes over the exits of the first. */
    method ShortCircuit(ghost job: Job, ghost job1: Job, ghost ctx: set<int>, cond: bool, ghost v1: View, ghost lim1: int, l: int, ghost ls: seq<int>,
                        e2: ExpDesc, ghost x: Expr, ghost y: Expr, ghost ts: seq<int>, ghost fs: seq<int>)
      returns (st: Status, e: ExpDesc, ghost ts2: seq<int>, ghost fs2: seq<int>)
      requires Between(job, job1, ctx, cond, v1, lim1, l, ls, x, y)
      requires ExprOk(Aim(Behind(job, v1, job.base), y), ctx + Elems(ls), e2, ts, fs)
      modifies this`code, this`jpc, this`pending
      ensures st.Ok? ==> ExprOk(Aim(job, ShortOp(cond, x, y)), ctx, e, ts2, fs2) && Kept(old(code), code, ctx)
      ensures st.Limit? ==> AtLimit()
    {
      hide Wf, Den, Kept, Began, AimGoal, BehindGoal;
      ghost var code0 := code;
      ts2, fs2 := [], [];
      e :- ExprDischarge(Aim(Behind(job, v1, job.base), y), ctx + Elems(ls), e2, ts, fs);
      ghost var code1 := code;
      KeptTrans(v1.code, code0, code, ctx + Elems(ls));
      KeptFewer(code0, code, ctx + Elems(ls), ctx);
      ghost var v4 := View(code, ctx, Elems(pending), EndOf(e), Elems(ts) + if cond then Elems(ls) else {}, Elems(fs) + if cond then {} else Elems(ls));
      Chained(job, job1, ctx, cond, v1, lim1, l, ls, e, x, y, ts, fs, v4);
      JoinLists(Aim(job, ShortOp(cond, x, y)), ctx, cond, e, l, ls, ts, fs, v4);
      if cond {
        var t :- JmpAppend(e.t, l, ts, ls);
        e := e.(t := t);
        ts2, fs2 := ts + ls, fs;
      } else {
        var f :- JmpAppend(e.f, l, fs, ls);
        e := e.(f := f);
        ts2, fs2 := ts, fs + ls;
      }
      AimPlain(job, ShortOp(cond, x, y));
      KeptTrans(code0, code1, code, ctx);
      st := Ok;
    }

    /** Appending the exits `ls` to the list they join. */
    lemma JoinLists(job: Job, ctx: set<int>, cond: bool, e: ExpDesc, l: int, ls: seq<int>, ts: seq<int>, fs: seq<int>, v4: View)
      requires Valid() && IsList(code, e.t, ts) && IsList(code, e.f, fs) && IsList(code, l, ls)
      requires v4 == View(code, ctx, Elems(pending), EndOf(e), Elems(ts) + if cond then Elems(ls) else {}, Elems(fs) + if cond then {} else Elems(ls))
      requires Wf(See(ctx + Elems(ls), EndOf(e), ts, fs), job.start, lasttarget)
      requires Wf(v4, job.start, lasttarget) && Den(Now(job), v4, NO_REG)
      requires e.k.VJmp? ==> 0 < e.info < |code| && JumpOf(code[e.info]) == -1
      ensures var ks := if cond then ts else fs; var c := Linked(code, ks, l);
        && Elems(ks) !! Elems(ls) && (forall q :: q in ks ==> q !in ls) && Kept(code, c, ctx)
        && IsList(c, jpc, pending) && IsList(c, if cond then e.f else e.t, if cond then fs else ts)
        && var v5 := View(c, ctx, Elems(pending), EndOf(e), Elems(if cond then ts + ls else ts), Elems(if cond then fs else fs + ls));
        && Wf(v5, job.start, lasttarget) && Den(Now(job), v5, NO_REG)
        && (e.k.VJmp? ==> 0 < e.info < |c| && JumpOf(c[e.info]) == -1)
    {
      hide Den;
      var ks := if cond then ts else fs;
      ApartFacts(ctx, EndOf(e), ts, fs, ls, job.start, lasttarget);
      ElemsConcat(ks, ls);
      ElemsApart(ks, ls);
      LinkView(Now(job), v4, lasttarget, NO_REG, ks, l);
      LinkKept(v4, job.start, lasttarget, ks, l, ctx);
      LinkList(code, ks, l, jpc, pending);
      LinkList(code, ks, l, if cond then e.f else e.t, if cond then fs else ts);
      assert v4.(code := Linked(code, ks, l)) ==
        View(Linked(code, ks, l), ctx, Elems(pending), EndOf(e), Elems(if cond then ts + ls else ts), Elems(if cond then fs else fs + ls));
      if e.k.VJmp? { assert e.info in Hanging(v4.end); LinkOne(code, ks, l, e.info); }
    }

    lemma ApartFacts(ctx: set<int>, end: End, ts: seq<int>, fs: seq<int>, ls: seq<int>, start: int, lim: int)
      requires Wf(See(ctx + Elems(ls), end, ts, fs), start, lim)
      ensures Elems(ts) !! Elems(ls) && Elems(fs) !! Elems(ls) && Elems(ts) !! Elems(fs)
      ensures Elems(pending) !! Elems(ts) && Elems(pending) !! Elems(fs)
      ensures Hanging(end) !! Elems(ts) && Hanging(end) !! Elems(fs) && ctx !! Elems(ts) && ctx !! Elems(fs)
    {
    }

    /** `not`, first half: the lists swap and their tests give up their values. */
    method SwapLists(ghost job: Job, ghost ctx: set<int>, e: ExpDesc, ghost x: Expr, ghost ts: seq<int>, ghost fs: seq<int>) returns (d: ExpDesc)
      requires ExprOk(Aim(job, x), ctx, e, ts, fs)
      modifies this`code
      ensures d == e.(t := e.f, f := e.t) && Sound(Negating(job, x), ctx, d, fs, ts, NO_REG) && Kept(old(code), code, ctx)
    {
      hide Den, Wf;
      ghost var v := See(ctx, EndOf(e), ts, fs);
      ghost var code0 := code;
      d := e.(t := e.f, f := e.t);
      WfFacts(v, job.start, lasttarget);
      DroppedList2(v, job.start, lasttarget, v.ts, e.f, fs);
      DroppedWf(v, job.start, lasttarget, v.ts);
      JmpDropVal(d.f, ts);
      JmpDropVal(d.t, fs);
      DroppedTwice(v, job.start, lasttarget);
      ghost var v2 := See(ctx, EndOf(d), fs, ts);
      AimPlain(job, x);
      SwapsGoals(job, x);
      SwapExits(Now(Aim(job, x)), v, lasttarget, v2, Negating(job, x).goal);
      DroppedList2(v, job.start, lasttarget, v.ts + v.fs, d.t, fs);
      DroppedList2(v, job.start, lasttarget, v.ts + v.fs, d.f, ts);
      DroppedList2(v, job.start, lasttarget, v.ts + v.fs, jpc, pending);
      DroppedKept(v, job.start, lasttarget);
      if e.k.VJmp? { DroppedKeeps(v, job.start, lasttarget, v.ts + v.fs, e.info); HangingFacts(v, job.start, lasttarget); }
    }

    /** The constant, comparison or value at the end is negated too. */
    method NegateConst(ghost job: Job, ghost ctx: set<int>, e: ExpDesc, ghost x: Expr, ghost ts: seq<int>, ghost fs: seq<int>) returns (d: ExpDesc)
      requires Sound(Negating(job, x), ctx, e, ts, fs, NO_REG) && IsConst(e)
      ensures IsConst(d) && Sound(Aim(job, Not(x)), ctx, d, ts, fs, NO_REG)
    {
      hide Wf, Den;
      if e.k.VKNil? || e.k.VKFalse? {
        d := e.(k := VKTrue);
      } else {
        d := e.(k := VKFalse);
      }
      ghost var v := See(ctx, EndOf(e), ts, fs);
      NegatesEnd(Now(job), x, EndOf(e), EndOf(d));
      Reinterpret(Negating(Now(job), x), v, lasttarget, EndOf(d), Aim(job, Not(x)).goal);
    }

    method NegateJmp(ghost job: Job, ghost ctx: set<int>, e: ExpDesc, ghost x: Expr, ghost ts: seq<int>, ghost fs: seq<int>)
      requires Sound(Negating(job, x), ctx, e, ts, fs, NO_REG) && e.k.VJmp?
      modifies this`code
      ensures Sound(Aim(job, Not(x)), ctx, e, ts, fs, NO_REG) && Kept(old(code), code, ctx)
    {
      hide Wf, Den;
      ghost var v := See(ctx, EndOf(e), ts, fs);
      HangingFacts(v, job.start, lasttarget);
      ghost var b, cmp, jmp := Back(v), code[e.info - 1], code[e.info];
      BackFrame(v, job.start, lasttarget, e.t, ts);
      BackFrame(v, job.start, lasttarget, e.f, fs);
      TakeBack(Negating(Now(job), x), v, lasttarget);
      LandedNone(b.code);
      ElemsMember(pending);
      InvertCond(e);
      NegatesEnd(Now(job), x, Ready(cmp), Ready(Inverted(cmp)));
      Reinterpret(Negating(Now(job), x), b, lasttarget, Ready(Inverted(cmp)), Aim(job, Not(x)).goal);
      ghost var b2 := b.(end := Ready(Inverted(cmp)));
      InvertedOp(cmp);
      HangCompare(Aim(Now(job), Not(x)), b2, lasttarget, jmp, See(ctx, EndOf(e), ts, fs));
      EmitList(b2, job.start, lasttarget, [Inverted(cmp), jmp], e.t, ts);
      EmitList(b2, job.start, lasttarget, [Inverted(cmp), jmp], e.f, fs);
      EmitKept(b2, job.start, lasttarget, [Inverted(cmp), jmp]);
      KeptBack(v, job.start, lasttarget, code);
    }

    method NegateReg(ghost job: Job, ghost ctx: set<int>, e: ExpDesc, ghost x: Expr, ghost ts: seq<int>, ghost fs: seq<int>)
      returns (st: Status, d: ExpDesc)
      requires Sound(Negating(job, x), ctx, e, ts, fs, NO_REG) && e.k.VNonReloc? && RegsOk(e, job.base)
      modifies this`code, this`jpc, this`pending, this`freereg
      ensures st.Ok? ==> ExprOk(Aim(job, Not(x)), ctx, d, ts, fs) && Kept(old(code), code, ctx)
      ensures st.Limit? ==> AtLimit()
    {
      hide Wf, Den;
      d := e;
      ExprFree(e);
      var ins := Ins(NOT, 0, e.info);
      ghost var v := See(ctx, EndOf(e), ts, fs);
      ghost var v1 := v.(end := Ready(ins));
      NegatesEnd(Now(job), x, EndOf(e), Ready(ins));
      Reinterpret(Negating(Now(job), x), v, lasttarget, Ready(ins), Aim(job, Not(x)).goal);
      WfFacts(v, job.start, lasttarget);
      var pc :- BcEmit(ins);
      d := e.(k := VRelocable, info := pc);
      HangLoad(Aim(Now(job), Not(x)), v1, lasttarget, See(ctx, EndOf(d), ts, fs));
      EmitList(v1, job.start, lasttarget, [ins], e.t, ts);
      EmitList(v1, job.start, lasttarget, [ins], e.f, fs);
      EmitKept(v1, job.start, lasttarget, [ins]);
      AimPlain(job, Not(x));
      st := Ok;
    }

    /** `bcemit_unop` for `not`. */
    method BcEmitNot(ghost job: Job, ghost ctx: set<int>, e: ExpDesc, ghost x: Expr, ghost ts: seq<int>, ghost fs: seq<int>)
      returns (st: Status, d: ExpDesc)
      requires ExprOk(Aim(job, x), ctx, e, ts, fs)
      modifies this`code, this`jpc, this`pending, this`freereg, this`framesize
      ensures st.Ok? ==> ExprOk(Aim(job, Not(x)), ctx, d, fs, ts) && Kept(old(code), code, ctx)
      ensures st.Limit? ==> AtLimit()
    {
      hide Wf, Den, Kept;
      AimPlain(job, Not(x));
      ghost var code0 := code;
      d := SwapLists(job, ctx, e, x, ts, fs);
      ghost var code1 := code;
      d :- ExprDischarge(Negating(job, x), ctx, d, fs, ts);
      ghost var code2 := code;
      KeptTrans(code0, code1, code2, ctx);
      if IsConst(d) {
        d := NegateConst(job, ctx, d, x, fs, ts);
        return Ok, d;
      } else if d.k.VJmp? {
        NegateJmp(job, ctx, d, x, fs, ts);
        KeptTrans(code0, code2, code, ctx);
        return Ok, d;
      } else if d.k.VRelocable? {
        :- BcRegReserve(1);
        var reg := freereg - 1;
        d := SetRelocated(Negating(job, x), ctx, d, fs, ts, reg);
        DenSkip(Negating(Now(job), x), See(ctx, EndOf(d), fs, ts), reg, NO_REG);
        KeptTrans(code0, code2, code, ctx);
      }
      ghost var code3 := code;
      d :- NegateReg(job, ctx, d, x, fs, ts);
      KeptTrans(code0, code3, code, ctx);
      st := Ok;
    }

    // -- `a ?? b` and `c ? a : b` ------------------------------------------------------

    /** Compiling the last operand `y` of `z` can start: its value and the
        values that left through the jumps `js` meet in register `job.base`. */
    ghost predicate Meeting(job: Job, inner: Job, ctx: set<int>, l: int, js: seq<int>, y: Expr, z: Expr)
      reads this
    {
      && Entry(inner, ctx + Elems(js)) && IsList(code, l, js) && js != [] && ctx !! Elems(js)
      && Joined(kn, kgc, job, inner, Elems(js), y, z)
    }

    /** `bcemit_binop_left` for `??`. */
    method CoalLeft(ghost job: Job, ghost ctx: set<int>, e: ExpDesc, ghost x: Expr, ghost y: Expr, ghost ts: seq<int>, ghost fs: seq<int>)
      returns (st: Status, aux: int, ghost inner: Job)
      requires ExprOk(Aim(job, x), ctx, e, ts, fs)
      modifies this`code, this`jpc, this`pending, this`kn, this`kgc, this`lasttarget, this`freereg, this`framesize
      ensures st.Ok? ==> Meeting(job, inner, ctx, aux, [aux], y, Coal(x, y))
      ensures st.Ok? ==> Kept(old(code), code, ctx) && old(kn) <= kn && old(kgc) <= kgc
      ensures st.Limit? ==> AtLimit()
    {
      hide Wf, Den, Kept, Landed, Meeting;
      aux, inner := NO_JMP, job;
      ghost var code0 := code;
      var d :- ExprToNextReg(Aim(job, x), ctx, e, ts, fs);
      ghost var v, code1 := See(ctx, EndOf(d), [], []), code;
      var reg := d.info;
      WfFacts(v, job.start, lasttarget);
      assert Elems([]) == {};
      var _ :- BcEmit(NotNil(reg));
      aux :- BcEmitJmp();
      var jmp := MakeJump(freereg, -1);
      BcRegFree(reg);
      inner := CoalMeets(job, ctx, v, x, y, aux, jmp);
      EmitKept(v, job.start, lasttarget, [NotNil(reg), jmp]);
      KeptTrans(code0, code1, code, ctx);
      st := Ok;
    }

    lemma CoalMeets(job: Job, ctx: set<int>, v: View, x: Expr, y: Expr, aux: int, jmp: Ins) returns (inner: Job)
      requires Wf(v, job.start, lasttarget) && Den(Aim(Now(job), x), v, NO_REG) && v.ctx == ctx && v.end == Reg(job.base) && v.ts == {} && v.fs == {}
      requires 0 <= job.base < MAX_SLOTS && jmp.op == JMP && jmp.a != NO_REG && code == Landed(v.code, v.js) + [NotNil(job.base), jmp]
      requires Valid() && jpc == NO_JMP && pending == [] && aux == |v.code| + 1 && IsList(code, aux, [aux]) && freereg == job.base && nactvar <= job.base
      ensures Meeting(job, inner, ctx, aux, [aux], y, Coal(x, y))
    {
      hide Wf, Den, Joins, Joined;
      assert Elems([aux]) == {aux} && Elems([]) == {};
      var v2 := View(code, ctx + {aux}, {}, Const(Nil), {}, {});
      inner := Behind(Now(job), v2, job.base);
      CoalSplit(Now(job), v, lasttarget, x, y, jmp, v2);
      EnterBehind(Now(job), v2, lasttarget, job.base);
      SameJoined(kn, kgc, Now(job), job, inner, inner, {aux}, y, Coal(x, y));
      NewAlone(v, job.start, lasttarget);
    }

    /** The last operand goes to the register the others are in. */
    method MeetingPoint(ghost job: Job, ghost inner: Job, ghost ctx: set<int>, l: int, ghost js: seq<int>, e2: ExpDesc, ghost y: Expr, ghost z: Expr,
                        ghost ts: seq<int>, ghost fs: seq<int>)
      returns (st: Status, e: ExpDesc)
      requires ExprOk(Aim(inner, y), ctx + Elems(js), e2, ts, fs) && IsList(code, l, js) && js != [] && ctx !! Elems(js)
      requires Joined(kn, kgc, job, inner, Elems(js), y, z) && Scoped(y, job.base)
      modifies this`code, this`jpc, this`pending, this`kn, this`kgc, this`lasttarget, this`freereg, this`framesize
      ensures st.Ok? ==> InReg(Aim(job, z), ctx, e)
      ensures st.Ok? ==> Kept(old(code), code, ctx) && old(kn) <= kn && old(kgc) <= kgc
      ensures st.Limit? ==> AtLimit()
    {
      hide Wf, Den, Joins;
      ghost var code0, kn0, ks0 := code, kn, kgc;
      e :- ExprToNextReg(Aim(inner, y), ctx + Elems(js), e2, ts, fs);
      ghost var v, code1 := See(ctx + Elems(js), EndOf(e), [], []), code;
      KeptList(code0, code, l, js, ctx + Elems(js));
      KeptFewer(code0, code, ctx + Elems(js), ctx);
      JoinedGrown(kn0, ks0, kn, kgc, job, inner, Elems(js), y, z);
      SameJoined(kn, kgc, job, Now(job), inner, Now(inner), Elems(js), y, z);
      WfFacts(v, job.start, lasttarget);
      ghost var lim1 := lasttarget;
      ghost var vl := v.(code := Linked(code, pending, l));
      LinkView(Aim(Now(inner), y), v, lasttarget, NO_REG, pending, l);
      LinkKept(v, job.start, lasttarget, pending, l, ctx);
      ElemsApart(pending, js);
      ElemsConcat(pending, js);
      ElemsMember(js);
      :- JmpToHere(l, js);
      JoinDen(Now(job), Now(inner), vl, lim1, Elems(js), y, z, See(ctx, EndOf(e), [], []));
      AimPlain(job, z);
      KeptTrans(code0, code1, code, ctx);
      st := Ok;
    }

    /** A jump over the code to come, which the exits `ls` then enter. */
    method JumpOver(reg: int, f: int, ghost ls: seq<int>) returns (st: Status, l: int, ghost js: seq<int>)
      requires Valid() && IsList(code, f, ls) && reg < freereg
      modifies this`code, this`jpc, this`pending, this`lasttarget, this`freereg
      ensures st.Ok? ==> Valid() && 0 < l == |old(code)| && l < |code| && code == old(code) + [code[l]] && code[l].op == JMP && code[l].a == old(freereg)
      ensures st.Ok? ==> js == [l] + old(pending) && IsList(code, l, js) && pending == ls && lasttarget == |code|
      ensures st.Ok? ==> freereg == old(freereg) - if reg >= nactvar && reg == old(freereg) - 1 then 1 else 0
      ensures st.Limit? ==> AtLimit()
    {
      hide Wf, Den;
      l, js := NO_JMP, [];
      ghost var code0, vals := code, pending;
      l :- BcEmitJmp();
      js := [l] + vals;
      ListKept(code0, code, f, ls);
      :- JmpToHere(f, ls);
      assert [] + ls == ls;
      BcRegFree(reg);
      st := Ok;
    }

    /** `c ? a : b` up to the colon: `a` is in its register and jumps over `b`. */
    method ChooseMiddle(ghost job: Job, ghost job1: Job, ghost ctx: set<int>, ghost v1: View, ghost lim1: int, f: int, ghost ls: seq<int>,
                        e: ExpDesc, ghost c: Expr, ghost a: Expr, ghost b: Expr, ghost ts: seq<int>, ghost fs: seq<int>)
      returns (st: Status, l: int, ghost inner: Job, ghost js: seq<int>)
      requires Between(job, job1, ctx, false, v1, lim1, f, ls, c, a)
      requires ExprOk(Aim(Behind(job, v1, job.base), a), ctx + Elems(ls), e, ts, fs)
      modifies this`code, this`jpc, this`pending, this`kn, this`kgc, this`lasttarget, this`freereg, this`framesize
      ensures st.Ok? ==> Meeting(job, inner, ctx, l, js, b, Choose(c, a, b))
      ensures st.Ok? ==> Kept(old(code), code, ctx) && old(kn) <= kn && old(kgc) <= kgc
      ensures st.Limit? ==> AtLimit()
    {
      hide Wf, Den, Joins;
      l, inner, js := NO_JMP, job, [];
      ghost var code0, first := code, Behind(job, v1, job.base);
      var d :- ExprToNextReg(Aim(first, a), ctx + Elems(ls), e, ts, fs);
      ghost var v3, code1, lim3, vals := See(ctx + Elems(ls), EndOf(d), [], []), code, lasttarget, pending;
      KeptTrans(v1.code, code0, code, ctx + Elems(ls));
      KeptList(v1.code, code, f, ls, ctx + Elems(ls));
      KeptFewer(code0, code, ctx + Elems(ls), ctx);
      l, js :- JumpOver(d.info, f, ls);
      ghost var v2 := View(code, ctx + Elems(vals) + {l}, Elems(ls), Const(Nil), {}, {});
      inner := Behind(Now(job), v2, job.base);
      ChooseMeets(job, job1, ctx, v1, lim1, v3, lim3, f, ls, l, vals, c, a, b, v2);
      KeptLonger(code0, code1, code, ctx);
      st := Ok;
    }

    lemma ChooseMeets(job: Job, job1: Job, ctx: set<int>, v1: View, lim1: int, v3: View, lim3: int, f: int, ls: seq<int>, l: int, vals: seq<int>,
                      c: Expr, a: Expr, b: Expr, v2: View)
      requires Valid() && IsList(code, l, [l] + vals) && 0 < l == |v3.code| && l < |code| && code == v3.code + [code[l]] && code[l].op == JMP && code[l].a != NO_REG
      requires pending == ls && lasttarget == |code| && freereg == job.base && nactvar <= job.base <= NO_REG
      requires v1.end == Tested(true) && v1.ctx == ctx && v1.ts == {} && v1.fs == Elems(ls) && Wf(v1, job.start, lim1) && Den(Aim(job1, c), v1, NO_REG)
      requires job1 == job.(kn := job1.kn, ks := job1.ks) && job1.kn <= kn && job1.ks <= kgc && Scoped(a, job.base)
      requires v3 == View(v3.code, ctx + Elems(ls), Elems(vals), Reg(job.base), {}, {}) && Wf(v3, job.start, lim3)
      requires Den(Aim(Behind(Now(job), v1, job.base), a), v3, NO_REG)
      requires v2 == View(code, ctx + Elems(vals) + {l}, Elems(ls), Const(Nil), {}, {})
      ensures Meeting(job, Behind(Now(job), v2, job.base), ctx, l, [l] + vals, b, Choose(c, a, b))
    {
      hide Wf, Den, Joins;
      var js := [l] + vals;
      var inner := Behind(Now(job), v2, job.base);
      assert Elems([]) == {} && Elems(js) == Elems(vals) + {l};
      WfFacts(v3, job.start, lim3);
      DenGrown(Aim(job1, c), Aim(Now(job), c), v1, NO_REG);
      ChooseSplit(Now(job), v1, lim1, v3, lim3, c, a, b, code[l], v2);
      EnterBehind(Now(job), v2, lasttarget, job.base);
      SameJoined(kn, kgc, Now(job), job, inner, inner, Elems(js), b, Choose(c, a, b));
      assert v3.ctx !! v3.js && forall q :: q in Lists(v3) ==> q < l;
      assert l !in ctx;
      assert Opening(v2) == See(ctx + Elems(js), Const(Nil), [], []);
    }

    // -- Whole expressions ---------------------------------------------------------------

    /** A constant, local or upvalue costs no code yet. */
    method ExprLeaf(x: Expr, ghost job: Job, ghost ctx: set<int>) returns (e: ExpDesc)
      requires Entry(job, ctx) && Scoped(x, nactvar) && (x.Lit? || x.Local? || x.Upval?)
      ensures ExprOk(Aim(job, x), ctx, e, [], [])
    {
      hide Wf, Den;
      match x {
        case Lit(c) =>
          match c {
            case Nil => e := InitExp(VKNil, 0);
            case False => e := InitExp(VKFalse, 0);
            case True => e := InitExp(VKTrue, 0);
            case Str(s) => e := InitExp(VKStr, 0).(sval := s);
            case Num(n) => e := InitExp(VKNum, 0).(nval := n);
          }
        case Local(slot) => e := InitExp(VLocal, slot);
        case Upval(idx) => e := InitExp(VUpval, idx);
      }
      ghost var v := See(ctx, Const(Nil), [], []);
      assert Elems([]) == {};
      LeafTurns(Now(job), x, nactvar, EndOf(e));
      Redirect(Aim(Now(job), Lit(Nil)), v, lasttarget, EndOf(e), Aim(Now(job), x));
      AimPlain(job, x);
    }

    /** The first operand of `and`, `or` or `?:`, up to its branch. */
    method ExprShortLeft(cond: bool, a: Expr, ghost b: Expr, ghost job: Job, ghost ctx: set<int>)
      returns (st: Status, l: int, ghost ls: seq<int>, ghost v1: View, ghost job1: Job)
      requires Entry(job, ctx) && Scoped(a, nactvar) && Scoped(b, nactvar)
      modifies this`code, this`jpc, this`pending, this`kn, this`kgc, this`lasttarget, this`freereg, this`framesize
      decreases a, 2
      ensures st.Ok? ==> Between(job, job1, ctx, cond, v1, lasttarget, l, ls, a, b) && Entry(Behind(job, v1, job.base), ctx + Elems(ls))
      ensures st.Ok? ==> Kept(old(code), code, ctx) && old(kn) <= kn && old(kgc) <= kgc
      ensures st.Limit? ==> AtLimit()
    {
      hide Wf, Den, Kept;
      ScopedMore(b, nactvar, job.base);
      ghost var code0 := code;
      l, ls, v1, job1 := NO_JMP, [], See(ctx, Const(Nil), [], []), job;
      var e; ghost var ts, fs;
      e, ts, fs :- Expr(a, job, ctx);
      ghost var code1 := code;
      if cond {
        l, ls :- BcEmitBranchF(Aim(job, a), ctx, e, ts, fs);
      } else {
        l, ls :- BcEmitBranchT(Aim(job, a), ctx, e, ts, fs);
      }
      KeptTrans(code0, code1, code, ctx);
      v1, job1 := See(ctx, Tested(!cond), if cond then ls else [], if cond then [] else ls), Now(job);
      EnterShort(job, ctx, cond, l, ls, a, b);
      st := Ok;
    }

    lemma EnterShort(job: Job, ctx: set<int>, cond: bool, l: int, ls: seq<int>, a: Expr, b: Expr)
      requires Decided(Aim(job, a), ctx, cond, l, ls) && freereg == job.base && nactvar <= job.base && Scoped(b, job.base)
      ensures var v1 := See(ctx, Tested(!cond), if cond then ls else [], if cond then [] else ls);
        Between(job, Now(job), ctx, cond, v1, lasttarget, l, ls, a, b) && Entry(Behind(job, v1, job.base), ctx + Elems(ls))
    {
      hide Wf, Den;
      assert Elems([]) == {};
      EnterNext(Aim(job, a), ctx, Tested(!cond), if cond then l else NO_JMP, if cond then NO_JMP else l,
                if cond then ls else [], if cond then [] else ls, job.base);
      assert ctx + Elems(if cond then ls else []) + Elems(if cond then [] else ls) == ctx + Elems(ls);
      KeptSame(code, ctx + Elems(ls));
    }

    /** The second operand takes over the exits of the first. */
    method ExprShortRight(cond: bool, ghost a: Expr, b: Expr, ghost job: Job, ghost job1: Job, ghost ctx: set<int>, ghost v1: View, ghost lim1: int, l: int, ghost ls: seq<int>)
      returns (st: Status, e: ExpDesc, ghost ts: seq<int>, ghost fs: seq<int>)
      requires Between(job, job1, ctx, cond, v1, lim1, l, ls, a, b) && Entry(Behind(job, v1, job.base), ctx + Elems(ls)) && Scoped(b, nactvar)
      modifies this`code, this`jpc, this`pending, this`kn, this`kgc, this`lasttarget, this`freereg, this`framesize
      decreases b, 2
      ensures st.Ok? ==> ExprOk(Aim(job, ShortOp(cond, a, b)), ctx, e, ts, fs)
      ensures st.Ok? ==> Kept(old(code), code, ctx) && old(kn) <= kn && old(kgc) <= kgc
      ensures st.Limit? ==> AtLimit()
    {
      hide Wf, Den, Kept, Half, Began;
      ghost var code0 := code;
      e, ts, fs :- Expr(b, Behind(job, v1, job.base), ctx + Elems(ls));
      ghost var code1 := code;
      KeptTrans(v1.code, code0, code1, ctx + Elems(ls));
      KeptFewer(code0, code1, ctx + Elems(ls), ctx);
      e, ts, fs :- ShortCircuit(job, job1, ctx, cond, v1, lim1, l, ls, e, a, b, ts, fs);
      KeptTrans(code0, code1, code, ctx);
      st := Ok;
    }

    method ExprShort(cond: bool, a: Expr, b: Expr, ghost job: Job, ghost ctx: set<int>)
      returns (st: Status, e: ExpDesc, ghost ts: seq<int>, ghost fs: seq<int>)
      requires Entry(job, ctx) && Scoped(a, nactvar) && Scoped(b, nactvar)
      modifies this`code, this`jpc, this`pending, this`kn, this`kgc, this`lasttarget, this`freereg, this`framesize
      decreases ShortOp(cond, a, b), 0
      ensures st.Ok? ==> ExprOk(Aim(job, ShortOp(cond, a, b)), ctx, e, ts, fs)
      ensures st.Ok? ==> Kept(old(code), code, ctx) && old(kn) <= kn && old(kgc) <= kgc
      ensures st.Limit? ==> AtLimit()
    {
      hide Wf, Den, Kept, Half, Began, Between, ExprOk, RegsOk, Aim, Behind, Entry;
      e, ts, fs := InitExp(VKNil, 0), [], [];
      ghost var code0 := code;
      var l; ghost var ls, v1, job1;
      l, ls, v1, job1 :- ExprShortLeft(cond, a, b, job, ctx);
      ghost var code1 := code;
      e, ts, fs :- ExprShortRight(cond, a, b, job, job1, ctx, v1, lasttarget, l, ls);
      KeptTrans(code0, code1, code, ctx);
      st := Ok;
    }

    /** The left operand of a comparison. */
    method ExprCompareLeft(op: CmpOp, a: Expr, ghost job: Job, ghost ctx: set<int>) returns (st: Status, d: ExpDesc, ghost inner: Job)
      requires Entry(job, ctx) && Scoped(a, nactvar)
      modifies this`code, this`jpc, this`pending, this`kn, this`kgc, this`lasttarget, this`freereg, this`framesize
      decreases a, 2
      ensures st.Ok? ==> Entry(inner, ctx) && LeftOk(job, inner, d, a)
      ensures st.Ok? ==> Kept(old(code), code, ctx) && old(kn) <= kn && old(kgc) <= kgc
      ensures st.Limit? ==> AtLimit()
    {
      hide Wf, Den, Kept, Half, Held;
      ghost var code0 := code;
      inner := job;
      ghost var ts, fs;
      d, ts, fs :- Expr(a, job, ctx);
      ghost var code1 := code;
      d :- CompareLeft(Aim(job, a), ctx, op, d, ts, fs);
      inner := Behind(job, See(ctx, EndOf(d), [], []), freereg);
      EnterRight(job, ctx, d, a);
      KeptTrans(code0, code1, code, ctx);
      st := Ok;
    }

    method ExprCompare(op: CmpOp, a: Expr, b: Expr, ghost job: Job, ghost ctx: set<int>) returns (st: Status, e: ExpDesc)
      requires Entry(job, ctx) && Scoped(a, nactvar) && Scoped(b, nactvar)
      modifies this`code, this`jpc, this`pending, this`kn, this`kgc, this`lasttarget, this`freereg, this`framesize
      decreases Compare(op, a, b), 0
      ensures st.Ok? ==> ExprOk(Aim(job, Compare(op, a, b)), ctx, e, [], [])
      ensures st.Ok? ==> Kept(old(code), code, ctx) && old(kn) <= kn && old(kgc) <= kgc
      ensures st.Limit? ==> AtLimit()
    {
      hide Wf, Den, Kept, Half, Held;
      ghost var code0 := code;
      e := InitExp(VKNil, 0);
      var d; ghost var inner, ts, fs;
      d, inner :- ExprCompareLeft(op, a, job, ctx);
      ghost var code2, kn0, ks0 := code, kn, kgc;
      e, ts, fs :- Expr(b, inner, ctx);
      ghost var code3 := code;
      HeldGrown(kn0, ks0, kn, kgc, job, inner, EndOf(d), a);
      e :- BcEmitComp(job, inner, ctx, op, d, e, a, b, ts, fs);
      KeptTrans(code0, code2, code3, ctx);
      KeptTrans(code0, code3, code, ctx);
      st := Ok;
    }

    lemma EnterRight(job: Job, ctx: set<int>, d: ExpDesc, a: Expr)
      requires ExprOk(Aim(job, a), ctx, d, [], []) && (IsConst(d) || d.k.VNonReloc?) && !HasJump(d) && Scoped(a, nactvar)
      ensures var inner := Behind(job, See(ctx, EndOf(d), [], []), freereg); Entry(inner, ctx) && LeftOk(job, inner, d, a)
    {
      hide Wf, Den;
      var v1 := See(ctx, EndOf(d), [], []);
      var inner := Behind(job, v1, freereg);
      assert Elems([]) == {} && ctx + {} + {} == ctx;
      ScopedMore(a, nactvar, job.base);
      EnterNext(Aim(job, a), ctx, EndOf(d), d.t, d.f, [], [], freereg);
      SameFollows(Now(job));
      HeldBehind(Now(job), Now(job), v1, lasttarget, a, freereg);
      SameHeld(kn, kgc, Now(job), Behind(Now(job), v1, freereg), job, inner, EndOf(d), a);
    }

    method ExprCoal(a: Expr, b: Expr, ghost job: Job, ghost ctx: set<int>) returns (st: Status, e: ExpDesc)
      requires Entry(job, ctx) && Scoped(a, nactvar) && Scoped(b, nactvar)
      modifies this`code, this`jpc, this`pending, this`kn, this`kgc, this`lasttarget, this`freereg, this`framesize
      decreases Coal(a, b), 0
      ensures st.Ok? ==> ExprOk(Aim(job, Coal(a, b)), ctx, e, [], [])
      ensures st.Ok? ==> Kept(old(code), code, ctx) && old(kn) <= kn && old(kgc) <= kgc
      ensures st.Limit? ==> AtLimit()
    {
      hide Wf, Den, Kept, Joined;
      ghost var code0 := code;
      ghost var ts, fs;
      e, ts, fs :- Expr(a, job, ctx);
      ghost var code1 := code;
      var aux; ghost var inner;
      aux, inner :- CoalLeft(job, ctx, e, a, b, ts, fs);
      ghost var code2 := code;
      e :- ExprMeeting(b, Coal(a, b), job, inner, ctx, aux, [aux]);
      KeptTrans(code0, code1, code2, ctx);
      KeptTrans(code0, code2, code, ctx);
      st := Ok;
    }

    /** The last operand, and the register where all values meet. */
    method ExprMeeting(y: Expr, ghost z: Expr, ghost job: Job, ghost inner: Job, ghost ctx: set<int>, l: int, ghost js: seq<int>) returns (st: Status, e: ExpDesc)
      requires Meeting(job, inner, ctx, l, js, y, z) && Scoped(y, nactvar)
      modifies this`code, this`jpc, this`pending, this`kn, this`kgc, this`lasttarget, this`freereg, this`framesize
      decreases y, 2
      ensures st.Ok? ==> ExprOk(Aim(job, z), ctx, e, [], [])
      ensures st.Ok? ==> Kept(old(code), code, ctx) && old(kn) <= kn && old(kgc) <= kgc
      ensures st.Limit? ==> AtLimit()
    {
      hide Wf, Den, Kept, Joined;
      ghost var code0, kn0, ks0 := code, kn, kgc;
      ghost var ts, fs;
      JoinedBase(kn, kgc, job, inner, Elems(js), y, z);
      e, ts, fs :- Expr(y, inner, ctx + Elems(js));
      ghost var code1 := code;
      KeptList(code0, code, l, js, ctx + Elems(js));
      KeptFewer(code0, code1, ctx + Elems(js), ctx);
      JoinedGrown(kn0, ks0, kn, kgc, job, inner, Elems(js), y, z);
      ScopedMore(y, nactvar, job.base);
      e :- MeetingPoint(job, inner, ctx, l, js, e, y, z, ts, fs);
      KeptTrans(code0, code1, code, ctx);
      st := Ok;
    }

    /** The middle operand of `?:`. */
    method ExprMiddle(ghost c: Expr, a: Expr, ghost b: Expr, ghost job: Job, ghost job1: Job, ghost ctx: set<int>, ghost v1: View, ghost lim1: int, f: int, ghost ls: seq<int>)
      returns (st: Status, l: int, ghost inner: Job, ghost js: seq<int>)
      requires Between(job, job1, ctx, false, v1, lim1, f, ls, c, a) && Entry(Behind(job, v1, job.base), ctx + Elems(ls)) && Scoped(a, nactvar)
      modifies this`code, this`jpc, this`pending, this`kn, this`kgc, this`lasttarget, this`freereg, this`framesize
      decreases a, 2
      ensures st.Ok? ==> Meeting(job, inner, ctx, l, js, b, Choose(c, a, b))
      ensures st.Ok? ==> Kept(old(code), code, ctx) && old(kn) <= kn && old(kgc) <= kgc
      ensures st.Limit? ==> AtLimit()
    {
      hide Wf, Den, Kept, Joined, Half, Began, ExprOk, RegsOk, AimGoal, BehindGoal;
      ghost var code0 := code;
      l, inner, js := NO_JMP, job, [];
      var e; ghost var ts, fs;
      e, ts, fs :- Expr(a, Behind(job, v1, job.base), ctx + Elems(ls));
      ghost var code1 := code;
      KeptTrans(v1.code, code0, code1, ctx + Elems(ls));
      KeptFewer(code0, code1, ctx + Elems(ls), ctx);
      l, inner, js :- ChooseMiddle(job, job1, ctx, v1, lim1, f, ls, e, c, a, b, ts, fs);
      KeptTrans(code0, code1, code, ctx);
      st := Ok;
    }

    method ExprChoose(c: Expr, a: Expr, b: Expr, ghost job: Job, ghost ctx: set<int>) returns (st: Status, e: ExpDesc)
      requires Entry(job, ctx) && Scoped(c, nactvar) && Scoped(a, nactvar) && Scoped(b, nactvar)
      modifies this`code, this`jpc, this`pending, this`kn, this`kgc, this`lasttarget, this`freereg, this`framesize
      decreases Choose(c, a, b), 0
      ensures st.Ok? ==> ExprOk(Aim(job, Choose(c, a, b)), ctx, e, [], [])
      ensures st.Ok? ==> Kept(old(code), code, ctx) && old(kn) <= kn && old(kgc) <= kgc
      ensures st.Limit? ==> AtLimit()
    {
      hide Wf, Den, Kept, Joined, Half, Began, Between, Meeting, ExprOk, RegsOk, Aim, Behind, Entry;
      ghost var code0 := code;
      e := InitExp(VKNil, 0);
      var f, l; ghost var ls, v1, job1, inner, js;
      f, ls, v1, job1 :- ExprShortLeft(false, c, a, job, ctx);
      ghost var code1 := code;
      l, inner, js :- ExprMiddle(c, a, b, job, job1, ctx, v1, lasttarget, f, ls);
      ghost var code2 := code;
      e :- ExprMeeting(b, Choose(c, a, b), job, inner, ctx, l, js);
      KeptTrans(code0, code1, code2, ctx);
      KeptTrans(code0, code2, code, ctx);
      st := Ok;
    }

    /** Compiles an expression in the order the parser meets its parts. */
    method Expr(x: Expr, ghost job: Job, ghost ctx: set<int>) returns (st: Status, e: ExpDesc, ghost ts: seq<int>, ghost fs: seq<int>)
      requires Entry(job, ctx) && Scoped(x, nactvar)
      modifies this`code, this`jpc, this`pending, this`kn, this`kgc, this`lasttarget, this`freereg, this`framesize
      decreases x, 1
      ensures st.Ok? ==> ExprOk(Aim(job, x), ctx, e, ts, fs)
      ensures st.Ok? ==> Kept(old(code), code, ctx) && old(kn) <= kn && old(kgc) <= kgc
      ensures st.Limit? ==> AtLimit()
    {
      hide Wf, Den, Kept;
      ghost var code0 := code;
      e, ts, fs := InitExp(VKNil, 0), [], [];
      match x {
        case Paren(y) =>
          e, ts, fs :- Expr(y, job, ctx);
          ghost var code1 := code;
          e :- ExprDischarge(Aim(job, y), ctx, e, ts, fs);
          ParenDen(Now(job), See(ctx, EndOf(e), ts, fs), y);
          AimPlain(job, x);
          KeptTrans(code0, code1, code, ctx);
        case Not(y) =>
          e, ts, fs :- Expr(y, job, ctx);
          ghost var code1 := code;
          e :- BcEmitNot(job, ctx, e, y, ts, fs);
          ts, fs := fs, ts;
          KeptTrans(code0, code1, code, ctx);
        case And(a, b) => e, ts, fs :- ExprShort(false, a, b, job, ctx);
        case Or(a, b) => e, ts, fs :- ExprShort(true, a, b, job, ctx);
        case Compare(op, a, b) => e :- ExprCompare(op, a, b, job, ctx);
        case Coal(a, b) => e :- ExprCoal(a, b, job, ctx);
        case Choose(c, a, b) => e :- ExprChoose(c, a, b, job, ctx);
        case _ =>
          e := ExprLeaf(x, job, ctx);
          KeptSame(code, ctx);
      }
      st := Ok;
    }

    // -- A chunk of local declarations -----------------------------------------------------

    /** A fresh function: only its header. */
    constructor ()
      ensures Valid() && code == [Ins(FUNCV, 0, 0)] && freereg == 0 && nactvar == 0 && lasttarget == 0 && pending == [] && kn == [] && kgc == []
    {
      code, lasttarget, jpc, freereg, nactvar, framesize, kn, kgc, pending := [Ins(FUNCV, 0, 0)], 0, NO_JMP, 0, 0, 1, [], [], [];
    }

    /** The locals `xs` are declared and hold their values. */
    ghost predicate Locals(xs: seq<Expr>)
      reads this
    {
      Entry(LocalsJob(kn, kgc, xs), {}) && nactvar == |xs| && |xs| <= MAX_LOCVAR
    }

    /** `local v = x`. */
    method ParseLocal(x: Expr, ghost xs: seq<Expr>) returns (st: Status)
      requires Locals(xs) && Scoped(x, nactvar)
      modifies this
      ensures st.Ok? ==> Locals(xs + [x])
      ensures st.Limit? ==> AtLimit() || nactvar >= MAX_LOCVAR
    {
      hide Wf, Den;
      if nactvar + 1 > MAX_LOCVAR {
        return Limit;
      }
      ghost var job := LocalsJob(kn, kgc, xs);
      var e; ghost var ts, fs;
      e, ts, fs :- Expr(x, job, {});
      e :- ExprToNextReg(Aim(job, x), {}, e, ts, fs);
      assert Elems([]) == {};
      DeclareDen(kn, kgc, xs, x, See({}, EndOf(e), [], []), lasttarget);
      nactvar := nactvar + 1;
      st := Ok;
    }

    lemma NoLocals()
      requires Valid() && code == [Ins(FUNCV, 0, 0)] && freereg == 0 && nactvar == 0 && lasttarget == 0 && pending == []
      ensures Locals([])
    {
      var job := LocalsJob(kn, kgc, []);
      var v := See({}, Const(Nil), [], []);
      assert Elems([]) == {} && Opens(v) == {};
      forall w, r | Fits(w, kn, kgc) ensures DenAt(w, v, 1, 0, NO_REG, Aim(job, Lit(Nil)).goal(w, r), r) {
        assert job.goal(w, r) == Here(r, Nil, Nil);
        assert Aim(job, Lit(Nil)).goal(w, r) == Toward(w, Here(r, Nil, Nil), Lit(Nil));
      }
    }

    /** A chunk of `local` statements, in order, and its final return. Whatever
        the registers hold at the start, and on every machine whose constants
        extend the compiled tables, the code runs to that return with each
        local's register holding the value of its initializer. */
    method ParseChunk(xs: seq<Expr>) returns (st: Status)
      requires Valid() && code == [Ins(FUNCV, 0, 0)] && freereg == 0 && nactvar == 0 && lasttarget == 0 && pending == []
      requires forall k :: 0 <= k < |xs| ==> Scoped(xs[k], k)
      modifies this
      ensures st.Ok? ==> forall w, r :: Fits(w, kn, kgc) ==>
        var (q, s) := Run(w, code, {}, 1, r);
        q == |code| - 1 && 0 <= q && code[q].op == RET0 && forall k :: 0 <= k < |xs| <= REGS ==> s[k] == Declared(w, xs, r)[k]
      ensures st.Limit? ==> AtLimit() || nactvar >= MAX_LOCVAR
    {
      hide Wf, Den;
      NoLocals();
      assert xs[..0] == [];
      var k := 0;
      while k < |xs|
        invariant 0 <= k <= |xs| && Locals(xs[..k])
      {
        :- ParseLocal(xs[k], xs[..k]);
        assert xs[..k] + [xs[k]] == xs[..k + 1];
        k := k + 1;
      }
      assert xs[..k] == xs;
      ghost var v, lim := See({}, Const(Nil), [], []), lasttarget;
      var ret := Ins(RET0, 0, 1);
      WfFacts(v, 1, lim);
      assert Elems([]) == {};
      var _ :- BcEmit(ret);
      forall w, r | Fits(w, kn, kgc)
        ensures var (q, s) := Run(w, code, {}, 1, r);
          q == |code| - 1 && 0 <= q && code[q].op == RET0 && forall k :: 0 <= k < |xs| <= REGS ==> s[k] == Declared(w, xs, r)[k]
      {
        ChunkRuns(kn, kgc, xs, v, lim, ret, w, r);
      }
      st := Ok;
    }
  }
}
