/** The trace recorder: it watches the interpreter one instruction at a time and
    grows the trace, its slot map and its snapshots in place. */
module TraceRecorder {
  import opened IrBuffer
  import opened TraceVm
  import opened TraceIr
  import opened Snapshots
  import BC = Bytecode

  datatype Error = NYIBC | LLEAVE | LINNER | LUNROLL | TRACEOV | STACKOV

  /** The outcome of recording one instruction. */
  datatype Outcome = Ok | Stop | Fail(e: Error)

  predicate IsConstRef(tr: TRef) { tr.Ref? && tr.ref < REF_BIAS }
  predicate IsNumRef(tr: TRef) { tr.Ref? && tr.t == IRT_NUM }

  class Recorder {
    const p: Proto
    const ir: IrBuf
    /** What each stack slot holds; the frame base is at slot 2. */
    const slot: array<TRef>
    /** One above the highest used register. */
    var maxslot: int
    var snap: seq<SnapShot>
    var snapmap: seq<SnapEntry>
    /** Suppress a new snapshot if no guard was emitted. */
    var mergesnap: bool
    /** Take a snapshot before recording the next instruction. */
    var needsnap: bool
    var pc: int
    /** The instruction that closes the loop. */
    const startpc: int
    /** The bytecode range of the loop. */
    const bcmin: int
    const bcextent: int
    const maxrecord: int
    const maxirconst: int
    var loopref: int
    var loopunroll: int
    /** The run being recorded: the stack at the trace head, and where the
        interpreter is by now. */
    ghost const w0: Arith
    ghost const s0: Stack
    ghost var steps: nat
    ghost var npc: int
    ghost var at: seq<nat>
    /** Did every instruction so far read below `maxslot` and write at most at
        it? And the registers in use at the trace head. */
    ghost var tight: bool
    ghost const base0: int

    ghost function View(): Sym
      reads this, ir, slot
    { Sym(ir.ins, ir.k, slot[..]) }

    ghost function Shots(): Snaps
      reads this
    { Snaps(snap, snapmap, at) }

    ghost function Pc0(): int { startpc + 1 }

    /** The interpreter's stack in the run being recorded. */
    ghost function Now(): Stack
      reads this, ir, slot
      requires slot.Length == MAX_JSLOTS
    { Look(View(), w0, s0) }

    /** What the slot map says of the interpreter is true. */
    ghost predicate Tracking()
      reads this, ir, slot
    {
      && ir.Valid() && slot.Length == MAX_JSLOTS && WfProto(p) && WfSym(View()) && slot[0].None? && slot[1].None?
      && 0 <= maxslot && BASESLOT + maxslot <= MAX_JSLOTS && 0 <= npc < |p.bc| && 0 <= base0
      && Tracks(p, View(), Pc0(), steps, npc) && Passing(View(), w0, s0)
      && (tight ==> TightIr(ir.ins, base0) && TightSlots(slot[..], maxslot, base0))
    }

    /** ... and every guard exits correctly. */
    ghost predicate Sound()
      reads this, ir, slot
    {
      && Tracking() && Exits(p, View(), Shots(), Pc0()) && snap[0].pc == Pc0()
      && (!ir.guardemit ==> NoGuards(ir.ins, Pos(snap[|snap| - 1])))
      && (tight ==> TightSnaps(Shots(), base0))
    }

    /** Guards may be emitted under the last snapshot. */
    ghost predicate Open()
      reads this, ir, slot
    {
      Sound() && TileAt(Shots(), |snap| - 1) && PlainSnap(p, View(), Shots(), Pc0(), |snap| - 1)
    }

    ghost predicate Room(n: int)
      reads this, ir
    {
      |ir.ins| + n <= 0x7fff && |ir.k| + n <= 0x7fff
    }

    /** Sets up a root trace at the `LOOP` at `start`, entered with stack `s`. */
    constructor (proto: Proto, start: int, min: int, extent: int, record: int, irconst: int, unroll: int, ghost w: Arith, ghost s: Stack)
      requires WfProto(proto) && 0 <= start < |proto.bc| && proto.bc[start].op == BC.LOOP && proto.bc[start].a <= proto.framesize
      requires 0 <= record <= 0x7000 && 3 <= irconst <= 0x7000
      ensures Open() && fresh(ir) && fresh(slot) && p == proto && startpc == start && maxrecord == record && maxirconst == irconst
      ensures !needsnap && npc == Pc0() && steps == 0 && Now() == s && w0 == w && s0 == s && base0 == proto.bc[start].a
      ensures maxslot == proto.bc[start].a && |ir.ins| == 1 && |ir.k| == 3 && bcmin == min && bcextent == extent && tight
    {
      p, startpc, bcmin, bcextent, maxrecord, maxirconst := proto, start, min, extent, record, irconst;
      ir := new IrBuf();
      slot := new TRef[MAX_JSLOTS](_ => None);
      maxslot := proto.bc[start].a;
      snap, snapmap, mergesnap, needsnap, loopref, loopunroll := [], [], false, false, 0, unroll;
      pc := start + 1;
      w0, s0, steps, npc, at, tight, base0 := w, s, 0, start + 1, [], true, proto.bc[start].a;
      new;
      hide Lands, Tracks, Look, Passes, ExitOk, PlainSnap, IrBuf.Valid;
      assert WfIns(p, startpc);
      HeadTracks(p, View(), npc, s0);
      FirstSnapshot();
    }

    /** Snapshot 0 points at the first instruction to be recorded. */
    method FirstSnapshot()
      requires Tracking() && |ir.ins| == 1 && steps == 0 && npc == pc == Pc0() && snap == [] && snapmap == [] && at == [] && !ir.ins[0].guard && maxslot == base0
      modifies this`snap, this`snapmap, this`at
      ensures Open()
    {
      hide Lands, Tracks, Look, Passes, ExitOk, PlainSnap, IrBuf.Valid, WfProto, WfSym, TightIr, TightSlots, Exits, MapOf, TraceIr.Passing;
      var x := SnapshotStack(0);
      snap := [x];
      at := [0];
      FirstOk(p, View(), Pc0(), BASESLOT + maxslot);
      assert Shots() == Pushed(Snaps([], [], []), x, MapOf(slot[..], ir.ins, BASESLOT + maxslot), 0);
    }

    // -- Snapshots --------------------------------------------------------------

    /** All modified slots below `nslots`. */
    method SnapshotSlots(nslots: int) returns (e: seq<SnapEntry>)
      requires slot.Length == MAX_JSLOTS && 0 <= nslots <= MAX_JSLOTS
      ensures e == MapOf(slot[..], ir.ins, nslots)
    {
      e := [];
      var s := 0;
      while s < nslots
        invariant 0 <= s <= nslots && e == MapOf(slot[..], ir.ins, s)
      {
        var tr := slot[s];
        if s != 1 && tr.Ref? {
          var r := tr.ref;
          if 0 <= r - REF_BIAS < |ir.ins| && ir.ins[r - REF_BIAS].op == SLOAD && ir.ins[r - REF_BIAS].op1 == s {
            // Unmodified slots are left out unless inherited.
            if ir.ins[r - REF_BIAS].op2 / MODE_INHERIT % 2 == 1 {
              e := e + [SnapEntry(s, r, ir.ins[r - REF_BIAS].op2 / MODE_READONLY % 2 == 1)];
            }
          } else {
            e := e + [SnapEntry(s, r, false)];
          }
        }
        s := s + 1;
      }
    }

    method SnapshotStack(nsnapmap: int) returns (x: SnapShot)
      requires slot.Length == MAX_JSLOTS && 0 <= BASESLOT + maxslot <= MAX_JSLOTS && 0 <= nsnapmap <= |snapmap|
      modifies this`snapmap
      ensures var e := MapOf(slot[..], ir.ins, BASESLOT + maxslot);
        snapmap == old(snapmap)[..nsnapmap] + e && x == SnapShot(nsnapmap, REF_BIAS + |ir.ins|, pc, BASESLOT + maxslot, |e|)
    {
      var nslots := BASESLOT + maxslot;
      snapmap := snapmap[..nsnapmap];
      var e := SnapshotSlots(nslots);
      snapmap := snapmap + e;
      x := SnapShot(nsnapmap, ir.Nins(), pc, nslots, |e|);
    }

    lemma DropHere()
      requires Sound() && |snap| >= 2 && (snap[|snap| - 1].iref == ir.Nins() || !ir.guardemit)
      ensures |at| == |snap| && 0 <= snap[|snap| - 1].mapofs <= |snapmap| && Exits(p, View(), Dropped(Shots()), Pc0())
      ensures Pos(snap[|snap| - 2]) < |ir.ins| && (tight ==> TightSnaps(Dropped(Shots()), base0))
    {
      hide Lands, Tracks, Look, Passes, ExitOk, PlainSnap, IrBuf.Valid, WfProto, WfSym;
      TiledDrop(Shots());
      if tight { TightDrop(Shots(), base0); }
      assert NoGuards(ir.ins, Pos(snap[|snap| - 1]));
      DropOk(p, View(), Shots(), Pc0());
    }

    lemma LastShot()
      requires Sound()
      ensures 1 <= |snap| && Pos(snap[|snap| - 1]) <= |ir.ins| && snapmap[..|snapmap|] == snapmap
    {
    }

    /** May the last snapshot be replaced? Snapshot 0 always stays; a NOP keeps
        the next one apart from it. */
    method MergeLast() returns (nsnapmap: int)
      requires Sound() && Room(1)
      modifies this`snap, this`at, ir
      ensures Merged(nsnapmap) && (old(|snap|) >= 2 ==> ir.ins == old(ir.ins))
      ensures Extends(old(View()), View()) && ir.k == old(ir.k) && |ir.ins| <= |old(ir.ins)| + 1 && Now() == old(Now())
    {
      hide Lands, Tracks, Look, Passes, ExitOk, PlainSnap, IrBuf.Valid, WfProto, WfSym, Exits, TightSnaps, TightIr, TightSlots;
      LastShot();
      var nsnap := |snap|;
      nsnapmap := |snapmap|;
      if snap[nsnap - 1].iref == ir.Nins() || (mergesnap && !ir.guardemit) {
        if nsnap == 1 {
          var _ := EmitIr(NOP, IRT_NIL, 0, 0);
        } else {
          DropHere();
          nsnap := nsnap - 1;
          nsnapmap := snap[nsnap].mapofs;
          snap := snap[..nsnap];
          at := at[..nsnap];
        }
      }
    }

    /** Adds a snapshot of the current position, or lets it take the place of
        the last one when no guard came in between. */
    method SnapAdd()
      requires Sound() && Room(1) && pc == npc
      modifies this`snap, this`snapmap, this`mergesnap, this`at, ir
      ensures Open() && !mergesnap && |snap| >= 2 && Pos(snap[|snap| - 1]) == |ir.ins| && snap[|snap| - 1].nslots == BASESLOT + maxslot
      ensures Extends(old(View()), View()) && ir.k == old(ir.k) && |ir.ins| <= |old(ir.ins)| + 1 && Now() == old(Now())
      ensures at[|at| - 1] == steps && snap[|snap| - 1].pc == npc && (old(|snap|) >= 2 ==> ir.ins == old(ir.ins))
      ensures 0 <= snap[|snap| - 1].mapofs <= |snapmap| && snapmap[snap[|snap| - 1].mapofs..] == MapOf(slot[..], ir.ins, BASESLOT + maxslot)
    {
      hide Tracking, Sound, Open, Merged, Look, Exits;
      var nsnapmap := MergeLast();
      PushShot(nsnapmap);
    }

    /** The snapshots that are kept are right, and the last one is behind. */
    ghost predicate Merged(nsnapmap: int)
      reads this, ir, slot
    {
      && Tracking() && 0 <= nsnapmap <= |snapmap| && Exits(p, View(), Snaps(snap, snapmap[..nsnapmap], at), Pc0())
      && (tight ==> TightSnaps(Snaps(snap, snapmap[..nsnapmap], at), base0))
      && 1 <= |snap| && snap[0].pc == Pc0() && Pos(snap[|snap| - 1]) < |ir.ins|
    }

    method PushShot(nsnapmap: int)
      requires Merged(nsnapmap) && pc == npc
      modifies this`snap, this`snapmap, this`mergesnap, this`at, ir`guardemit
      ensures Open() && !mergesnap && |snap| >= 2 && Pos(snap[|snap| - 1]) == |ir.ins| && snap[|snap| - 1].nslots == BASESLOT + maxslot
      ensures View() == old(View()) && Now() == old(Now())
      ensures at[|at| - 1] == steps && snap[|snap| - 1].pc == npc
      ensures 0 <= snap[|snap| - 1].mapofs <= |snapmap| && snapmap[snap[|snap| - 1].mapofs..] == MapOf(slot[..], ir.ins, BASESLOT + maxslot)
    {
      hide Lands, Tracks, Look, Passes, ExitOk, PlainSnap, IrBuf.Valid, WfProto, WfSym, Exits, TightSnaps, TightIr, TightSlots;
      ghost var n := Snaps(snap, snapmap[..nsnapmap], at);
      ExitsShape(p, View(), n, Pc0());
      mergesnap := false;
      ir.ClearGuard();
      PushOk(p, View(), n, Pc0(), steps, npc, BASESLOT + maxslot);
      var x := SnapshotStack(nsnapmap);
      snap := snap + [x];
      at := at + [steps];
      assert Shots() == Pushed(n, x, MapOf(slot[..], ir.ins, BASESLOT + maxslot), steps);
      if tight { TightHere(n, x); }
      OpenedHere();
    }

    lemma TightHere(n: Snaps, x: SnapShot)
      requires Tracking() && tight && TightSnaps(n, base0) && Tiled(n) && |n.at| == |n.snap| && 1 <= |n.snap| && base0 >= 0
      requires var e := MapOf(slot[..], ir.ins, BASESLOT + maxslot);
        x.mapofs == |n.map_| && x.nent == |e| && x.nslots == BASESLOT + maxslot && Shots() == Pushed(n, x, e, steps)
      ensures TightSnaps(Shots(), base0)
    {
      hide Tracks, Look, Passes, IrBuf.Valid, WfProto, WfSym;
      MapCovers(slot[..], ir.ins, BASESLOT + maxslot, maxslot, base0);
      TightPush(n, x, MapOf(slot[..], ir.ins, BASESLOT + maxslot), steps, base0);
    }

    lemma OpenedHere()
      requires tight ==> TightSnaps(Shots(), base0)
      requires Tracking() && 1 <= |snap| && snap[0].pc == Pc0() && !ir.guardemit && Pos(snap[|snap| - 1]) == |ir.ins|
      requires Exits(p, View(), Shots(), Pc0()) && TileAt(Shots(), |snap| - 1) && PlainSnap(p, View(), Shots(), Pc0(), |snap| - 1)
      ensures Open()
    {
      hide Lands, Tracks, Look, Passes, ExitOk, PlainSnap, Exits, IrBuf.Valid;
    }

    // -- Emission ---------------------------------------------------------------

    /** Emits an instruction that is no guard. */
    method EmitIr(op: int, t: int, a: int, b: int) returns (tr: TRef)
      requires Sound() && Room(1) && 0 <= op < IR_MAX && !IsConstOp(op) && op != BASE && !IsCmp(op) && op != SLOAD
      requires OperandsOk(Fresh(op, t, false, a, b), |ir.ins|, |ir.k|)
      modifies ir
      ensures Sound() && Extends(old(View()), View()) && slot[..] == old(slot[..]) && (old(Open()) ==> Open())
      ensures tr == Ref(REF_BIAS + |old(ir.ins)|, t) && |ir.ins| == |old(ir.ins)| + 1 && ir.k == old(ir.k)
      ensures ir.ins[|old(ir.ins)|].(prev := 0) == Fresh(op, t, false, a, b)
      ensures forall w, s {:trigger EnvOf(View(), w, s)} :: ValueOf(View(), w, s, tr) == Compute(Fresh(op, t, false, a, b), ir.k, EnvOf(View(), w, s), w, s)
      ensures Now() == old(Now())
    {
      hide Lands, Tracks, Look, PlainSnap, ExitOk, WfProto, TightSnaps, TightSlots, NoDuplicates;
      ghost var m, n := View(), Shots();
      tr := ir.EmitIns(Fresh(op, t, false, a, b));
      ghost var m2 := View();
      EmittedWf(m, m2);
      TracksExtended(p, m, m2, Pc0(), steps, npc);
      assert TileAt(n, |snap| - 1);
      ExitsExtended(p, m, m2, n, Pc0());
      EmittedPasses(m, m2, w0, s0);
      LookExtended(m, m2, w0, s0);
      forall w, s ensures ValueOf(m2, w, s, tr) == Compute(Fresh(op, t, false, a, b), ir.k, EnvOf(m2, w, s), w, s) {
        EmittedValue(m, m2, w, s);
      }
    }
  
    // -- Slots ------------------------------------------------------------------

    /** Loads register `s` and pins its type to the one it has now. */
    method Sload(s: int, stack: Stack) returns (tr: TRef)
      requires (tight ==> s < maxslot) && Open() && Room(1) && 0 <= s < MAX_JSLOTS - BASESLOT && slot[BASESLOT + s].None? && stack == Now()
      modifies ir, slot
      ensures Open() && tr == slot[BASESLOT + s] && tr.Ref? && tr.t == TypeOf(Reg(stack, s)) && Now() == old(Now())
      ensures Extends(old(View()), View()) && slot[..] == old(slot[..])[BASESLOT + s := tr] && |ir.ins| == |old(ir.ins)| + 1 && ir.k == old(ir.k)
    {
      hide Lands, Tracks, Look, Passes, ExitOk, PlainSnap, TightSnaps;
      ghost var m := View();
      ghost var prev := ir.chain[SLOAD];
      var t := TypeOf(stack[BASESLOT + s]);
      tr := ir.EmitIns(Fresh(SLOAD, t, true, BASESLOT + s, MODE_TYPECHECK));
      if t <= IRT_TRUE {
        tr := PriRef(t);
      }
      slot[BASESLOT + s] := tr;
      assert View() == Loaded(m, BASESLOT + s, t, prev);
      LoadTracks(p, m, Pc0(), steps, npc, BASESLOT + s, t, prev);
      LookNone(m, w0, s0, BASESLOT + s);
      ExitsExtended(p, m, View(), Shots(), Pc0());
    }

    /** What register `s` holds, loading it if the trace has not yet. */
    method Getslot(s: int, stack: Stack) returns (tr: TRef)
      requires (tight ==> s < maxslot) && Open() && Room(1) && 0 <= s < MAX_JSLOTS - BASESLOT && stack == Now()
      modifies ir, slot
      ensures Open() && tr == slot[BASESLOT + s] && tr.Ref? && tr.t == TypeOf(Reg(stack, s)) && Now() == old(Now())
      ensures Extends(old(View()), View()) && slot[..] == old(slot[..])[BASESLOT + s := tr] && |ir.ins| <= |old(ir.ins)| + 1 && ir.k == old(ir.k)
      ensures old(slot[BASESLOT + s]).None? || old(slot[BASESLOT + s]) == tr
    {
      hide Lands, Tracks, Look, Passes, ExitOk, PlainSnap, IrBuf.Valid, TightIr, TightSnaps, TightSlots;
      tr := slot[BASESLOT + s];
      if tr.None? {
        tr := Sload(s, stack);
      } else {
        assert slot[..] == slot[..][BASESLOT + s := tr];
        TypeAt(p, View(), Pc0(), steps, npc, w0, s0, BASESLOT + s);
      }
    }
  
    // -- Constants ----------------------------------------------------------------

    /** Interning leaves everything as it was. */
    ghost predicate Interning(m: Sym, tr: TRef, v: Value)
      reads this, ir, slot
    {
      && Open() && Extends(m, View()) && View().ir == m.ir && View().slot == m.slot && |ir.k| <= |m.k| + 1
      && tr.Ref? && RefOk(|ir.ins|, |ir.k|, tr.ref) && tr.ref < REF_BIAS && tr.t == TypeOf(v) && KAt(ir.k, tr.ref, v) && Now() == Look(m, w0, s0)
    }

    method KNum(n: Number) returns (tr: TRef)
      requires Open() && Room(1)
      modifies ir
      ensures Interning(old(View()), tr, Num(n))
    {
      hide Lands, Tracks, Look, Passes, ExitOk, PlainSnap, IrBuf.Valid, TightIr, TightSnaps, TightSlots;
      ghost var m := View();
      tr := ir.KNum(n);
      ConstExtended(p, m, View(), Pc0(), steps, npc, Shots(), w0, s0);
    }

    method KStr(v: Value) returns (tr: TRef)
      requires Open() && Room(1) && TypeOf(v) == IRT_STR
      modifies ir
      ensures Interning(old(View()), tr, v)
    {
      hide Lands, Tracks, Look, Passes, ExitOk, PlainSnap, IrBuf.Valid, TightIr, TightSnaps, TightSlots;
      ghost var m := View();
      tr := ir.KGc(v, IRT_STR);
      ConstExtended(p, m, View(), Pc0(), steps, npc, Shots(), w0, s0);
    }

    // -- Results ------------------------------------------------------------------

    /** Storing to register `a` above a gap would hide what the slot at the gap
        holds. */
    predicate GapFree(a: int)
      reads this, slot
    {
      0 <= maxslot && BASESLOT + maxslot <= slot.Length && (a > maxslot ==> BASESLOT + maxslot < slot.Length && slot[BASESLOT + maxslot].None?)
    }

    /** Stores the result of an instruction. */
    method SetDst(a: int, tr: TRef, ghost stack: Stack)
      requires (tight ==> a <= maxslot) && Open() && RegIn(a) && GapFree(a) && tr.Ref? && RefOk(|ir.ins|, |ir.k|, tr.ref) && LoadedTab(tr) && stack == Now() && npc + 1 < |p.bc|
      requires Stores(p, View(), npc, npc + 1, BASESLOT + a, tr)
      modifies slot, this`maxslot, this`steps, this`npc
      ensures Open() && steps == old(steps) + 1 && BcStep(p, w0, old(npc), stack) == At(npc, Now())
      ensures ir.ins == old(ir.ins) && ir.k == old(ir.k) && a < maxslot && slot[..] == old(slot[..])[BASESLOT + a := tr]
      ensures maxslot == if a >= old(maxslot) then a + 1 else old(maxslot)
    {
      hide Lands, Tracks, Look, Passes, ExitOk, PlainSnap, IrBuf.Valid, TightIr, TightSnaps, WfProto, Exits, Stores, BcStep;
      ghost var m := View();
      if a > maxslot {
        slot[BASESLOT + maxslot] := None;
        assert slot[..] == m.slot;
      }
      slot[BASESLOT + a] := tr;
      if a >= maxslot {
        maxslot := a + 1;
      }
      StoreTracks(p, m, Pc0(), steps, npc, npc + 1, BASESLOT + a, tr, Shots(), w0, s0);
      assert View() == m.(slot := m.slot[BASESLOT + a := tr]);
      steps, npc := steps + 1, npc + 1;
    }

    /** An instruction that only moves on. */
    method Advance(ghost npc2: int, ghost stack: Stack)
      requires Open() && stack == Now() && 0 <= npc2 < |p.bc| && Moves(p, View(), npc, npc2)
      modifies this`steps, this`npc
      ensures Open() && steps == old(steps) + 1 && npc == npc2 && BcStep(p, w0, old(npc), stack) == At(npc, Now()) && Now() == stack
    {
      hide Lands, Look, Passes, ExitOk, PlainSnap, TightIr, TightSnaps, TightSlots;
      JumpTracks(p, View(), Pc0(), steps, npc, npc2);
      assert Passing(View(), w0, s0);
      steps, npc := steps + 1, npc2;
    }

    /** Registers from `a` on are dead. */
    method Shrink(a: int)
      requires Open() && 0 <= a
      modifies this`maxslot
      ensures Open() && maxslot == (if a < old(maxslot) then a else old(maxslot))
    {
      if a < maxslot {
        maxslot := a;
      }
    }
  
    // -- Branches -------------------------------------------------------------------

    /** A snapshot in front of a branch, never merged with snapshot 0, whose
        position is about to be changed. */
    method CompPrep()
      requires Sound() && Room(2) && pc == npc
      modifies this`snap, this`snapmap, this`mergesnap, this`at, ir
      ensures Open() && !mergesnap && |snap| >= 2 && Pos(snap[|snap| - 1]) == |ir.ins| && snap[|snap| - 1].nslots == BASESLOT + maxslot
      ensures at[|at| - 1] == steps
      ensures Extends(old(View()), View()) && ir.k == old(ir.k) && |ir.ins| <= |old(ir.ins)| + 2 && Now() == old(Now())
    {
      hide Lands, Tracks, Look, Passes, ExitOk, PlainSnap, IrBuf.Valid, WfProto, WfSym, TightIr, TightSnaps, TightSlots;
      ghost var m := View();
      if |snap| == 1 && snap[0].iref == ir.Nins() {
        var _ := EmitIr(NOP, IRT_NIL, 0, 0);
      }
      ghost var m2 := View();
      SnapAdd();
      ExtendsTrans(m, m2, View());
    }

    /** Points the last snapshot at the branch not taken. */
    method CompFixup(cond: bool)
      requires |snap| >= 1 && 0 <= pc && pc + 1 < |p.bc|
      modifies this`snap, this`needsnap, this`maxslot
      ensures needsnap && snap == old(snap)[|old(snap)| - 1 := old(snap)[|old(snap)| - 1].(pc := if cond then Jump(p, pc + 1) else pc + 2)]
      ensures maxslot == if p.bc[pc + 1].a < old(maxslot) then p.bc[pc + 1].a else old(maxslot)
    {
      var jmpins := p.bc[pc + 1];
      var npc := pc + 2 + if cond then BC.JumpOf(jmpins) else 0;
      snap := snap[|snap| - 1 := snap[|snap| - 1].(pc := npc)];
      needsnap := true;
      if jmpins.a < maxslot {
        maxslot := jmpins.a;
      }
    }

    /** The guard of a branch, when it needs one, between its snapshot and the
        snapshot's new position. `cond` says whether that is behind the jump. */
    method Branch(g: IRIns, guarded: bool, cond: bool, ghost taken: bool, ghost stack: Stack)
      requires cond == !taken
      requires Open() && Room(3) && pc == npc && stack == Now() && BranchIns(p, npc) && |snap| >= 2 && Pos(snap[|snap| - 1]) == |ir.ins|
      requires 0 <= g.op < IR_MAX && IsCmp(g.op) && g.guard && g.prev == 0 && OperandsOk(g, |ir.ins|, |ir.k|)
      requires Decides(p, View(), npc, if guarded then [g] else [], taken) && at[|at| - 1] == steps
      requires GoesWay(p, npc, stack, taken)
      modifies this`snap, this`needsnap, this`maxslot, this`at, this`steps, this`npc, ir
      ensures Sound() && needsnap && |snap| >= 2 && steps == old(steps) + 1 && BcStep(p, w0, old(npc), stack) == At(npc, Now()) && Now() == stack
      ensures npc == Branched(p, old(npc), taken) && |ir.ins| <= |old(ir.ins)| + 1 && ir.k == old(ir.k)
      ensures maxslot == if p.bc[old(npc) + 1].a < old(maxslot) then p.bc[old(npc) + 1].a else old(maxslot)
    {
      hide Lands, Tracks, Look, Passes, ExitOk, PlainSnap, IrBuf.Valid, WfProto, WfSym, Exits, TestHolds, Decides, TightSnaps, BcStep;
      ghost var m, n := View(), Shots();
      ExitsShape(p, m, n, Pc0());
      RecordedHolds(p, m, npc, if guarded then [g] else [], taken, w0, s0);
      ExitsWf(p, m, n, Pc0());
      if guarded {
        var _ := ir.EmitIns(g);
      }
      BranchTracks(p, m, View(), n, Pc0(), steps, npc, if guarded then [g] else [], taken, w0, s0);
      if tight { TightFixed(m, View(), n, Branched(p, npc, !taken), steps + 1, base0); }
      GoOn(cond, taken);
    }

    /** The interpreter goes along the branch, the last snapshot to the other. */
    method GoOn(cond: bool, ghost taken: bool)
      requires cond == !taken
      requires ir.Valid() && slot.Length == MAX_JSLOTS && WfProto(p) && WfSym(View()) && slot[0].None? && slot[1].None? && 0 <= base0
      requires 0 <= maxslot && BASESLOT + maxslot <= MAX_JSLOTS && BranchIns(p, npc) && pc == npc && |snap| == |at| >= 2 && snap[0].pc == Pc0()
      requires Tracks(p, View(), Pc0(), steps + 1, Branched(p, npc, taken)) && Passing(View(), w0, s0)
      requires Exits(p, View(), Fixed(Shots(), Branched(p, npc, !taken), steps + 1), Pc0()) && (!ir.guardemit ==> NoGuards(ir.ins, Pos(snap[|snap| - 1])))
      requires tight ==> TightIr(ir.ins, base0) && TightSlots(slot[..], maxslot, base0) && TightSnaps(Fixed(Shots(), Branched(p, npc, !taken), steps + 1), base0)
      modifies this`snap, this`needsnap, this`maxslot, this`at, this`steps, this`npc
      ensures Sound() && needsnap && |snap| >= 2 && steps == old(steps) + 1 && npc == Branched(p, old(npc), taken)
      ensures maxslot == if p.bc[old(npc) + 1].a < old(maxslot) then p.bc[old(npc) + 1].a else old(maxslot)
    {
      hide Lands, Tracks, Look, Passes, ExitOk, PlainSnap, IrBuf.Valid, WfProto, WfSym, Exits, TightSnaps, TightIr;
      ghost var n := Shots();
      at := at[|at| - 1 := steps + 1];
      CompFixup(cond);
      steps, npc := steps + 1, Branched(p, npc, taken);
      assert Shots() == Fixed(n, Branched(p, pc, !taken), steps);
    }
  
    /** Numeric ordering: the outcome seen now is guarded. */
    method RecOrder(ra: TRef, rc: TRef, stack: Stack) returns (st: Outcome)
      requires Open() && !needsnap && Room(5) && pc == npc && stack == Now() && BranchIns(p, npc) && IsOrder(p.bc[npc].op)
      requires RegIn(p.bc[npc].a) && RegIn(p.bc[npc].d)
      requires ra.Ref? && rc.Ref? && slot[BASESLOT + p.bc[npc].a] == ra && slot[BASESLOT + p.bc[npc].d] == rc
      modifies this`snap, this`snapmap, this`mergesnap, this`needsnap, this`maxslot, this`at, this`steps, this`npc, ir
      ensures st.Ok? ==> Recorded(old(steps), old(npc), stack) && |ir.ins| <= |old(ir.ins)| + 3 && ir.k == old(ir.k)
      ensures st.Ok? ==> maxslot >= Cut(old(maxslot), p.bc[old(npc) + 1].a)
      ensures st == if IsNumRef(ra) && IsNumRef(rc) then Ok else Fail(NYIBC)
    {
      hide Lands, Tracks, Look, Passes, ExitOk, PlainSnap, IrBuf.Valid, WfProto, WfSym, Exits, TestHolds, Decides, BcStep, TightIr, TightSnaps, TightSlots, OrderTaken;
      var i := p.bc[pc];
      OperandsIn(View(), ra, BASESLOT + i.a);
      OperandsIn(View(), rc, BASESLOT + i.d);
      if !(IsNumRef(ra) && IsNumRef(rc)) {
        return Fail(NYIBC);
      }
      OrderNums(p, View(), Pc0(), steps, npc, w0, s0);
      var (x, y) := (Reg(stack, i.a), Reg(stack, i.d));
      ghost var taken := OrderTaken(i.op, x.n, y.n);
      OrderGoes(p, npc, stack);
      if IsConstRef(ra) && IsConstRef(rc) {
        ConstMoves(p, View(), Pc0(), steps, npc, taken, w0, s0);
        Advance(Branched(p, pc, taken), stack);
        return Ok;
      }
      OrderBranch(ra, rc, stack);
      st := Ok;
    }

    /** An ordering of numbers that are not both known. */
    method OrderBranch(ra: TRef, rc: TRef, stack: Stack)
      requires Open() && !needsnap && Room(5) && pc == npc && stack == Now() && BranchIns(p, npc) && IsOrder(p.bc[npc].op)
      requires RegIn(p.bc[npc].a) && RegIn(p.bc[npc].d) && Reg(stack, p.bc[npc].a).Num? && Reg(stack, p.bc[npc].d).Num?
      requires IsNumRef(ra) && IsNumRef(rc) && slot[BASESLOT + p.bc[npc].a] == ra && slot[BASESLOT + p.bc[npc].d] == rc
      modifies this`snap, this`snapmap, this`mergesnap, this`needsnap, this`maxslot, this`at, this`steps, this`npc, ir
      ensures Recorded(old(steps), old(npc), stack) && |ir.ins| <= |old(ir.ins)| + 3 && ir.k == old(ir.k)
      ensures maxslot >= Cut(old(maxslot), p.bc[old(npc) + 1].a)
    {
      hide Lands, Tracks, Look, Passes, ExitOk, PlainSnap, IrBuf.Valid, WfProto, WfSym, Exits, TestHolds, Decides, BcStep, TightIr, TightSnaps, TightSlots, OrderTaken, GoesWay;
      var i := p.bc[pc];
      OperandsIn(View(), ra, BASESLOT + i.a);
      OperandsIn(View(), rc, BASESLOT + i.d);
      var (x, y) := (Reg(stack, i.a), Reg(stack, i.d));
      ghost var taken := OrderTaken(i.op, x.n, y.n);
      OrderGoes(p, npc, stack);
      CompPrep();
      var irop := if i.op % 2 == 0 then i.op - BC.ISLT + LT else i.op - BC.ISLT + LT + 4;
      if !NumCmp(irop, x.n, y.n) {
        irop := Flip(irop);
      }
      var g := Fresh(irop, IRT_NUM, true, ra.ref, rc.ref);
      OrderDecides(p, View(), Pc0(), steps, npc, g, x.n, y.n);
      OrderParity(i.op, x.n, y.n);
      Branch(g, true, (i.op + irop) % 2 != 0, taken, stack);
    }

    /** Compares two operands as recorded: 0 equal, 1 different, 2 different
        already in type, -1 not recordable; with the guard if one is needed. */
    method ObjCmp(a: TRef, b: TRef, av: Value, bv: Value, haseq: bool) returns (diff: int, guarded: bool, op: int)
      requires a.Ref? && b.Ref?
      ensures diff in {-1, 0, 1, 2} && op in {EQ, NE} && (diff == 2 ==> a.t != b.t) && (diff == 0 ==> RawEq(av, bv)) && (diff == 1 ==> !RawEq(av, bv))
      ensures guarded ==> a.t == b.t && op == if RawEq(av, bv) then EQ else NE
      ensures diff == -1 <==> !(IsConstRef(a) && IsConstRef(b)) && a.t == b.t == IRT_TAB && haseq
      ensures diff == 2 <==> !(IsConstRef(a) && IsConstRef(b)) && a.t != b.t
      ensures !guarded ==> diff == -1 || a.t != b.t || a.t <= IRT_TRUE || (IsConstRef(a) && IsConstRef(b))
    {
      var differ := !RawEq(av, bv);
      op, guarded := EQ, false;
      if !(IsConstRef(a) && IsConstRef(b)) {
        if a.t != b.t {
          return 2, false, EQ;
        }
        if a.t > IRT_TRUE {
          if a.t == IRT_TAB && haseq {
            return -1, false, EQ;
          }
          op, guarded := if differ then NE else EQ, true;
        }
      }
      diff := if differ then 1 else 0;
    }

    /** Equality tests. `haseq` says whether a table operand has an `__eq`
        metamethod. */
    method RecEquality(ra: TRef, rc: TRef, stack: Stack, haseq: bool) returns (st: Outcome)
      requires Open() && !needsnap && Room(5) && pc == npc && stack == Now() && BranchIns(p, npc) && IsEquality(p.bc[npc].op)
      requires RegIn(p.bc[npc].a) && ra.Ref? && rc.Ref? && slot[BASESLOT + p.bc[npc].a] == ra && Operand(p, View(), p.bc[npc], rc)
      modifies this`snap, this`snapmap, this`mergesnap, this`needsnap, this`maxslot, this`at, this`steps, this`npc, ir
      ensures st.Ok? ==> Recorded(old(steps), old(npc), stack) && |ir.ins| <= |old(ir.ins)| + 3 && ir.k == old(ir.k)
      ensures st.Ok? ==> maxslot >= Cut(old(maxslot), p.bc[old(npc) + 1].a)
      ensures st == if RefusesEq(Reg(stack, p.bc[old(npc)].a), OperandD(p, p.bc[old(npc)], stack), haseq) then Fail(NYIBC) else Ok
    {
      hide Lands, Tracks, Look, Passes, ExitOk, PlainSnap, IrBuf.Valid, WfProto, WfSym, Exits, TestHolds, Decides, BcStep, Operand, OperandD, TightIr, TightSnaps, TightSlots;
      var i := p.bc[pc];
      var rav, rcv := Reg(stack, i.a), OperandD(p, i, stack);
      OperandsIn(View(), ra, BASESLOT + i.a);
      OperandRef(p, View(), i, rc);
      EqTypes(p, View(), Pc0(), steps, npc, rc, w0, s0);
      ghost var taken := RawEq(rav, rcv) == (i.op % 2 == 0);
      EqGoes(p, npc, stack);
      if IsConstRef(ra) && IsConstRef(rc) && ra.t != IRT_TAB {
        EqConst(p, View(), Pc0(), steps, npc, rc, w0, s0);
        Advance(Branched(p, pc, taken), stack);
        return Ok;
      }
      st := EqBranch(ra, rc, stack, haseq);
    }

    /** The guard of an equality, and where the branch not taken goes on. */
    method EqGuard(op: int, ra: TRef, rc: TRef, rav: Value, rcv: Value, haseq: bool) returns (ok: bool, g: IRIns, guarded: bool, cond: bool)
      requires ra.Ref? && rc.Ref? && TypeOf(rav) == ra.t && TypeOf(rcv) == rc.t && LoadedTab(ra) && LoadedTab(rc)
      ensures ok <==> !RefusesEq(rav, rcv, haseq)
      ensures ok ==> cond == (RawEq(rav, rcv) != (op % 2 == 0)) && g == Fresh(g.op, ra.t, true, ra.ref, rc.ref) && g.op in {EQ, NE}
      ensures ok && guarded ==> ra.t == rc.t && (g.op == EQ <==> RawEq(rav, rcv))
      ensures ok && !guarded ==> ra.t != rc.t || ra.t <= IRT_TRUE || (IsConstRef(ra) && IsConstRef(rc))
    {
      ok, g, guarded, cond := true, Fresh(EQ, IRT_NUM, true, ra.ref, rc.ref), true, false;
      if IsNumRef(ra) && IsNumRef(rc) {
        var diff := !RawEq(rav, rcv);
        g := Fresh(if diff then NE else EQ, IRT_NUM, true, ra.ref, rc.ref);
        cond := (op % 2 == 1) != diff;
      } else {
        var diff, gd, irop := ObjCmp(ra, rc, rav, rcv, haseq);
        if diff == -1 || (diff == 1 && ra.t == IRT_TAB) {
          ok := false;
        }
        g, guarded := Fresh(irop, ra.t, true, ra.ref, rc.ref), gd;
        cond := (op % 2 == 1) == (diff == 0);
      }
    }

    /** An equality between references that are not both known. */
    method EqBranch(ra: TRef, rc: TRef, stack: Stack, haseq: bool) returns (st: Outcome)
      requires Open() && !needsnap && Room(5) && pc == npc && stack == Now() && BranchIns(p, npc) && IsEquality(p.bc[npc].op)
      requires RegIn(p.bc[npc].a) && ra.Ref? && rc.Ref? && slot[BASESLOT + p.bc[npc].a] == ra && Operand(p, View(), p.bc[npc], rc)
      requires GoesWay(p, npc, stack, RawEq(Reg(stack, p.bc[npc].a), OperandD(p, p.bc[npc], stack)) == (p.bc[npc].op % 2 == 0))
      modifies this`snap, this`snapmap, this`mergesnap, this`needsnap, this`maxslot, this`at, this`steps, this`npc, ir
      ensures st.Ok? ==> Recorded(old(steps), old(npc), stack) && |ir.ins| <= |old(ir.ins)| + 3 && ir.k == old(ir.k)
      ensures st.Ok? ==> maxslot >= Cut(old(maxslot), p.bc[old(npc) + 1].a)
      ensures st == if RefusesEq(Reg(stack, p.bc[old(npc)].a), OperandD(p, p.bc[old(npc)], stack), haseq) then Fail(NYIBC) else Ok
    {
      hide Lands, Tracks, Look, Passes, ExitOk, PlainSnap, IrBuf.Valid, WfProto, WfSym, Exits, TestHolds, Decides, BcStep, Operand, OperandD, TightIr, TightSnaps, TightSlots;
      var i := p.bc[pc];
      var rav, rcv := Reg(stack, i.a), OperandD(p, i, stack);
      ghost var taken := RawEq(rav, rcv) == (i.op % 2 == 0);
      ghost var m := View();
      EqLoaded(p, m, i, ra, rc);
      CompPrep();
      OperandKept(p, m, View(), i, rc);
      EqTypes(p, View(), Pc0(), steps, npc, rc, w0, s0);
      var ok, g, guarded, cond := EqGuard(i.op, ra, rc, rav, rcv, haseq);
      if !ok {
        return Fail(NYIBC);
      }
      OperandsIn(View(), ra, BASESLOT + i.a);
      OperandRef(p, View(), i, rc);
      EqDecides(p, View(), Pc0(), steps, npc, rc, g, guarded, w0, s0);
      Branch(g, guarded, cond, taken, stack);
      st := Ok;
    }

    // -- Tests, moves, arithmetic -------------------------------------------------------

    /** `ISTC`, `ISFC`, `IST`, `ISF`: the type of the operand decides. A copy goes
        into the slot map, but does not raise `maxslot`. */
    method RecBoolTest(rc: TRef, stack: Stack) returns (st: Outcome)
      requires Open() && !needsnap && pc == npc && stack == Now() && TestIns(p, npc) && IsBoolTest(p.bc[npc].op)
      requires RegIn(p.bc[npc].d) && rc.Ref? && slot[BASESLOT + p.bc[npc].d] == rc && (IsCopy(p.bc[npc].op) ==> RegIn(p.bc[npc].a))
      modifies slot, this`maxslot, this`steps, this`npc
      ensures st.Ok? && Recorded(old(steps), old(npc), stack) && ir.ins == old(ir.ins) && ir.k == old(ir.k)
      ensures maxslot == Cut(old(maxslot), p.bc[old(npc) + 1].a)
      ensures var i := p.bc[old(npc)];
        slot[..] == if IsCopy(i.op) && Truthy(Reg(stack, i.d)) == (i.op % 2 == 0) then old(slot[..])[BASESLOT + i.a := rc] else old(slot[..])
    {
      hide Lands, Tracks, Look, Passes, ExitOk, PlainSnap, IrBuf.Valid, WfProto, Exits, TestHolds, BcStep, TightIr, TightSnaps;
      var i := p.bc[pc];
      var taken := Truthy(Reg(stack, i.d)) == (i.op % 2 == 0);
      TypeAt(p, View(), Pc0(), steps, npc, w0, s0, BASESLOT + i.d);
      if IsCopy(i.op) && taken {
        CopyTested(i.a, rc, stack);
      } else {
        TestMoves(p, View(), Pc0(), steps, npc, rc, taken);
        Advance(if taken then Jump(p, pc + 1) else pc + 2, stack);
      }
      Shrink(p.bc[pc + 1].a);
      st := Ok;
    }

    /** The copy of a test that is taken. */
    method CopyTested(a: int, rc: TRef, ghost stack: Stack)
      requires Open() && pc == npc && stack == Now() && TestIns(p, npc) && IsCopy(p.bc[npc].op) && RegIn(p.bc[npc].d) && RegIn(a) && a == p.bc[npc].a
      requires rc.Ref? && slot[BASESLOT + p.bc[npc].d] == rc && TrueType(rc.t) == (p.bc[npc].op % 2 == 0)
      modifies slot, this`steps, this`npc
      ensures Open() && steps == old(steps) + 1 && BcStep(p, w0, old(npc), stack) == At(npc, Now()) && slot[..] == old(slot[..])[BASESLOT + a := rc]
    {
      hide Lands, Tracks, Look, Passes, ExitOk, PlainSnap, IrBuf.Valid, WfProto, Exits, TestHolds, BcStep, TightIr, TightSnaps;
      ghost var m, pc2 := View(), Jump(p, pc + 1);
      CopyStores(p, m, Pc0(), steps, npc, rc, true);
      slot[BASESLOT + a] := rc;
      StoreTracks(p, m, Pc0(), steps, npc, pc2, BASESLOT + a, rc, Shots(), w0, s0);
      assert View() == m.(slot := m.slot[BASESLOT + a := rc]);
      steps, npc := steps + 1, pc2;
    }

    method RecMove(a: int, rc: TRef, stack: Stack) returns (st: Outcome)
      requires tight ==> a <= maxslot
      requires Open() && !needsnap && pc == npc && stack == Now() && 0 <= npc && npc + 1 < |p.bc| && p.bc[npc].op == BC.MOV && a == p.bc[npc].a
      requires 0 <= a < p.framesize <= MAX_JSLOTS - BASESLOT && RegIn(p.bc[npc].d) && rc.Ref? && slot[BASESLOT + p.bc[npc].d] == rc && GapFree(a)
      modifies slot, this`maxslot, this`steps, this`npc
      ensures st.Ok? && Recorded(old(steps), old(npc), stack) && ir.ins == old(ir.ins) && ir.k == old(ir.k) && maxslot == Raised(old(maxslot), a)
    {
      hide Lands, Tracks, Look, Passes, ExitOk, PlainSnap, IrBuf.Valid, WfProto, Exits, TightIr, TightSnaps, TightSlots;
      MoveStores(p, View(), Pc0(), steps, npc, rc);
      SetDst(a, rc, stack);
      st := Ok;
    }

    method RecNot(a: int, rc: TRef, stack: Stack) returns (st: Outcome)
      requires tight ==> a <= maxslot
      requires Open() && !needsnap && pc == npc && stack == Now() && 0 <= npc && npc + 1 < |p.bc| && p.bc[npc].op == BC.NOT && a == p.bc[npc].a
      requires 0 <= a < p.framesize <= MAX_JSLOTS - BASESLOT && RegIn(p.bc[npc].d) && rc.Ref? && slot[BASESLOT + p.bc[npc].d] == rc && GapFree(a)
      modifies slot, this`maxslot, this`steps, this`npc
      ensures st.Ok? && Recorded(old(steps), old(npc), stack) && ir.ins == old(ir.ins) && ir.k == old(ir.k) && maxslot == Raised(old(maxslot), a)
    {
      hide Lands, Tracks, Look, Passes, ExitOk, PlainSnap, WfProto, Exits, TightIr, TightSnaps, TightSlots;
      TypeAt(p, View(), Pc0(), steps, npc, w0, s0, BASESLOT + p.bc[pc].d);
      var result := if Truthy(Reg(stack, p.bc[pc].d)) then PriRef(IRT_FALSE) else PriRef(IRT_TRUE);
      NotStores(p, View(), Pc0(), steps, npc, rc, result);
      SetDst(a, result, stack);
      st := Ok;
    }

    method RecNeg(a: int, rc: TRef, stack: Stack) returns (st: Outcome)
      requires tight ==> a <= maxslot
      requires Open() && !needsnap && Room(2) && pc == npc && stack == Now() && 0 <= npc && npc + 1 < |p.bc| && p.bc[npc].op == UNM && a == p.bc[npc].a
      requires 0 <= a < p.framesize <= MAX_JSLOTS - BASESLOT && RegIn(p.bc[npc].d) && rc.Ref? && slot[BASESLOT + p.bc[npc].d] == rc && GapFree(a)
      modifies slot, ir, this`maxslot, this`steps, this`npc
      ensures st.Ok? ==> Recorded(old(steps), old(npc), stack) && |ir.ins| <= |old(ir.ins)| + 1 && |ir.k| <= |old(ir.k)| + 1 && maxslot == Raised(old(maxslot), a)
      ensures st == if IsNumRef(rc) then Ok else Fail(NYIBC)
    {
      hide Lands, Tracks, Look, Passes, ExitOk, PlainSnap, IrBuf.Valid, WfProto, Exits, TightIr, TightSnaps, TightSlots;
      if !IsNumRef(rc) {
        return Fail(NYIBC);
      }
      var signbit := KNum(NEG_ZERO);
      OperandsIn(View(), rc, BASESLOT + p.bc[pc].d);
      ghost var m := View();
      var result := EmitIr(NEG, IRT_NUM, rc.ref, signbit.ref);
      NegStores(p, m, View(), Pc0(), steps, npc, rc, result, signbit.ref);
      SetDst(a, result, stack);
      st := Ok;
    }

    /** Constants into registers. */
    method RecConst(a: int, stack: Stack) returns (st: Outcome)
      requires tight ==> a <= maxslot
      requires Open() && !needsnap && Room(1) && pc == npc && stack == Now() && 0 <= npc && npc + 1 < |p.bc| && IsConstLoad(p.bc[npc].op) && a == p.bc[npc].a
      requires 0 <= a < p.framesize <= MAX_JSLOTS - BASESLOT && GapFree(a) && WfIns(p, npc) && Strings(p)
      modifies slot, ir, this`maxslot, this`steps, this`npc
      ensures st.Ok? && Recorded(old(steps), old(npc), stack) && ir.ins == old(ir.ins) && |ir.k| <= |old(ir.k)| + 1 && maxslot == Raised(old(maxslot), a)
    {
      hide Lands, Tracks, Look, Passes, ExitOk, PlainSnap, WfProto, Exits, TightIr, TightSnaps, TightSlots, Stores, BcStep;
      var i := p.bc[pc];
      var result;
      if i.op == BC.KSTR {
        result := KStr(p.ks[i.d]);
      } else if i.op == BC.KNUM {
        result := KNum(p.kn[i.d]);
      } else if i.op == BC.KSHORT {
        result := KNum(ShortNum(i.d));
      } else {
        result := PriRef(i.d);
      }
      ConstStores(p, View(), npc, result);
      SetDst(a, result, stack);
      st := Ok;
    }

    /** `KNIL`: a range of registers becomes nil. */
    method RecNil(stack: Stack) returns (st: Outcome)
      requires Open() && !needsnap && pc == npc && stack == Now() && 0 <= npc && npc + 1 < |p.bc| && p.bc[npc].op == BC.KNIL
      requires 0 <= p.bc[npc].a <= p.bc[npc].d
      requires tight ==> p.bc[npc].a <= maxslot
      modifies slot, this`maxslot, this`steps, this`npc
      ensures st.Ok? ==> Recorded(old(steps), old(npc), stack) && ir.ins == old(ir.ins) && ir.k == old(ir.k) && maxslot == Raised(old(maxslot), p.bc[old(npc)].d)
      ensures st == if p.bc[old(npc)].d >= MAX_JSLOTS - BASESLOT then Fail(STACKOV) else Ok
    {
      hide Lands, Tracks, Look, Passes, ExitOk, PlainSnap, WfProto, Exits, TightIr, TightSnaps;
      ghost var m := View();
      var s, last := p.bc[pc].a, p.bc[pc].d;
      if last >= MAX_JSLOTS - BASESLOT {
        return Fail(STACKOV);
      }
      while s <= last
        invariant p.bc[pc].a <= s <= last + 1 && View() == m.(slot := slot[..]) && steps == old(steps) && npc == old(npc) && maxslot == old(maxslot)
        invariant forall j :: 0 <= j < MAX_JSLOTS ==> slot[j] == if BASESLOT + p.bc[pc].a <= j < BASESLOT + s then PriRef(IRT_NIL) else m.slot[j]
      {
        slot[BASESLOT + s] := PriRef(IRT_NIL);
        s := s + 1;
      }
      NilTracks(p, m, View(), Pc0(), steps, npc, w0, s0);
      ExitsExtended(p, m, View(), Shots(), Pc0());
      if last >= maxslot {
        maxslot := last + 1;
      }
      steps, npc := steps + 1, npc + 1;
      st := Ok;
    }

    method Remainder(rb: TRef, rc: TRef, ghost op: int) returns (tr: TRef)
      requires Open() && Room(4) && IsNumRef(rb) && IsNumRef(rc) && RefOk(|ir.ins|, |ir.k|, rb.ref) && RefOk(|ir.ins|, |ir.k|, rc.ref)
      requires IsArith(op) && op != POWVV && (op - ADDVN) % 5 == 4
      modifies ir
      ensures Open() && IsNumRef(tr) && RefOk(|ir.ins|, |ir.k|, tr.ref) && Extends(old(View()), View()) && ir.k == old(ir.k)
      ensures slot[..] == old(slot[..]) && |ir.ins| == |old(ir.ins)| + 4 && Now() == old(Now())
      ensures ArithIs(View(), rb, rc, tr, op)
    {
      hide Lands, Tracks, Look, Passes, ExitOk, PlainSnap, IrBuf.Valid, WfProto, Exits, WfIr, TightIr, TightSnaps, TightSlots;
      ghost var m := View();
      var q := EmitIr(DIV, IRT_NUM, rb.ref, rc.ref);
      ghost var m1 := View();
      assert WfSym(m) && WfSym(m1);
      var f := EmitIr(FPMATH, IRT_NUM, q.ref, 0);
      ghost var m2 := View();
      assert WfSym(m2);
      var t := EmitIr(MUL, IRT_NUM, f.ref, rc.ref);
      ghost var m3 := View();
      assert WfSym(m3);
      tr := EmitIr(SUB, IRT_NUM, rb.ref, t.ref);
      RemainderValue(m, m1, m2, m3, View(), rb, rc, q, f, t, tr, op);
    }

    /** Arithmetic: one instruction, or four for the remainder. */
    method Arith(rb: TRef, rc: TRef, op: int) returns (st: Outcome, tr: TRef)
      requires Open() && Room(4) && rb.Ref? && rc.Ref? && RefOk(|ir.ins|, |ir.k|, rb.ref) && RefOk(|ir.ins|, |ir.k|, rc.ref) && IsArith(op)
      modifies ir
      ensures st == if IsNumRef(rb) && IsNumRef(rc) then Ok else Fail(NYIBC)
      ensures st.Ok? ==> Open() && IsNumRef(rb) && IsNumRef(rc) && IsNumRef(tr) && RefOk(|ir.ins|, |ir.k|, tr.ref) && Extends(old(View()), View()) && ir.k == old(ir.k)
      ensures st.Ok? ==> slot[..] == old(slot[..]) && |ir.ins| <= |old(ir.ins)| + 4 && Now() == old(Now())
      ensures st.Ok? ==> ArithIs(View(), rb, rc, tr, op)
    {
      hide Lands, Tracks, Look, Passes, ExitOk, PlainSnap, IrBuf.Valid, WfProto, Exits, TightIr, TightSnaps, TightSlots;
      tr := None;
      if !IsNumRef(rb) || !IsNumRef(rc) {
        return Fail(NYIBC), None;
      }
      var irop := if op == POWVV then POW else ADD + (op - ADDVN) % 5;
      if irop == MOD {
        tr := Remainder(rb, rc, op);
      } else {
        tr := EmitIr(irop, IRT_NUM, rb.ref, rc.ref);
        SimpleValue(View(), rb, rc, tr, op, irop);
      }
      st := Ok;
    }

    method ArithLoads(i: BC.Ins, stack: Stack) returns (rb: TRef, rc: TRef)
      requires tight ==> Disciplined(i, maxslot)
      requires Open() && Room(4) && stack == Now() && IsArith(i.op) && RegIn(BC.BcB(i)) && (i.op < ADDVV ==> BC.BcC(i) < |p.kn|) && (i.op >= ADDVV ==> RegIn(BC.BcC(i)))
      modifies slot, ir
      ensures Open() && OperandRefs(p, View(), i, rb, rc) && RefOk(|ir.ins|, |ir.k|, rb.ref) && RefOk(|ir.ins|, |ir.k|, rc.ref) && Now() == old(Now())
      ensures rb.Ref? && rc.Ref? && rb.t == TypeOf(Reg(stack, BC.BcB(i))) && rc.t == if i.op < ADDVV then IRT_NUM else TypeOf(Reg(stack, BC.BcC(i)))
      ensures |ir.ins| <= |old(ir.ins)| + 2 && |ir.k| <= |old(ir.k)| + 1 && Extends(old(View()), View())
      ensures forall j :: 0 <= j < MAX_JSLOTS && j != BASESLOT + BC.BcB(i) && j != BASESLOT + BC.BcC(i) ==> slot[j] == old(slot[j])
    {
      hide Lands, Tracks, Look, Passes, ExitOk, PlainSnap, IrBuf.Valid, WfProto, Exits, WfIr, TightIr, TightSnaps, TightSlots;
      ghost var m := View();
      rb := Getslot(BC.BcB(i), stack);
      ghost var m1 := View();
      if i.op < ADDVV {
        rc := KNum(p.kn[BC.BcC(i)]);
      } else {
        rc := Getslot(BC.BcC(i), stack);
      }
      ExtendsTrans(m, m1, View());
      LoadedRefs(m1, View(), rb, rc, i);
      if i.op >= ADDVV { OperandsIn(View(), rc, BASESLOT + BC.BcC(i)); }
    }

    /** Loads the operands of an arithmetic instruction and stores its result. */
    method RecArith(i: BC.Ins, stack: Stack) returns (st: Outcome)
      requires tight ==> Disciplined(i, maxslot)
      requires Open() && !needsnap && Room(8) && pc == npc && stack == Now() && 0 <= npc && npc + 1 < |p.bc| && p.bc[npc] == i && IsArith(i.op)
      requires WfIns(p, npc) && p.framesize <= MAX_JSLOTS - BASESLOT && GapSafe(i)
      modifies slot, ir, this`maxslot, this`steps, this`npc
      ensures st.Ok? ==> Recorded(old(steps), old(npc), stack) && |ir.ins| <= |old(ir.ins)| + 6 && |ir.k| <= |old(ir.k)| + 1 && maxslot == Raised(old(maxslot), i.a)
      ensures st == if Records(p, i, stack, false) then Ok else Fail(NYIBC)
    {
      hide Lands, Tracks, Look, Passes, ExitOk, PlainSnap, IrBuf.Valid, WfProto, Exits, ArithIs, WfIr, TightIr, TightSnaps, TightSlots, Stores, BcStep;
      var rb, rc := ArithLoads(i, stack);
      ghost var m := View();
      var tr;
      if ADDNV <= i.op < ADDVV {
        st, tr := Arith(rc, rb, i.op);
      } else {
        st, tr := Arith(rb, rc, i.op);
      }
      if st.Fail? {
        return;
      }
      ArithStores(p, m, View(), Pc0(), steps, npc, i, rb, rc, tr);
      SetDst(i.a, tr, stack);
    }

    /** Storing to the instruction's destination hides nothing: it is at most
        `maxslot`, or the register at the gap is empty and not read. */
    predicate GapSafe(i: BC.Ins)
      reads this, slot
    {
      0 <= maxslot && BASESLOT + maxslot <= slot.Length &&
      (i.a > maxslot ==> BASESLOT + maxslot < slot.Length && slot[BASESLOT + maxslot].None? && i.d != maxslot && BC.BcB(i) != maxslot && BC.BcC(i) != maxslot)
    }

    // -- Recording ------------------------------------------------------------------

    /** What a loop instruction comes to: the end at the loop being recorded; an
        inner loop waits for its own trace unless it never loops back, must not
        have grown too long since the last one, and only so many are allowed. */
    ghost function LoopAt(at0: int, innerleft: bool): Outcome
      reads this, ir
    {
      if at0 == startpc then Stop
      else if !(0 <= at0 < |p.bc|) || (BC.JumpOf(p.bc[at0]) != -1 && !innerleft) then Fail(LINNER)
      else if (loopref != 0 && ir.Nins() - loopref > 24) || loopunroll <= 0 then Fail(LUNROLL)
      else Ok
    }

    /** A loop instruction: closes the trace, or is an inner loop. */
    method RecLoop(stack: Stack, innerleft: bool) returns (st: Outcome)
      requires Open() && !needsnap && pc == npc && stack == Now() && 0 <= npc && npc + 1 < |p.bc| && p.bc[npc].op == BC.LOOP && 0 <= p.bc[npc].a
      modifies this`maxslot, this`pc, this`steps, this`npc, this`loopunroll, this`loopref
      ensures !st.Fail? ==> Recorded(old(steps), old(npc), stack) && !needsnap && pc == npc == old(npc) + 1
      ensures st == old(LoopAt(pc, innerleft)) && (st.Ok? ==> loopref == ir.Nins() && loopunroll == old(loopunroll) - 1)
      ensures (st.Stop? ==> old(pc) == startpc && maxslot <= p.bc[old(npc)].a) && (!st.Fail? ==> maxslot == Cut(old(maxslot), p.bc[old(npc)].a))
    {
      hide Lands, Tracks, Look, Passes, ExitOk, PlainSnap, IrBuf.Valid, WfProto, Exits, TightIr, TightSnaps, TightSlots;
      var at0 := pc;
      LoopMoves(p, View(), npc);
      Shrink(p.bc[pc].a);
      Advance(pc + 1, stack);
      pc := pc + 1;
      if at0 == startpc {
        return Stop;
      }
      // An inner loop waits for its own trace, unless it never loops back.
      if BC.JumpOf(p.bc[at0]) != -1 && !innerleft {
        return Fail(LINNER);
      }
      if loopref != 0 && ir.Nins() - loopref > 24 {
        return Fail(LUNROLL);
      }
      loopunroll := loopunroll - 1;
      if loopunroll < 0 {
        return Fail(LUNROLL);
      }
      loopref := ir.Nins();
      st := Ok;
    }

    method RecJmp(stack: Stack) returns (st: Outcome)
      requires Open() && !needsnap && pc == npc && stack == Now() && 0 <= npc < |p.bc| && p.bc[npc].op == BC.JMP && 0 <= p.bc[npc].a && 0 <= Jump(p, npc) < |p.bc|
      modifies this`maxslot, this`steps, this`npc
      ensures st.Ok? && Recorded(old(steps), old(npc), stack) && maxslot == Cut(old(maxslot), p.bc[old(npc)].a)
    {
      hide Lands, Tracks, Look, Passes, ExitOk, PlainSnap, IrBuf.Valid, WfProto, Exits, TightIr, TightSnaps, TightSlots;
      JmpMoves(p, View(), npc);
      Shrink(p.bc[pc].a);
      Advance(Jump(p, pc), stack);
      st := Ok;
    }

    /** Room for one more instruction's worth of trace. */
    ghost predicate Limits()
      reads this, ir
    {
      && 0 <= maxrecord <= 0x7000 && 3 <= maxirconst <= 0x7000 && |ir.ins| <= maxrecord + 1 && |ir.k| <= maxirconst
    }

    /** Between two instructions. */
    ghost predicate Ready()
      reads this, ir, slot
    {
      Sound() && Limits() && if needsnap then |snap| >= 2 else Open()
    }

    /** A test: an ordering, an equality or a truth test. */
    method RecTest(i: BC.Ins, stack: Stack, haseq: bool) returns (st: Outcome)
      requires tight ==> Disciplined(i, maxslot)
      requires Open() && !needsnap && Room(12) && pc == npc && stack == Now() && 0 <= npc < |p.bc| && p.bc[npc] == i && i.op <= BC.ISF && Recordable(i.op)
      requires WfIns(p, npc) && WfIns(p, npc + 1) && p.framesize <= MAX_JSLOTS - BASESLOT && Strings(p)
      modifies this`snap, this`snapmap, this`mergesnap, this`needsnap, this`maxslot, this`at, this`steps, this`npc, ir, slot
      ensures st.Ok? ==> Recorded(old(steps), old(npc), stack) && |ir.ins| <= |old(ir.ins)| + 6 && |ir.k| <= |old(ir.k)| + 1
      ensures st == if Records(p, i, stack, haseq) then Ok else Fail(NYIBC)
      ensures IsBoolTest(i.op) ==> st.Ok? && maxslot == Cut(old(maxslot), p.bc[old(npc) + 1].a)
      ensures st.Ok? ==> maxslot >= Cut(old(maxslot), p.bc[old(npc) + 1].a)
    {
      hide Lands, Tracks, Look, Passes, ExitOk, PlainSnap, WfProto, Exits, WfIr, TestHolds, TightIr, TightSnaps, TightSlots, Cut;
      if IsBoolTest(i.op) {
        var rc := Getslot(i.d, stack);
        st := RecBoolTest(rc, stack);
      } else if IsOrder(i.op) {
        st := RecOrderIns(i, stack);
      } else {
        st := RecEqualityIns(i, stack, haseq);
      }
    }

    method RecOrderIns(i: BC.Ins, stack: Stack) returns (st: Outcome)
      requires tight ==> Disciplined(i, maxslot)
      requires Open() && !needsnap && Room(12) && pc == npc && stack == Now() && 0 <= npc < |p.bc| && p.bc[npc] == i && IsOrder(i.op)
      requires WfIns(p, npc) && WfIns(p, npc + 1) && p.framesize <= MAX_JSLOTS - BASESLOT
      modifies this`snap, this`snapmap, this`mergesnap, this`needsnap, this`maxslot, this`at, this`steps, this`npc, ir, slot
      ensures st.Ok? ==> Recorded(old(steps), old(npc), stack) && |ir.ins| <= |old(ir.ins)| + 6 && |ir.k| <= |old(ir.k)| + 1
      ensures st == if Records(p, i, stack, false) then Ok else Fail(NYIBC)
      ensures (st.Ok? ==> maxslot >= Cut(old(maxslot), p.bc[old(npc) + 1].a))
    {
      hide Lands, Tracks, Look, Passes, ExitOk, PlainSnap, WfProto, Exits, WfIr, TestHolds, TightIr, TightSnaps, TightSlots, Cut;
      var ra := Getslot(i.a, stack);
      var rc := Getslot(i.d, stack);
      st := RecOrder(ra, rc, stack);
    }

    method RecEqualityIns(i: BC.Ins, stack: Stack, haseq: bool) returns (st: Outcome)
      requires tight ==> Disciplined(i, maxslot)
      requires Open() && !needsnap && Room(12) && pc == npc && stack == Now() && 0 <= npc < |p.bc| && p.bc[npc] == i && IsEquality(i.op)
      requires WfIns(p, npc) && WfIns(p, npc + 1) && p.framesize <= MAX_JSLOTS - BASESLOT && Strings(p)
      modifies this`snap, this`snapmap, this`mergesnap, this`needsnap, this`maxslot, this`at, this`steps, this`npc, ir, slot
      ensures st.Ok? ==> Recorded(old(steps), old(npc), stack) && |ir.ins| <= |old(ir.ins)| + 6 && |ir.k| <= |old(ir.k)| + 1
      ensures st == if Records(p, i, stack, haseq) then Ok else Fail(NYIBC)
      ensures (st.Ok? ==> maxslot >= Cut(old(maxslot), p.bc[old(npc) + 1].a))
    {
      hide Lands, Tracks, Look, Passes, ExitOk, PlainSnap, WfProto, Exits, WfIr, TestHolds, TightIr, TightSnaps, TightSlots, Cut;
      var ra := Getslot(i.a, stack);
      var rc := EqOperand(i, stack);
      st := RecEquality(ra, rc, stack, haseq);
    }

    /** Operand D of an equality test. */
    method EqOperand(i: BC.Ins, stack: Stack) returns (rc: TRef)
      requires tight ==> Disciplined(i, maxslot)
      requires Open() && Room(2) && stack == Now() && IsEquality(i.op) && 0 <= i.d && p.framesize <= MAX_JSLOTS - BASESLOT && Strings(p)
      requires (i.op == BC.ISEQV || i.op == BC.ISNEV ==> i.d < p.framesize) && (i.op == BC.ISEQN || i.op == BC.ISNEN ==> i.d < |p.kn|)
      requires (i.op == BC.ISEQS || i.op == BC.ISNES ==> i.d < |p.ks|) && (i.op == BC.ISEQP || i.op == BC.ISNEP ==> i.d <= 2)
      modifies ir, slot
      ensures Open() && Operand(p, View(), i, rc) && Now() == old(Now()) && |ir.ins| <= |old(ir.ins)| + 1 && |ir.k| <= |old(ir.k)| + 1
      ensures forall j :: 0 <= j < MAX_JSLOTS ==> slot[j] == old(slot[j]) || old(slot[j]).None?
    {
      hide Lands, Tracks, Look, Passes, ExitOk, PlainSnap, WfProto, Exits, WfIr, TightIr, TightSnaps, TightSlots;
      if i.op == BC.ISEQV || i.op == BC.ISNEV {
        rc := Getslot(i.d, stack);
      } else if i.op == BC.ISEQS || i.op == BC.ISNES {
        rc := KStr(p.ks[i.d]);
      } else if i.op == BC.ISEQN || i.op == BC.ISNEN {
        rc := KNum(p.kn[i.d]);
      } else {
        rc := PriRef(i.d);
      }
    }

    /** A move, a constant, arithmetic: anything that stores to a register. */
    method RecStore(i: BC.Ins, stack: Stack) returns (st: Outcome)
      requires tight ==> Disciplined(i, maxslot)
      requires Open() && !needsnap && Room(12) && pc == npc && stack == Now() && 0 <= npc < |p.bc| && p.bc[npc] == i && StoresTo(i.op)
      requires WfIns(p, npc) && p.framesize <= MAX_JSLOTS - BASESLOT && Strings(p) && GapSafe(i)
      modifies this`maxslot, this`steps, this`npc, ir, slot
      ensures st.Ok? ==> Recorded(old(steps), old(npc), stack) && |ir.ins| <= |old(ir.ins)| + 6 && |ir.k| <= |old(ir.k)| + 1
      ensures st.Ok? ==> maxslot == Raised(old(maxslot), i.a)
      ensures st == if Records(p, i, stack, false) then Ok else Fail(NYIBC)
    {
      hide Lands, Tracks, Look, Passes, ExitOk, PlainSnap, WfProto, Exits, WfIr, TightIr, TightSnaps, TightSlots;
      if IsArith(i.op) {
        st := RecArith(i, stack);
      } else if IsConstLoad(i.op) {
        st := RecConst(i.a, stack);
      } else {
        var rc := Getslot(i.d, stack);
        if i.op == BC.MOV {
          st := RecMove(i.a, rc, stack);
        } else if i.op == BC.NOT {
          st := RecNot(i.a, rc, stack);
        } else {
          st := RecNeg(i.a, rc, stack);
        }
      }
    }

    /** The snapshot a branch asked for, before the next instruction. */
    method TakeNeeded(at0: int)
      requires Ready() && at0 == npc
      modifies this`pc, this`needsnap, this`snap, this`snapmap, this`mergesnap, this`at, ir
      ensures Open() && !needsnap && pc == npc && Now() == old(Now()) && ir.ins == old(ir.ins) && ir.k == old(ir.k) && slot[..] == old(slot[..])
    {
      hide Lands, Tracks, Look, Passes, ExitOk, PlainSnap, WfProto, Exits, WfIr, IrBuf.Valid, TightSnaps, TightIr, TightSlots;
      pc := at0;
      if needsnap {
        needsnap := false;
        SnapAdd();
        mergesnap := true;
      }
    }

    /** The convention was kept so far if it was before, and now. */
    ghost method Judge(disciplined: bool)
      requires Open()
      modifies this`tight
      ensures Open() && tight == (old(tight) && disciplined)
    {
      hide Exits, Tracks, Look, Passes, PlainSnap, WfProto, WfSym, TightIr, TightSnaps, TightSlots;
      tight := tight && disciplined;
    }

    lemma OpenHere()
      requires Open()
      ensures WfProto(p) && 0 <= npc < |p.bc|
    {
      hide Exits, Tracks, Look;
    }

    /** Records the instruction the interpreter is about to execute. */
    method RecordIns(at0: int, stack: Stack, haseq: bool, innerleft: bool) returns (st: Outcome)
      requires Ready() && at0 == npc && stack == Now() && (StoresTo(p.bc[at0].op) ==> GapSafe(p.bc[at0]))
      modifies this, ir, slot
      ensures !st.Fail? ==> Sound() && steps == old(steps) + 1 && BcStep(p, w0, at0, stack) == At(npc, Now())
      ensures st == if !(bcmin <= at0 < bcmin + bcextent) then Fail(LLEAVE)
        else var v := if p.bc[at0].op == BC.LOOP then old(LoopAt(at0, innerleft)) else if Records(p, p.bc[at0], stack, haseq) then Ok else Fail(NYIBC);
          if v.Ok? && (|ir.ins| > maxrecord + 1 || |ir.k| > maxirconst) then Fail(TRACEOV) else v
      ensures !st.Fail? || st == Fail(TRACEOV) ==> |ir.ins| <= |old(ir.ins)| + 6 && |ir.k| <= |old(ir.k)| + 1
      ensures st.Ok? ==> Ready()
      ensures st.Stop? ==> at0 == startpc && pc == npc == Pc0() && !needsnap && Room(12) && maxslot <= p.bc[at0].a
      ensures !st.Fail? ==> maxslot >= NextTop(p, at0, old(maxslot)) && bcmin <= at0 < bcmin + bcextent
      ensures old(tight) && Disciplined(p.bc[at0], old(maxslot)) ==> tight
      ensures at0 + 1 < |p.bc| && IsBoolTest(p.bc[at0].op) && st.Ok? ==> maxslot == Cut(old(maxslot), p.bc[at0 + 1].a)
      ensures IsBoolTest(p.bc[at0].op) && bcmin <= at0 < bcmin + bcextent && |old(ir.ins)| + 6 <= maxrecord && |old(ir.k)| < maxirconst ==> st.Ok?
    {
      hide Tracking, Sound, Open, Look, Cut, NextTop, Disciplined, WfProto, WfIns, Strings;
      TakeNeeded(at0);
      OpenHere();
      if pc < bcmin || pc - bcmin >= bcextent {
        return Fail(LLEAVE);
      }
      ProtoFacts(p, pc);
      Judge(Disciplined(p.bc[pc], maxslot));
      st := Dispatch(p.bc[pc], stack, haseq, innerleft);
      if !st.Ok? {
        return;
      }
      if ir.Nins() > REF_FIRST + maxrecord || ir.Nk() < REF_BIAS - maxirconst {
        return Fail(TRACEOV);
      }
    }

    method Dispatch(i: BC.Ins, stack: Stack, haseq: bool, innerleft: bool) returns (st: Outcome)
      requires tight ==> Disciplined(i, maxslot)
      requires Open() && !needsnap && Room(24) && pc == npc && stack == Now() && 0 <= npc < |p.bc| && p.bc[npc] == i && (StoresTo(i.op) ==> GapSafe(i))
      requires WfIns(p, npc) && (npc + 1 < |p.bc| ==> WfIns(p, npc + 1)) && Strings(p) && p.framesize <= MAX_JSLOTS - BASESLOT
      modifies this`snap, this`snapmap, this`mergesnap, this`needsnap, this`maxslot, this`at, this`steps, this`npc, this`pc, this`loopunroll, this`loopref, ir, slot
      ensures !st.Fail? ==> Recorded(old(steps), old(npc), stack) && |ir.ins| <= |old(ir.ins)| + 6 && |ir.k| <= |old(ir.k)| + 1
      ensures st.Stop? ==> old(pc) == startpc && pc == npc == Pc0() && !needsnap && maxslot <= i.a
      ensures st == if i.op == BC.LOOP then old(LoopAt(pc, innerleft)) else if Records(p, i, stack, haseq) then Ok else Fail(NYIBC)
      ensures IsBoolTest(i.op) ==> st.Ok? && maxslot == Cut(old(maxslot), p.bc[old(npc) + 1].a)
      ensures !st.Fail? ==> maxslot >= NextTop(p, old(npc), old(maxslot))
    {
      hide Lands, Tracks, Look, Passes, ExitOk, PlainSnap, WfProto, Exits, WfIr, IrBuf.Valid, TightIr, TightSnaps, TightSlots, Cut, Raised;
      if i.op == BC.LOOP {
        st := RecLoop(stack, innerleft);
      } else if i.op == BC.JMP {
        st := RecJmp(stack);
      } else if i.op == BC.KNIL {
        st := RecNil(stack);
      } else if StoresTo(i.op) {
        st := RecStore(i, stack);
      } else if i.op <= BC.ISF && Recordable(i.op) {
        st := RecTest(i, stack, haseq);
      } else {
        st := Fail(NYIBC);
      }
    }

    /** The loop snapshot that ends the trace. */
    method Finish() returns (t: Trace)
      requires Sound() && Room(1) && pc == npc == Pc0() && !needsnap
      modifies this`snap, this`snapmap, this`mergesnap, this`at, this`needsnap, ir
      ensures Sound() && t == Trace(ir.ins, ir.k, snap, snapmap, BASESLOT + maxslot) && TraceOk(p, t, Pc0(), at)
      ensures tight == old(tight) && (tight ==> TightIr(t.ir, base0) && TightSnaps(Snaps(t.snap, t.map_, at), base0)) && ir.Valid() && ir.ins == t.ir
      ensures at != [] && at[|at| - 1] == steps && Passes(t.ir, t.k, w0, s0, |t.ir|)
    {
      hide Lands, Tracks, Look, Passes, ExitOk, PlainSnap, WfProto, WfIr, IrBuf.Valid, TightSnaps, TightIr, TightSlots;
      needsnap := false;
      mergesnap := true;
      SnapAdd();
      mergesnap := true;
      t := Trace(ir.ins, ir.k, snap, snapmap, BASESLOT + maxslot);
      ghost var m := Sym(ir.ins, ir.k, NoSlots());
      assert Extends(View(), m);
      ExitsExtended(p, View(), m, Shots(), Pc0());
    }

    /** One more instruction is recorded, and the interpreter is past it. */
    ghost predicate Recorded(steps0: nat, pc0: int, stack: Stack)
      reads this, ir, slot
    {
      && Sound() && steps == steps0 + 1 && BcStep(p, w0, pc0, stack) == At(npc, Now())
      && if needsnap then |snap| >= 2 else Open()
    }
  }

  /** Two tables are compared only if they are the same, and without `__eq`. */
  predicate RefusesEq(a: Value, b: Value, haseq: bool) { TypeOf(a) == TypeOf(b) == IRT_TAB && (haseq || !RawEq(a, b)) }

  /** Is an instruction recorded, with these values in the registers? It must be
      one of those the recorder knows; orderings and arithmetic want numbers. */
  predicate Records(p: Proto, i: BC.Ins, s: Stack, haseq: bool) {
    && Recordable(i.op)
    && (IsOrder(i.op) ==> Reg(s, i.a).Num? && Reg(s, i.d).Num?)
    && (IsEquality(i.op) ==> !RefusesEq(Reg(s, i.a), OperandD(p, i, s), haseq))
    && (IsArith(i.op) ==> Reg(s, BC.BcB(i)).Num? && (i.op >= ADDVV ==> Reg(s, BC.BcC(i)).Num?))
    && (i.op == UNM ==> Reg(s, i.d).Num?)
  }

  /** Registers in use after a store to `a`. */
  function Raised(maxslot: int, a: int): int { if a >= maxslot then a + 1 else maxslot }

  /** Registers in use behind the instruction at `pc`, at least. */
  function NextTop(p: Proto, pc: int, m: int): int
    requires 0 <= pc < |p.bc|
  {
    var i := p.bc[pc];
    if StoresTo(i.op) then Raised(m, i.a)
    else if i.op == BC.KNIL then Raised(m, i.d)
    else if i.op <= BC.ISF && pc + 1 < |p.bc| then Cut(m, p.bc[pc + 1].a)
    else if i.op == BC.JMP || i.op == BC.LOOP then Cut(m, i.a)
    else m
  }

  /** Registers in use once those from `a` on are dead. */
  function Cut(maxslot: int, a: int): int { if a < maxslot then a else maxslot }

  predicate Strings(p: Proto) { forall i :: 0 <= i < |p.ks| ==> p.ks[i].Gc? && p.ks[i].t == IRT_STR }

  /** `rc` stands for operand D of a test: a register, or a constant. */
  predicate Operand(p: Proto, m: Sym, i: BC.Ins, rc: TRef) {
    && rc.Ref?
    && if i.op == BC.ISEQV || i.op == BC.ISNEV then RegIn(i.d) && |m.slot| == MAX_JSLOTS && m.slot[BASESLOT + i.d] == rc
       else rc.ref < REF_BIAS && KAt(m.k, rc.ref, ConstOperand(p, i)) && rc.t == TypeOf(ConstOperand(p, i))
  }

  function ConstOperand(p: Proto, i: BC.Ins): Value {
    if i.op == BC.ISEQS || i.op == BC.ISNES then (if 0 <= i.d < |p.ks| then p.ks[i.d] else Nil)
    else if i.op == BC.ISEQN || i.op == BC.ISNEN then (if 0 <= i.d < |p.kn| then Num(p.kn[i.d]) else Nil)
    else PriValue(i.d)
  }

  lemma OperandKept(p: Proto, m: Sym, m2: Sym, i: BC.Ins, rc: TRef)
    requires Operand(p, m, i, rc) && m2.slot == m.slot && m2.k == m.k
    ensures Operand(p, m2, i, rc)
  {
  }

  lemma EqLoaded(p: Proto, m: Sym, i: BC.Ins, ra: TRef, rc: TRef)
    requires WfSym(m) && IsEquality(i.op) && Operand(p, m, i, rc) && RegIn(i.a) && m.slot[BASESLOT + i.a] == ra && WfProto(p)
    ensures LoadedTab(ra) && LoadedTab(rc)
  {
  }

  lemma OperandRef(p: Proto, m: Sym, i: BC.Ins, rc: TRef)
    requires WfSym(m) && IsEquality(i.op) && Operand(p, m, i, rc)
    ensures rc.Ref? && RefOk(|m.ir|, |m.k|, rc.ref)
  {
  }

  /** Both operands of an equality have the value and type their references say. */
  lemma EqTypes(p: Proto, m: Sym, pc0: int, steps: nat, pc: int, rc: TRef, w: Arith, s: Stack)
    requires WfSym(m) && Tracks(p, m, pc0, steps, pc) && Passing(m, w, s) && BranchIns(p, pc) && IsEquality(p.bc[pc].op) && RegIn(p.bc[pc].a)
    requires Operand(p, m, p.bc[pc], rc) && m.slot[BASESLOT + p.bc[pc].a].Ref?
    ensures var (i, t, ra) := (p.bc[pc], Look(m, w, s), m.slot[BASESLOT + p.bc[pc].a]);
      && Reg(t, i.a) == ValueOf(m, w, s, ra) && TypeOf(Reg(t, i.a)) == ra.t
      && OperandD(p, i, t) == ValueOf(m, w, s, rc) && TypeOf(OperandD(p, i, t)) == rc.t
  {
    hide Look;
    var i := p.bc[pc];
    TypeAt(p, m, pc0, steps, pc, w, s, BASESLOT + i.a);
    if i.op == BC.ISEQV || i.op == BC.ISNEV {
      TypeAt(p, m, pc0, steps, pc, w, s, BASESLOT + i.d);
    }
  }

  lemma EqGoes(p: Proto, pc: int, t: Stack)
    requires BranchIns(p, pc) && IsEquality(p.bc[pc].op)
    ensures var i := p.bc[pc]; GoesWay(p, pc, t, RawEq(Reg(t, i.a), OperandD(p, i, t)) == (i.op % 2 == 0))
  {
  }

  lemma EqConst(p: Proto, m: Sym, pc0: int, steps: nat, pc: int, rc: TRef, w0: Arith, s0: Stack)
    requires WfSym(m) && Tracks(p, m, pc0, steps, pc) && Passing(m, w0, s0) && BranchIns(p, pc) && IsEquality(p.bc[pc].op) && RegIn(p.bc[pc].a)
    requires Operand(p, m, p.bc[pc], rc) && IsConstRef(m.slot[BASESLOT + p.bc[pc].a]) && IsConstRef(rc)
    ensures var (i, t) := (p.bc[pc], Look(m, w0, s0)); Moves(p, m, pc, Branched(p, pc, RawEq(Reg(t, i.a), OperandD(p, i, t)) == (i.op % 2 == 0)))
  {
    hide Look, Passes, Operand, OperandD;
    var (i, t0) := (p.bc[pc], Look(m, w0, s0));
    EqTypes(p, m, pc0, steps, pc, rc, w0, s0);
    forall w, s | Passing(m, w, s)
      ensures BcStep(p, w, pc, Look(m, w, s)) == At(Branched(p, pc, RawEq(Reg(t0, i.a), OperandD(p, i, t0)) == (i.op % 2 == 0)), Look(m, w, s))
    {
      EqTypes(p, m, pc0, steps, pc, rc, w, s);
    }
  }

  /** The guard of an equality, or the types alone, decide it on every run. */
  lemma EqDecides(p: Proto, m: Sym, pc0: int, steps: nat, pc: int, rc: TRef, g: IRIns, guarded: bool, w0: Arith, s0: Stack)
    requires WfSym(m) && Tracks(p, m, pc0, steps, pc) && Passing(m, w0, s0) && BranchIns(p, pc) && IsEquality(p.bc[pc].op) && RegIn(p.bc[pc].a)
    requires Operand(p, m, p.bc[pc], rc) && m.slot[BASESLOT + p.bc[pc].a].Ref?
    requires var (i, t, ra) := (p.bc[pc], Look(m, w0, s0), m.slot[BASESLOT + p.bc[pc].a]);
      && (guarded ==> ra.t == rc.t && g == Fresh(if RawEq(Reg(t, i.a), OperandD(p, i, t)) then EQ else NE, ra.t, true, ra.ref, rc.ref))
      && (!guarded ==> ra.t != rc.t || ra.t <= IRT_TRUE || (IsConstRef(ra) && IsConstRef(rc)))
    ensures var (i, t) := (p.bc[pc], Look(m, w0, s0));
      Decides(p, m, pc, if guarded then [g] else [], RawEq(Reg(t, i.a), OperandD(p, i, t)) == (i.op % 2 == 0))
  {
    hide Look, Passes, Operand, OperandD;
    var (i, t0) := (p.bc[pc], Look(m, w0, s0));
    OperandRef(p, m, i, rc);
    EqTypes(p, m, pc0, steps, pc, rc, w0, s0);
    forall w, s | Passing(m, w, s)
      ensures DecidesAt(p, m, pc, if guarded then [g] else [], RawEq(Reg(t0, i.a), OperandD(p, i, t0)) == (i.op % 2 == 0), w, s)
    {
      EqTypes(p, m, pc0, steps, pc, rc, w, s);
      EqAgrees(p, m, pc, rc, g, guarded, w0, s0, w, s);
    }
  }

  lemma EqAgrees(p: Proto, m: Sym, pc: int, rc: TRef, g: IRIns, guarded: bool, w0: Arith, s0: Stack, w: Arith, s: Stack)
    requires |m.slot| == MAX_JSLOTS && BranchIns(p, pc) && IsEquality(p.bc[pc].op) && RegIn(p.bc[pc].a) && m.slot[BASESLOT + p.bc[pc].a].Ref? && rc.Ref?
    requires var (i, t0, ra) := (p.bc[pc], Look(m, w0, s0), m.slot[BASESLOT + p.bc[pc].a]);
      && Reg(t0, i.a) == ValueOf(m, w0, s0, ra) && TypeOf(Reg(t0, i.a)) == ra.t && OperandD(p, i, t0) == ValueOf(m, w0, s0, rc) && TypeOf(OperandD(p, i, t0)) == rc.t
      && (guarded ==> ra.t == rc.t && g == Fresh(if RawEq(Reg(t0, i.a), OperandD(p, i, t0)) then EQ else NE, ra.t, true, ra.ref, rc.ref))
      && (!guarded ==> ra.t != rc.t || ra.t <= IRT_TRUE || (IsConstRef(ra) && IsConstRef(rc)))
    requires var (i, t, ra) := (p.bc[pc], Look(m, w, s), m.slot[BASESLOT + p.bc[pc].a]);
      Reg(t, i.a) == ValueOf(m, w, s, ra) && TypeOf(Reg(t, i.a)) == ra.t && OperandD(p, i, t) == ValueOf(m, w, s, rc) && TypeOf(OperandD(p, i, t)) == rc.t
    ensures var (i, t) := (p.bc[pc], Look(m, w0, s0));
      DecidesAt(p, m, pc, if guarded then [g] else [], RawEq(Reg(t, i.a), OperandD(p, i, t)) == (i.op % 2 == 0), w, s)
  {
    hide Look, OperandD;
  }

  /** A test with its jump. */
  predicate TestIns(p: Proto, pc: int) {
    && 0 <= pc < |p.bc| && IsBoolTest(p.bc[pc].op) && pc + 2 < |p.bc| && 0 <= p.bc[pc + 1].a && 0 <= Jump(p, pc + 1) < |p.bc|
  }

  predicate IsCopy(op: int) { op == BC.ISTC || op == BC.ISFC }

  /** Truth is a matter of type. */
  predicate TrueType(t: int) { t != IRT_NIL && t != IRT_FALSE }

  lemma CopyStores(p: Proto, m: Sym, pc0: int, steps: nat, pc: int, rc: TRef, taken: bool)
    requires WfSym(m) && Tracks(p, m, pc0, steps, pc) && TestIns(p, pc) && IsCopy(p.bc[pc].op) && RegIn(p.bc[pc].d) && RegIn(p.bc[pc].a)
    requires rc.Ref? && m.slot[BASESLOT + p.bc[pc].d] == rc && TrueType(rc.t) == (p.bc[pc].op % 2 == 0)
    ensures Stores(p, m, pc, Jump(p, pc + 1), BASESLOT + p.bc[pc].a, rc)
  {
    hide Look, Passes;
    forall w, s | Passing(m, w, s)
      ensures var v := ValueOf(m, w, s, rc); TypeOf(v) == rc.t && BcStep(p, w, pc, Look(m, w, s)) == At(Jump(p, pc + 1), Look(m, w, s)[BASESLOT + p.bc[pc].a := v])
    {
      TypeAt(p, m, pc0, steps, pc, w, s, BASESLOT + p.bc[pc].d);
    }
  }

  lemma TestMoves(p: Proto, m: Sym, pc0: int, steps: nat, pc: int, rc: TRef, taken: bool)
    requires WfSym(m) && Tracks(p, m, pc0, steps, pc) && TestIns(p, pc) && RegIn(p.bc[pc].d) && rc.Ref? && m.slot[BASESLOT + p.bc[pc].d] == rc
    requires taken == (TrueType(rc.t) == (p.bc[pc].op % 2 == 0)) && (taken ==> !IsCopy(p.bc[pc].op))
    ensures Moves(p, m, pc, if taken then Jump(p, pc + 1) else pc + 2)
  {
    hide Look, Passes;
    forall w, s | Passing(m, w, s) ensures BcStep(p, w, pc, Look(m, w, s)) == At(if taken then Jump(p, pc + 1) else pc + 2, Look(m, w, s)) {
      TypeAt(p, m, pc0, steps, pc, w, s, BASESLOT + p.bc[pc].d);
    }
  }

  lemma MoveStores(p: Proto, m: Sym, pc0: int, steps: nat, pc: int, rc: TRef)
    requires WfSym(m) && Tracks(p, m, pc0, steps, pc) && 0 <= pc < |p.bc| && p.bc[pc].op == BC.MOV && RegIn(p.bc[pc].a) && RegIn(p.bc[pc].d)
    requires rc.Ref? && m.slot[BASESLOT + p.bc[pc].d] == rc
    ensures Stores(p, m, pc, pc + 1, BASESLOT + p.bc[pc].a, rc) && RefOk(|m.ir|, |m.k|, rc.ref)
  {
    hide Look, Passes;
    forall w, s | Passing(m, w, s)
      ensures var v := ValueOf(m, w, s, rc); TypeOf(v) == rc.t && BcStep(p, w, pc, Look(m, w, s)) == At(pc + 1, Look(m, w, s)[BASESLOT + p.bc[pc].a := v])
    {
      TypeAt(p, m, pc0, steps, pc, w, s, BASESLOT + p.bc[pc].d);
    }
  }

  lemma NotStores(p: Proto, m: Sym, pc0: int, steps: nat, pc: int, rc: TRef, result: TRef)
    requires WfSym(m) && Tracks(p, m, pc0, steps, pc) && 0 <= pc < |p.bc| && p.bc[pc].op == BC.NOT && RegIn(p.bc[pc].a) && RegIn(p.bc[pc].d)
    requires rc.Ref? && m.slot[BASESLOT + p.bc[pc].d] == rc && KPrimitives(m.k) && result == PriRef(if TrueType(rc.t) then IRT_FALSE else IRT_TRUE)
    ensures Stores(p, m, pc, pc + 1, BASESLOT + p.bc[pc].a, result) && RefOk(|m.ir|, |m.k|, result.ref)
  {
    hide Look, Passes;
    forall w, s | Passing(m, w, s)
      ensures var v := ValueOf(m, w, s, result); TypeOf(v) == result.t && BcStep(p, w, pc, Look(m, w, s)) == At(pc + 1, Look(m, w, s)[BASESLOT + p.bc[pc].a := v])
    {
      TypeAt(p, m, pc0, steps, pc, w, s, BASESLOT + p.bc[pc].d);
    }
  }

  lemma NegStores(p: Proto, m0: Sym, m: Sym, pc0: int, steps: nat, pc: int, rc: TRef, result: TRef, b: int)
    requires WfSym(m) && Tracks(p, m, pc0, steps, pc) && 0 <= pc < |p.bc| && p.bc[pc].op == UNM && RegIn(p.bc[pc].a) && RegIn(p.bc[pc].d)
    requires IsNumRef(rc) && m.slot[BASESLOT + p.bc[pc].d] == rc && IsNumRef(result) && RefOk(|m.ir|, |m.k|, result.ref)
    requires forall w, s {:trigger EnvOf(m, w, s)} :: ValueOf(m, w, s, result) == Compute(Fresh(NEG, IRT_NUM, false, rc.ref, b), m.k, EnvOf(m, w, s), w, s)
    ensures Stores(p, m, pc, pc + 1, BASESLOT + p.bc[pc].a, result)
  {
    hide Look, Passes;
    forall w, s | Passing(m, w, s)
      ensures var v := ValueOf(m, w, s, result); TypeOf(v) == result.t && BcStep(p, w, pc, Look(m, w, s)) == At(pc + 1, Look(m, w, s)[BASESLOT + p.bc[pc].a := v])
    {
      TypeAt(p, m, pc0, steps, pc, w, s, BASESLOT + p.bc[pc].d);
      assert ValueOf(m, w, s, result) == Compute(Fresh(NEG, IRT_NUM, false, rc.ref, b), m.k, EnvOf(m, w, s), w, s);
    }
  }

  lemma ConstStores(p: Proto, m: Sym, pc: int, result: TRef)
    requires |m.slot| == MAX_JSLOTS && 0 <= pc < |p.bc| && IsConstLoad(p.bc[pc].op) && RegIn(p.bc[pc].a) && KPrimitives(m.k) && WfIns(p, pc) && Strings(p)
    requires result.Ref? && if p.bc[pc].op == BC.KPRI then result == PriRef(p.bc[pc].d)
      else result.ref < REF_BIAS && KAt(m.k, result.ref, LoadConst(p, p.bc[pc])) && result.t == TypeOf(LoadConst(p, p.bc[pc]))
    ensures Stores(p, m, pc, pc + 1, BASESLOT + p.bc[pc].a, result) && RefOk(|m.ir|, |m.k|, result.ref)
  {
    hide Look, Passes;
  }

  lemma LoopMoves(p: Proto, m: Sym, pc: int)
    requires |m.slot| == MAX_JSLOTS && 0 <= pc < |p.bc| && p.bc[pc].op == BC.LOOP
    ensures Moves(p, m, pc, pc + 1)
  {
    hide Look, Passes;
  }

  lemma JmpMoves(p: Proto, m: Sym, pc: int)
    requires |m.slot| == MAX_JSLOTS && 0 <= pc < |p.bc| && p.bc[pc].op == BC.JMP
    ensures Moves(p, m, pc, Jump(p, pc))
  {
    hide Look, Passes;
  }

  /** The compiler's convention: an instruction reads registers below `maxslot`
      and writes at most the one after them. */
  predicate Disciplined(i: BC.Ins, maxslot: int) {
    && (StoresTo(i.op) || i.op == BC.KNIL ==> i.a <= maxslot)
    && (IsOrder(i.op) || IsEquality(i.op) ==> i.a < maxslot)
    && (ReadsD(i.op) ==> i.d < maxslot)
    && (IsArith(i.op) ==> BC.BcB(i) < maxslot && (i.op >= ADDVV ==> BC.BcC(i) < maxslot))
  }

  predicate TightIr(ins: seq<IRIns>, b: int) { forall g :: 0 <= g < |ins| && ins[g].op == SLOAD ==> ins[g].op1 < BASESLOT + b }

  predicate TightSlots(slot: seq<TRef>, maxslot: int, b: int) {
    forall i :: BASESLOT + b <= i < BASESLOT + maxslot && 0 <= i < |slot| ==> slot[i].Ref?
  }

  /** The map restores every slot from `lo` to below `hi`. */
  ghost predicate Covers(e: seq<SnapEntry>, lo: int, hi: int) {
    forall i {:trigger HasEntry(e, i)} :: lo <= i < hi ==> HasEntry(e, i)
  }

  predicate HasEntry(e: seq<SnapEntry>, i: int) { exists x :: 0 <= x < |e| && e[x].slot == i && !e[x].norestore }

  ghost predicate TightSnaps(n: Snaps, b: int) {
    forall j {:trigger Entries(n, j)} :: 0 <= j < |n.snap| && TileAt(n, j) ==> Covers(Entries(n, j), BASESLOT + b, n.snap[j].nslots)
  }

  /** A new snapshot restores the slots the trace wrote first. */
  lemma {:induction false} MapCovers(slot: seq<TRef>, ir: seq<IRIns>, n: nat, maxslot: int, b: int)
    requires n <= |slot| && n <= BASESLOT + maxslot && TightIr(ir, b) && TightSlots(slot, maxslot, b) && 0 <= b
    ensures Covers(MapOf(slot, ir, n), BASESLOT + b, n)
  {
    if n > 0 {
      MapCovers(slot, ir, n - 1, maxslot, b);
      var e, x := MapOf(slot, ir, n - 1), EntryOf(slot, ir, n - 1);
      forall i | BASESLOT + b <= i < n ensures HasEntry(e + x, i) {
        if i < n - 1 {
          assert HasEntry(e, i);
          var y :| 0 <= y < |e| && e[y].slot == i && !e[y].norestore;
          assert (e + x)[y] == e[y];
        } else {
          assert x == [SnapEntry(i, slot[i].ref, false)] && (e + x)[|e|] == x[0];
        }
      }
    }
  }

  lemma TightPush(n: Snaps, x: SnapShot, e: seq<SnapEntry>, at: nat, b: int)
    requires Tiled(n) && |n.at| == |n.snap| && x.mapofs == |n.map_| && x.nent == |e| && (n.snap == [] ==> n.map_ == [])
    requires TightSnaps(n, b) && Covers(e, BASESLOT + b, x.nslots)
    ensures TightSnaps(Pushed(n, x, e, at), b)
  {
    TiledPush(n, x, e, at);
  }

  lemma TightDrop(n: Snaps, b: int)
    requires Tiled(n) && |n.snap| >= 2 && |n.at| == |n.snap| && TightSnaps(n, b)
    ensures 0 <= n.snap[|n.snap| - 1].mapofs <= |n.map_| && TightSnaps(Dropped(n), b)
  {
    TiledDrop(n);
  }

  lemma TightFixed(m0: Sym, m: Sym, n: Snaps, npc: int, at: nat, b: int)
    requires WfSnaps(m0, n) && Extends(m0, m) && |n.snap| >= 2 && TightSnaps(n, b)
    ensures TightSnaps(Fixed(n, npc, at), b)
  {
    FixedWf(m0, m, n, npc, at);
  }

  /** A finished trace that links to itself. `top` is one above the last slot
      its final snapshot covers. */
  datatype Trace = Trace(ir: seq<IRIns>, k: seq<KIns>, snap: seq<SnapShot>, map_: seq<SnapEntry>, top: int)

  function NoSlots(): seq<TRef> { seq(MAX_JSLOTS, _ => None) }
  function Code(t: Trace): Sym { Sym(t.ir, t.k, NoSlots()) }

  /** Every guard exits correctly, and falling off the end the interpreter is
      back at the head with the stack the final snapshot restores. */
  ghost predicate TraceOk(p: Proto, t: Trace, pc0: int, at: seq<nat>) {
    var n := Snaps(t.snap, t.map_, at);
    && WfSym(Code(t)) && Exits(p, Code(t), n, pc0) && t.snap[0].pc == pc0
    && var last := |t.snap| - 1;
      && Pos(t.snap[last]) == |t.ir| && t.snap[last].pc == pc0 && t.snap[last].nslots == t.top
      && TileAt(n, last) && PlainSnap(p, Code(t), n, pc0, last)
  }

  /** Instructions that store one result. */
  predicate StoresTo(op: int) { IsArith(op) || IsConstLoad(op) || op == BC.MOV || op == BC.NOT || op == UNM }

  lemma ProtoFacts(p: Proto, pc: int)
    requires WfProto(p) && 0 <= pc < |p.bc|
    ensures WfIns(p, pc) && (pc + 1 < |p.bc| ==> WfIns(p, pc + 1)) && Strings(p) && 0 <= p.framesize <= MAX_JSLOTS - BASESLOT
  {
  }

  /** Where the operands of an arithmetic instruction are. */
  predicate OperandRefs(p: Proto, m: Sym, i: BC.Ins, rb: TRef, rc: TRef) {
    && |m.slot| == MAX_JSLOTS && RegIn(BC.BcB(i)) && rb.Ref? && rc.Ref? && m.slot[BASESLOT + BC.BcB(i)] == rb
    && if i.op < ADDVV then 0 <= BC.BcC(i) < |p.kn| && rc.ref < REF_BIAS && KAt(m.k, rc.ref, Num(p.kn[BC.BcC(i)])) && rc.t == IRT_NUM
       else RegIn(BC.BcC(i)) && m.slot[BASESLOT + BC.BcC(i)] == rc
  }

  lemma LoadedRefs(m1: Sym, m2: Sym, rb: TRef, rc: TRef, i: BC.Ins)
    requires WfSym(m1) && WfSym(m2) && Extends(m1, m2) && RegIn(BC.BcB(i)) && rb.Ref? && m1.slot[BASESLOT + BC.BcB(i)] == rb
    requires rc.Ref? && (m2.slot == m1.slot || (RegIn(BC.BcC(i)) && m2.slot == m1.slot[BASESLOT + BC.BcC(i) := rc] && (m1.slot[BASESLOT + BC.BcC(i)].None? || m1.slot[BASESLOT + BC.BcC(i)] == rc)))
    ensures m2.slot[BASESLOT + BC.BcB(i)] == rb && RefOk(|m2.ir|, |m2.k|, rb.ref)
  {
  }

  lemma ArithStores(p: Proto, m: Sym, m2: Sym, pc0: int, steps: nat, pc: int, i: BC.Ins, rb: TRef, rc: TRef, tr: TRef)
    requires WfSym(m) && WfSym(m2) && Extends(m, m2) && m2.slot == m.slot && Tracks(p, m2, pc0, steps, pc) && 0 <= pc < |p.bc| && p.bc[pc] == i && IsArith(i.op) && RegIn(i.a)
    requires OperandRefs(p, m2, i, rb, rc) && IsNumRef(rb) && IsNumRef(rc) && IsNumRef(tr)
    requires if ADDNV <= i.op < ADDVV then ArithIs(m2, rc, rb, tr, i.op) else ArithIs(m2, rb, rc, tr, i.op)
    ensures Stores(p, m2, pc, pc + 1, BASESLOT + i.a, tr)
  {
    hide Look, Passes;
    forall w, s | Passing(m2, w, s)
      ensures var v := ValueOf(m2, w, s, tr); TypeOf(v) == tr.t && BcStep(p, w, pc, Look(m2, w, s)) == At(pc + 1, Look(m2, w, s)[BASESLOT + i.a := v])
    {
      TypeAt(p, m2, pc0, steps, pc, w, s, BASESLOT + BC.BcB(i));
      if i.op >= ADDVV { TypeAt(p, m2, pc0, steps, pc, w, s, BASESLOT + BC.BcC(i)); }
      assert EnvOf(m2, w, s) == EnvOf(m2, w, s);
      ArithSteps(p, m2, pc, i, rb, rc, tr, w, s);
    }
  }

  lemma ArithSteps(p: Proto, m: Sym, pc: int, i: BC.Ins, rb: TRef, rc: TRef, tr: TRef, w: Arith, s: Stack)
    requires |m.slot| == MAX_JSLOTS && 0 <= pc < |p.bc| && p.bc[pc] == i && IsArith(i.op) && RegIn(i.a) && OperandRefs(p, m, i, rb, rc) && tr.Ref?
    requires var t := Look(m, w, s);
      && Reg(t, BC.BcB(i)) == ValueOf(m, w, s, rb) && Reg(t, BC.BcB(i)).Num?
      && (i.op >= ADDVV ==> Reg(t, BC.BcC(i)) == ValueOf(m, w, s, rc) && Reg(t, BC.BcC(i)).Num?)
    requires var (x, y) := if ADDNV <= i.op < ADDVV then (rc, rb) else (rb, rc);
      ValueOf(m, w, s, tr) == Num(ArithNum(w, i.op, NumOf(ValueOf(m, w, s, x)), NumOf(ValueOf(m, w, s, y))))
    ensures BcStep(p, w, pc, Look(m, w, s)) == At(pc + 1, Look(m, w, s)[BASESLOT + i.a := ValueOf(m, w, s, tr)])
  {
    hide Look, ArithNum;
  }

  /** `tr` is the result of the arithmetic instruction on every run. */
  ghost predicate ArithIs(m: Sym, rb: TRef, rc: TRef, tr: TRef, op: int)
    requires rb.Ref? && rc.Ref? && tr.Ref?
  {
    forall w, s {:trigger EnvOf(m, w, s)} ::
      ValueOf(m, w, s, tr) == Num(ArithNum(w, op, NumOf(ValueOf(m, w, s, rb)), NumOf(ValueOf(m, w, s, rc))))
  }

  lemma SimpleValue(m: Sym, rb: TRef, rc: TRef, tr: TRef, op: int, irop: int)
    requires rb.Ref? && rc.Ref? && tr.Ref? && IsArith(op) && irop == (if op == POWVV then POW else ADD + (op - ADDVN) % 5) && irop != MOD
    requires forall w, s {:trigger EnvOf(m, w, s)} :: ValueOf(m, w, s, tr) == Compute(Fresh(irop, IRT_NUM, false, rb.ref, rc.ref), m.k, EnvOf(m, w, s), w, s)
    ensures ArithIs(m, rb, rc, tr, op)
  {
    forall w, s ensures ValueOf(m, w, s, tr) == Num(ArithNum(w, op, NumOf(ValueOf(m, w, s, rb)), NumOf(ValueOf(m, w, s, rc)))) {
      assert ValueOf(m, w, s, tr) == Compute(Fresh(irop, IRT_NUM, false, rb.ref, rc.ref), m.k, EnvOf(m, w, s), w, s);
    }
  }

  /** `x - floor(x / y) * y`, in four instructions. */
  lemma RemainderValue(m: Sym, m1: Sym, m2: Sym, m3: Sym, m4: Sym, rb: TRef, rc: TRef, q: TRef, f: TRef, t: TRef, tr: TRef, op: int)
    requires WfSym(m) && WfSym(m1) && WfSym(m2) && WfSym(m3) && Extends(m, m1) && Extends(m1, m2) && Extends(m2, m3) && Extends(m3, m4)
    requires rb.Ref? && rc.Ref? && q.Ref? && f.Ref? && t.Ref? && tr.Ref? && IsArith(op) && op != POWVV && (op - ADDVN) % 5 == 4
    requires RefOk(|m.ir|, |m.k|, rb.ref) && RefOk(|m.ir|, |m.k|, rc.ref) && RefOk(|m1.ir|, |m1.k|, q.ref) && RefOk(|m2.ir|, |m2.k|, f.ref) && RefOk(|m3.ir|, |m3.k|, t.ref)
    requires forall w, s {:trigger EnvOf(m1, w, s)} :: ValueOf(m1, w, s, q) == Compute(Fresh(DIV, IRT_NUM, false, rb.ref, rc.ref), m1.k, EnvOf(m1, w, s), w, s)
    requires forall w, s {:trigger EnvOf(m2, w, s)} :: ValueOf(m2, w, s, f) == Compute(Fresh(FPMATH, IRT_NUM, false, q.ref, 0), m2.k, EnvOf(m2, w, s), w, s)
    requires forall w, s {:trigger EnvOf(m3, w, s)} :: ValueOf(m3, w, s, t) == Compute(Fresh(MUL, IRT_NUM, false, f.ref, rc.ref), m3.k, EnvOf(m3, w, s), w, s)
    requires forall w, s {:trigger EnvOf(m4, w, s)} :: ValueOf(m4, w, s, tr) == Compute(Fresh(SUB, IRT_NUM, false, rb.ref, t.ref), m4.k, EnvOf(m4, w, s), w, s)
    ensures Extends(m, m4) && ArithIs(m4, rb, rc, tr, op)
  {
    ExtendsTrans(m, m1, m2);
    ExtendsTrans(m, m2, m3);
    ExtendsTrans(m, m3, m4);
    forall w, s ensures ValueOf(m4, w, s, tr) == Num(ArithNum(w, op, NumOf(ValueOf(m4, w, s, rb)), NumOf(ValueOf(m4, w, s, rc)))) {
      ExtendedAt(m, m1, w, s);
      ExtendedAt(m, m2, w, s);
      ExtendedAt(m, m3, w, s);
      ExtendedAt(m, m4, w, s);
      ExtendedAt(m1, m2, w, s);
      ExtendedAt(m2, m3, w, s);
      ExtendedAt(m3, m4, w, s);
      RemainderAt(m1, m2, m3, m4, rb, rc, q, f, t, tr, op, w, s);
    }
  }

  lemma RemainderAt(m1: Sym, m2: Sym, m3: Sym, m4: Sym, rb: TRef, rc: TRef, q: TRef, f: TRef, t: TRef, tr: TRef, op: int, w: Arith, s: Stack)
    requires rb.Ref? && rc.Ref? && q.Ref? && f.Ref? && t.Ref? && tr.Ref? && IsArith(op) && op != POWVV && (op - ADDVN) % 5 == 4
    requires ValueOf(m1, w, s, q) == Num(w.div(NumOf(ValueOf(m1, w, s, rb)), NumOf(ValueOf(m1, w, s, rc))))
    requires ValueOf(m2, w, s, f) == Num(w.floor(NumOf(ValueOf(m2, w, s, q))))
    requires ValueOf(m3, w, s, t) == Num(w.mul(NumOf(ValueOf(m3, w, s, f)), NumOf(ValueOf(m3, w, s, rc))))
    requires ValueOf(m4, w, s, tr) == Num(w.sub(NumOf(ValueOf(m4, w, s, rb)), NumOf(ValueOf(m4, w, s, t))))
    requires ValueOf(m1, w, s, rb) == ValueOf(m4, w, s, rb) && ValueOf(m1, w, s, rc) == ValueOf(m4, w, s, rc) && ValueOf(m3, w, s, rc) == ValueOf(m4, w, s, rc)
    requires ValueOf(m2, w, s, q) == ValueOf(m1, w, s, q) && ValueOf(m3, w, s, f) == ValueOf(m2, w, s, f) && ValueOf(m4, w, s, t) == ValueOf(m3, w, s, t)
    ensures ValueOf(m4, w, s, tr) == Num(ArithNum(w, op, NumOf(ValueOf(m4, w, s, rb)), NumOf(ValueOf(m4, w, s, rc))))
  {
  }

  lemma NilTracks(p: Proto, m: Sym, m2: Sym, pc0: int, steps: nat, pc: int, w0: Arith, s0: Stack)
    requires WfSym(m) && KPrimitives(m.k) && Tracks(p, m, pc0, steps, pc) && 0 <= pc < |p.bc| && p.bc[pc].op == BC.KNIL && Passing(m, w0, s0)
    requires 0 <= p.bc[pc].a <= p.bc[pc].d < MAX_JSLOTS - BASESLOT && m2 == m.(slot := m2.slot) && |m2.slot| == MAX_JSLOTS
    requires forall j :: 0 <= j < MAX_JSLOTS ==> m2.slot[j] == if BASESLOT + p.bc[pc].a <= j <= BASESLOT + p.bc[pc].d then PriRef(IRT_NIL) else m.slot[j]
    ensures WfSym(m2) && Tracks(p, m2, pc0, steps + 1, pc + 1) && Passing(m2, w0, s0) && Extends(m, m2)
    ensures BcStep(p, w0, pc, Look(m, w0, s0)) == At(pc + 1, Look(m2, w0, s0))
  {
    forall w, s | Passing(m, w, s) ensures TracksAt(p, m2, pc0, steps + 1, pc + 1, w, s) && BcStep(p, w, pc, Look(m, w, s)) == At(pc + 1, Look(m2, w, s)) {
      assert TracksAt(p, m, pc0, steps, pc, w, s);
      assert Look(m2, w, s) == NilSlots(Look(m, w, s), p.bc[pc].a, p.bc[pc].d);
      NilTyped(p, m, m2, pc, w, s);
    }
    forall w, s | Passing(m2, w, s) ensures TracksAt(p, m2, pc0, steps + 1, pc + 1, w, s) { assert Passing(m, w, s); }
  }

  lemma NilTyped(p: Proto, m: Sym, m2: Sym, pc: int, w: Arith, s: Stack)
    requires |m.slot| == |m2.slot| == MAX_JSLOTS && KPrimitives(m.k) && Typed(m, w, s) && 0 <= pc < |p.bc| && m2 == m.(slot := m2.slot)
    requires forall j :: 0 <= j < MAX_JSLOTS ==> m2.slot[j] == if BASESLOT + p.bc[pc].a <= j <= BASESLOT + p.bc[pc].d then PriRef(IRT_NIL) else m.slot[j]
    ensures Typed(m2, w, s)
  {
    forall j | 0 <= j < MAX_JSLOTS && m2.slot[j].Ref? ensures TypeOf(ValueOf(m2, w, s, m2.slot[j])) == m2.slot[j].t {
      if m2.slot[j] == m.slot[j] { assert m.slot[j].Ref?; }
    }
  }

  /** The opposite guard: flips the outcome and whether NaN passes. */
  function Flip(irop: int): int { if irop < ULT then (if irop % 2 == 0 then irop + 5 else irop + 3) else (if irop % 2 == 0 then irop - 3 else irop - 5) }

  lemma FlipNegates(irop: int, x: Number, y: Number)
    requires irop in {LT, LE, UGE, UGT}
    ensures NumCmp(Flip(irop), x, y) == !NumCmp(irop, x, y) && IsCmp(Flip(irop))
  {
  }

  predicate OrderTaken(op: int, x: Number, y: Number) {
    (if op == BC.ISLT || op == BC.ISGE then NumLess(x, y) else NumLessEq(x, y)) == (op % 2 == 0)
  }

  function OrderOp(op: int, x: Number, y: Number): int {
    var irop := if op % 2 == 0 then op - BC.ISLT + LT else op - BC.ISLT + LT + 4;
    if NumCmp(irop, x, y) then irop else Flip(irop)
  }

  /** The guard emitted for an ordering holds exactly when the branch goes as
      recorded, NaN included. */
  lemma OrderGuard(op: int, xn: Number, yn: Number, x: Number, y: Number)
    requires IsOrder(op)
    ensures IsCmp(OrderOp(op, xn, yn))
    ensures NumCmp(OrderOp(op, xn, yn), x, y) == (OrderTaken(op, x, y) == OrderTaken(op, xn, yn))
  {
    var irop := if op % 2 == 0 then op - BC.ISLT + LT else op - BC.ISLT + LT + 4;
    FlipNegates(irop, x, y);
    assert NumCmp(irop, x, y) == OrderTaken(op, x, y) && NumCmp(irop, xn, yn) == OrderTaken(op, xn, yn);
  }

  /** The branch is taken exactly if the emitted opcode has the parity of the
      bytecode's. */
  lemma OrderParity(op: int, x: Number, y: Number)
    requires IsOrder(op)
    ensures (op + OrderOp(op, x, y)) % 2 != 0 <==> !OrderTaken(op, x, y)
  {
  }

  lemma OperandsIn(m: Sym, tr: TRef, i: int)
    requires WfSym(m) && 0 <= i < MAX_JSLOTS && m.slot[i] == tr && tr.Ref?
    ensures RefOk(|m.ir|, |m.k|, tr.ref)
  {
  }

  /** Operands the slot map calls numbers are numbers on every run. */
  lemma OrderNums(p: Proto, m: Sym, pc0: int, steps: nat, pc: int, w: Arith, s: Stack)
    requires WfSym(m) && Tracks(p, m, pc0, steps, pc) && Passing(m, w, s) && 0 <= pc < |p.bc| && RegIn(p.bc[pc].a) && RegIn(p.bc[pc].d)
    requires IsNumRef(m.slot[BASESLOT + p.bc[pc].a]) && IsNumRef(m.slot[BASESLOT + p.bc[pc].d])
    ensures Reg(Look(m, w, s), p.bc[pc].a).Num? && Reg(Look(m, w, s), p.bc[pc].d).Num?
    ensures Reg(Look(m, w, s), p.bc[pc].a) == ValueOf(m, w, s, m.slot[BASESLOT + p.bc[pc].a])
    ensures Reg(Look(m, w, s), p.bc[pc].d) == ValueOf(m, w, s, m.slot[BASESLOT + p.bc[pc].d])
  {
    TypeAt(p, m, pc0, steps, pc, w, s, BASESLOT + p.bc[pc].a);
    TypeAt(p, m, pc0, steps, pc, w, s, BASESLOT + p.bc[pc].d);
  }

  lemma OrderGoes(p: Proto, pc: int, stack: Stack)
    requires BranchIns(p, pc) && IsOrder(p.bc[pc].op) && Reg(stack, p.bc[pc].a).Num? && Reg(stack, p.bc[pc].d).Num?
    ensures GoesWay(p, pc, stack, OrderTaken(p.bc[pc].op, Reg(stack, p.bc[pc].a).n, Reg(stack, p.bc[pc].d).n))
  {
  }

  lemma OrderDecides(p: Proto, m: Sym, pc0: int, steps: nat, pc: int, g: IRIns, xn: Number, yn: Number)
    requires WfSym(m) && Tracks(p, m, pc0, steps, pc) && BranchIns(p, pc) && RegIn(p.bc[pc].a) && RegIn(p.bc[pc].d) && IsOrder(p.bc[pc].op)
    requires var (ra, rc) := (m.slot[BASESLOT + p.bc[pc].a], m.slot[BASESLOT + p.bc[pc].d]);
      IsNumRef(ra) && IsNumRef(rc) && g == Fresh(OrderOp(p.bc[pc].op, xn, yn), IRT_NUM, true, ra.ref, rc.ref)
    ensures Decides(p, m, pc, [g], OrderTaken(p.bc[pc].op, xn, yn)) && IsCmp(g.op)
  {
    hide Look, Passes;
    var i := p.bc[pc];
    OrderGuard(i.op, xn, yn, xn, yn);
    forall w, s | Passing(m, w, s) ensures DecidesAt(p, m, pc, [g], OrderTaken(i.op, xn, yn), w, s) {
      OrderNums(p, m, pc0, steps, pc, w, s);
      var t := Look(m, w, s);
      OrderGoes(p, pc, t);
      OrderGuard(i.op, xn, yn, Reg(t, i.a).n, Reg(t, i.d).n);
    }
  }

  /** A branch on two constants goes the same way on every run. */
  lemma ConstMoves(p: Proto, m: Sym, pc0: int, steps: nat, pc: int, taken: bool, w0: Arith, s0: Stack)
    requires WfSym(m) && Tracks(p, m, pc0, steps, pc) && BranchIns(p, pc) && RegIn(p.bc[pc].a) && RegIn(p.bc[pc].d) && IsOrder(p.bc[pc].op) && Passing(m, w0, s0)
    requires var (ra, rc) := (m.slot[BASESLOT + p.bc[pc].a], m.slot[BASESLOT + p.bc[pc].d]);
      IsNumRef(ra) && IsNumRef(rc) && IsConstRef(ra) && IsConstRef(rc)
    requires GoesWay(p, pc, Look(m, w0, s0), taken)
    ensures Moves(p, m, pc, Branched(p, pc, taken))
  {
    hide Look, Passes;
    OrderNums(p, m, pc0, steps, pc, w0, s0);
    forall w, s | Passing(m, w, s) ensures BcStep(p, w, pc, Look(m, w, s)) == At(Branched(p, pc, taken), Look(m, w, s)) {
      OrderNums(p, m, pc0, steps, pc, w, s);
    }
  }

  predicate BranchIns(p: Proto, pc: int) {
    && 0 <= pc < |p.bc| && (IsOrder(p.bc[pc].op) || IsEquality(p.bc[pc].op)) && pc + 2 < |p.bc| && 0 <= p.bc[pc + 1].a
    && 0 <= Jump(p, pc + 1) < |p.bc|
  }

  function Branched(p: Proto, pc: int, taken: bool): int
    requires BranchIns(p, pc)
  { if taken then Jump(p, pc + 1) else pc + 2 }

  /** On every run that comes here, the branch at `pc` goes the recorded way
      exactly when the guard, if any, holds. */
  ghost predicate Decides(p: Proto, m: Sym, pc: int, g: seq<IRIns>, taken: bool)
    requires |m.slot| == MAX_JSLOTS && BranchIns(p, pc)
  {
    forall w, s {:trigger Passing(m, w, s)} :: Passing(m, w, s) ==> DecidesAt(p, m, pc, g, taken, w, s)
  }

  predicate DecidesAt(p: Proto, m: Sym, pc: int, g: seq<IRIns>, taken: bool, w: Arith, s: Stack)
    requires |m.slot| == MAX_JSLOTS && BranchIns(p, pc)
  {
    var (i, t) := (p.bc[pc], Look(m, w, s));
    && (IsOrder(i.op) ==> Reg(t, i.a).Num? && Reg(t, i.d).Num?)
    && (TestHolds(p, i, t) == taken) == if g == [] then true else GuardHolds(g[0], m.k, EnvOf(m, w, s), s)
  }

  /** The branch of the recorded run. */
  predicate GoesWay(p: Proto, pc: int, stack: Stack, taken: bool)
    requires BranchIns(p, pc)
  {
    var i := p.bc[pc];
    (IsOrder(i.op) ==> Reg(stack, i.a).Num? && Reg(stack, i.d).Num?) && TestHolds(p, i, stack) == taken
  }

  lemma RecordedHolds(p: Proto, m: Sym, pc: int, g: seq<IRIns>, taken: bool, w: Arith, s: Stack)
    requires |m.slot| == MAX_JSLOTS && BranchIns(p, pc) && Decides(p, m, pc, g, taken) && Passing(m, w, s) && GoesWay(p, pc, Look(m, w, s), taken)
    ensures g != [] ==> GuardHolds(g[0], m.k, EnvOf(m, w, s), s)
  {
    assert DecidesAt(p, m, pc, g, taken, w, s);
  }

  lemma BranchSteps(p: Proto, m: Sym, pc: int, g: seq<IRIns>, taken: bool, w: Arith, s: Stack)
    requires |m.slot| == MAX_JSLOTS && BranchIns(p, pc) && DecidesAt(p, m, pc, g, taken, w, s)
    ensures var holds := g == [] || GuardHolds(g[0], m.k, EnvOf(m, w, s), s);
      BcStep(p, w, pc, Look(m, w, s)) == At(Branched(p, pc, holds == taken), Look(m, w, s))
  {
  }

  /** Emitting the guard of a branch: passing it, the interpreter goes on along
      the recorded branch; failing it, it is at the other one, with the stack of
      the snapshot. */
  lemma BranchTracks(p: Proto, m: Sym, m2: Sym, n: Snaps, pc0: int, steps: nat, pc: int, g: seq<IRIns>, taken: bool, w0: Arith, s0: Stack)
    requires WfSym(m) && Tracks(p, m, pc0, steps, pc) && BranchIns(p, pc) && Decides(p, m, pc, g, taken) && Exits(p, m, n, pc0) && |n.snap| >= 2
    requires TileAt(n, |n.snap| - 1) && PlainSnap(p, m, n, pc0, |n.snap| - 1) && Pos(n.snap[|n.snap| - 1]) == |m.ir| && n.at[|n.snap| - 1] == steps
    requires |g| <= 1 && |m2.ir| == |m.ir| + |g| && m2.ir[..|m.ir|] == m.ir && m2.k == m.k && m2.slot == m.slot
    requires g != [] ==> OperandsOk(g[0], |m.ir|, |m.k|) && g[0].guard && m2.ir[|m.ir|].(prev := 0) == g[0]
    requires Passing(m, w0, s0) && (g != [] ==> GuardHolds(g[0], m.k, EnvOf(m, w0, s0), s0))
    ensures WfSym(m2) && Tracks(p, m2, pc0, steps + 1, Branched(p, pc, taken)) && Passing(m2, w0, s0) && Look(m2, w0, s0) == Look(m, w0, s0)
    ensures BcStep(p, w0, pc, Look(m, w0, s0)) == At(Branched(p, pc, taken), Look(m, w0, s0))
    ensures Exits(p, m2, Fixed(n, Branched(p, pc, !taken), steps + 1), pc0)
  {
    hide Lands, Look, TestHolds, BcStep;
    if g == [] { assert m2.ir == m.ir; assert m2 == m; } else { EmittedWf(m, m2); }
    TracksExtended(p, m, m2, pc0, steps, pc);
    forall w, s | Passing(m2, w, s) ensures TracksAt(p, m2, pc0, steps + 1, Branched(p, pc, taken), w, s) {
      PassesGuard(m, m2, g, w, s);
      assert DecidesAt(p, m, pc, g, taken, w, s);
      BranchSteps(p, m, pc, g, taken, w, s);
      LookExtended(m, m2, w, s);
      assert TracksAt(p, m, pc0, steps, pc, w, s);
    }
    PassesGuard(m, m2, g, w0, s0);
    LookExtended(m, m2, w0, s0);
    assert DecidesAt(p, m, pc, g, taken, w0, s0);
    BranchSteps(p, m, pc, g, taken, w0, s0);
    BranchExits(p, m, m2, n, pc0, steps, pc, g, taken);
  }

  lemma PassesGuard(m: Sym, m2: Sym, g: seq<IRIns>, w: Arith, s: Stack)
    requires WfSym(m) && |g| <= 1 && |m2.ir| == |m.ir| + |g| && m2.ir[..|m.ir|] == m.ir && m2.k == m.k && Extends(m, m2)
    requires g != [] ==> OperandsOk(g[0], |m.ir|, |m.k|) && g[0].guard && m2.ir[|m.ir|].(prev := 0) == g[0]
    ensures Passing(m2, w, s) <==> Passing(m, w, s) && (g != [] ==> GuardHolds(g[0], m.k, EnvOf(m, w, s), s))
    ensures g != [] ==> GuardAt(m2.ir, m2.k, w, s, |m.ir|) == GuardHolds(g[0], m.k, EnvOf(m, w, s), s)
  {
    if g == [] {
      assert m2.ir == m.ir;
    } else {
      EmittedPasses(m, m2, w, s);
    }
  }

  lemma BranchExits(p: Proto, m: Sym, m2: Sym, n: Snaps, pc0: int, steps: nat, pc: int, g: seq<IRIns>, taken: bool)
    requires WfSym(m) && Tracks(p, m, pc0, steps, pc) && BranchIns(p, pc) && Decides(p, m, pc, g, taken) && Exits(p, m, n, pc0) && |n.snap| >= 2
    requires TileAt(n, |n.snap| - 1) && PlainSnap(p, m, n, pc0, |n.snap| - 1) && Pos(n.snap[|n.snap| - 1]) == |m.ir| && n.at[|n.snap| - 1] == steps
    requires |g| <= 1 && |m2.ir| == |m.ir| + |g| && m2.ir[..|m.ir|] == m.ir && m2.k == m.k && Extends(m, m2)
    requires g != [] ==> OperandsOk(g[0], |m.ir|, |m.k|) && g[0].guard && m2.ir[|m.ir|].(prev := 0) == g[0]
    ensures Exits(p, m2, Fixed(n, Branched(p, pc, !taken), steps + 1), pc0)
  {
    hide Look, TestHolds, BcStep;
    var last, npc := |n.snap| - 1, Branched(p, pc, !taken);
    if g != [] {
      forall w, s | Passing(m, w, s) && !GuardAt(m2.ir, m2.k, w, s, |m.ir|)
        ensures match BcRun(p, w, steps + 1, pc0, s)
          case At(pc2, t0) => pc2 == npc && forall i :: 0 <= i < n.snap[last].nslots ==> Restore(Entries(n, last), m.k, EnvOf(m, w, s), s)[i] == t0[i]
          case Away => false
      {
        PassesGuard(m, m2, g, w, s);
        assert DecidesAt(p, m, pc, g, taken, w, s);
        BranchSteps(p, m, pc, g, taken, w, s);
        assert TracksAt(p, m, pc0, steps, pc, w, s);
        assert Lands(p, m, n, pc0, last, w, s);
        assert n.snap[last].nslots <= MAX_JSLOTS;
      }
    }
    FixupOk(p, m, m2, n, pc0, steps + 1, npc);
  }

  predicate KAt(k: seq<KIns>, r: int, v: Value) { 0 <= REF_NIL - r < |k| && KValue(k[REF_NIL - r]) == v }

  /** On every run that comes here, the instruction at `pc` stores the value of
      `tr` to slot `i`. */
  ghost predicate Stores(p: Proto, m: Sym, pc: int, pc2: int, i: int, tr: TRef)
    requires |m.slot| == MAX_JSLOTS && 0 <= i < MAX_JSLOTS && tr.Ref?
  {
    forall w, s {:trigger Passing(m, w, s)} :: Passing(m, w, s) ==>
      var v := ValueOf(m, w, s, tr); TypeOf(v) == tr.t && BcStep(p, w, pc, Look(m, w, s)) == At(pc2, Look(m, w, s)[i := v])
  }

  ghost predicate Moves(p: Proto, m: Sym, pc: int, pc2: int)
    requires |m.slot| == MAX_JSLOTS
  {
    forall w, s {:trigger Passing(m, w, s)} :: Passing(m, w, s) ==> BcStep(p, w, pc, Look(m, w, s)) == At(pc2, Look(m, w, s))
  }

  /** Storing a result, for the slot map and for the snapshots. */
  lemma StoreTracks(p: Proto, m: Sym, pc0: int, steps: nat, pc: int, pc2: int, i: int, tr: TRef, n: Snaps, w0: Arith, s0: Stack)
    requires WfSym(m) && Tracks(p, m, pc0, steps, pc) && 0 <= i < MAX_JSLOTS && tr.Ref? && RefOk(|m.ir|, |m.k|, tr.ref) && LoadedTab(tr) && Stores(p, m, pc, pc2, i, tr)
    requires Exits(p, m, n, pc0) && TileAt(n, |n.snap| - 1) && PlainSnap(p, m, n, pc0, |n.snap| - 1) && Passing(m, w0, s0)
    ensures var m2 := m.(slot := m.slot[i := tr]);
      && WfSym(m2) && Tracks(p, m2, pc0, steps + 1, pc2) && Exits(p, m2, n, pc0) && PlainSnap(p, m2, n, pc0, |n.snap| - 1)
      && Passing(m2, w0, s0) && BcStep(p, w0, pc, Look(m, w0, s0)) == At(pc2, Look(m2, w0, s0))
  {
    hide Lands, Look, Passes, BcStep, ExitOk;
    StepTracks(p, m, pc0, steps, pc, pc2, i, tr);
    var m2 := m.(slot := m.slot[i := tr]);
    ExitsExtended(p, m, m2, n, pc0);
    assert Passing(m, w0, s0);
  }

  lemma ConstExtended(p: Proto, m: Sym, m2: Sym, pc0: int, steps: nat, pc: int, n: Snaps, w: Arith, s: Stack)
    requires WfSym(m) && Extends(m, m2) && m2.ir == m.ir && m2.slot == m.slot && Tracks(p, m, pc0, steps, pc) && Exits(p, m, n, pc0) && Passing(m, w, s)
    requires TileAt(n, |n.snap| - 1) && PlainSnap(p, m, n, pc0, |n.snap| - 1)
    ensures WfSym(m2) && Tracks(p, m2, pc0, steps, pc) && Exits(p, m2, n, pc0) && Passing(m2, w, s) && Look(m2, w, s) == Look(m, w, s)
    ensures PlainSnap(p, m2, n, pc0, |n.snap| - 1)
  {
    forall j | 0 <= j < |m2.ir| ensures OperandsOk(m2.ir[j], j, |m2.k|) { assert OperandsOk(m.ir[j], j, |m.k|); }
    TracksExtended(p, m, m2, pc0, steps, pc);
    ExitsExtended(p, m, m2, n, pc0);
    LookExtended(m, m2, w, s);
    assert m.ir[..|m.ir|] == m.ir;
    Grown(m.ir, m.k, m2.ir, m2.k, w, s, |m.ir|);
  }

  lemma ExitsWf(p: Proto, m: Sym, n: Snaps, pc0: int)
    requires Exits(p, m, n, pc0)
    ensures WfSnaps(m, n)
  {
  }

  lemma ExitsShape(p: Proto, m: Sym, n: Snaps, pc0: int)
    requires Exits(p, m, n, pc0)
    ensures 1 <= |n.snap| == |n.at| && TileAt(n, |n.snap| - 1) && Tiled(n) && Ordered(n, |m.ir|)
  {
  }

  /** A loaded slot has the type its reference says. */
  lemma TypeAt(p: Proto, m: Sym, pc0: int, steps: nat, pc: int, w: Arith, s: Stack, i: int)
    requires WfSym(m) && Tracks(p, m, pc0, steps, pc) && Passing(m, w, s) && 0 <= i < MAX_JSLOTS && m.slot[i].Ref?
    ensures Look(m, w, s)[i] == ValueOf(m, w, s, m.slot[i]) && TypeOf(Look(m, w, s)[i]) == m.slot[i].t
  {
    assert TracksAt(p, m, pc0, steps, pc, w, s);
  }

  lemma LookNone(m: Sym, w: Arith, s: Stack, i: int)
    requires |m.slot| == MAX_JSLOTS && 0 <= i < MAX_JSLOTS && m.slot[i].None?
    ensures Look(m, w, s)[i] == s[i]
  {
  }

  /** At the trace head the stack is the one the trace was entered with. */
  lemma HeadTracks(p: Proto, m: Sym, pc: int, s0: Stack)
    requires |m.slot| == MAX_JSLOTS && (forall i :: 0 <= i < MAX_JSLOTS ==> m.slot[i].None?) && |m.ir| == 1 && !m.ir[0].guard && m.ir[0].op == BASE
    ensures Tracks(p, m, pc, 0, pc) && WfSym(m) && forall w, s :: Look(m, w, s) == s && Passing(m, w, s)
  {
    forall w, s ensures Look(m, w, s) == s && Passing(m, w, s) {
      assert Passes(m.ir, m.k, w, s, 0);
    }
    forall w, s | Passing(m, w, s) ensures TracksAt(p, m, pc, 0, pc, w, s) { }
  }

  lemma EmittedWf(m: Sym, m2: Sym)
    requires WfIr(m.ir, |m.k|) && |m2.ir| == |m.ir| + 1 && m2.ir[..|m.ir|] == m.ir && m2.k == m.k && OperandsOk(m2.ir[|m.ir|], |m.ir|, |m.k|)
    ensures Extends(m, m2) && WfIr(m2.ir, |m2.k|)
  {
    forall j | 0 <= j < |m2.ir| ensures OperandsOk(m2.ir[j], j, |m2.k|) { if j < |m.ir| { assert m2.ir[j] == m2.ir[..|m.ir|][j]; } }
  }

  lemma EmittedPasses(m: Sym, m2: Sym, w: Arith, s: Stack)
    requires WfSym(m) && |m2.ir| == |m.ir| + 1 && Extends(m, m2) && m2.k == m.k
    ensures Passing(m2, w, s) <==> Passing(m, w, s) && GuardAt(m2.ir, m2.k, w, s, |m.ir|)
    ensures m2.ir[|m.ir|].guard ==> GuardAt(m2.ir, m2.k, w, s, |m.ir|) == GuardHolds(m2.ir[|m.ir|], m.k, EnvOf(m, w, s), s)
  {
    assert m.ir[..|m.ir|] == m.ir;
    Grown(m.ir, m.k, m2.ir, m2.k, w, s, |m.ir|);
  }

  lemma EmittedValue(m: Sym, m2: Sym, w: Arith, s: Stack)
    requires WfSym(m) && |m2.ir| == |m.ir| + 1 && Extends(m, m2) && m2.k == m.k && OperandsOk(m2.ir[|m.ir|], |m.ir|, |m.k|)
    ensures EnvOf(m2, w, s)[|m.ir|] == Compute(m2.ir[|m.ir|], m2.k, EnvOf(m2, w, s), w, s)
  {
    var env := Env(m2.ir, m2.k, w, s, |m.ir|);
    var i := m2.ir[|m.ir|];
    forall r | RefOk(|m.ir|, |m.k|, r) ensures ReadRef(m2.k, EnvOf(m2, w, s), r) == ReadRef(m2.k, env, r) { }
  }
}
