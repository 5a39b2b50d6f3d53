/** Starting a side trace: replaying a parent snapshot into a fresh recorder. */
module SideTrace {
  import opened IrBuffer
  import opened Frames
  import opened FrameReplay
  import BC = Bytecode
  import TI = TraceIr

  const INHERITED := MODE_INHERIT + MODE_PARENT

  /** The modified slots below `n`, as snapshot entries. */
  method SnapshotSlots(j: FrameRecorder, n: int) returns (e: seq<FrameEntry>)
    requires 0 <= n <= j.slot.Length
    ensures e == MapOf(j.slot[..], j.ir.ins, n)
  {
    e := [];
    var s := 0;
    while s < n
      invariant 0 <= s <= n && e == MapOf(j.slot[..], j.ir.ins, s)
    {
      var c := j.slot[s];
      if s == 1 {
        if c.frame {
          e := e + [ROOT_LINK];
        }
      } else if c.tr.Ref? {
        var norestore, keep := false, true;
        if Reloads(j.ir.ins, c.tr.ref, s) {
          var mode := j.ir.ins[c.tr.ref - REF_BIAS].op2;
          keep := mode / MODE_INHERIT % 2 != 0;
          norestore := mode / MODE_READONLY % 2 == 1;
        }
        if keep {
          e := e + [FrameEntry(s, c.tr.ref, c.frame, norestore)];
        }
      }
      s := s + 1;
    }
  }

  // -- What is carried over -----------------------------------------------------------

  /** Entry `i` is the first to name the reference of entry `j`. */
  ghost predicate IsFirst(e: seq<FrameEntry>, i: int, j: int) {
    0 <= i <= j < |e| && e[i].ref == e[j].ref && forall h {:trigger e[h]} :: 0 <= h < i ==> e[h].ref != e[j].ref
  }

  predicate SameConst(pk: seq<KIns>, r: int, sk: seq<KIns>, q: int) {
    && ConstAt(pk, r) && ConstAt(sk, q) && pk[REF_NIL - r].op == sk[REF_NIL - q].op && pk[REF_NIL - r].val == sk[REF_NIL - q].val
    && (pk[REF_NIL - r].op == KPRI ==> pk[REF_NIL - r].t == sk[REF_NIL - q].t) && Replayable(pk[REF_NIL - r].op)
  }

  /** `tr` stands in the side trace for what entry `e` restores: an equal
      constant, or an inherited load of the slot. */
  predicate Carried(tr: TRef, e: FrameEntry, pk: seq<KIns>, pir: seq<IRIns>, sk: seq<KIns>, sir: seq<IRIns>) {
    if e == ROOT_LINK then tr.None?
    else if e.ref < REF_BIAS then tr.Ref? && SameConst(pk, e.ref, sk, tr.ref)
    else
      && tr.Ref? && 0 <= e.ref - REF_BIAS < |pir| && 0 <= tr.ref - REF_BIAS < |sir|
      && var i, p := sir[tr.ref - REF_BIAS], pir[e.ref - REF_BIAS];
      i.op == SLOAD && i.op1 == e.slot && i.t == p.t && !i.guard && i.op2 == INHERITED + (if p.op == SLOAD && p.op2 / MODE_READONLY % 2 == 1 then MODE_READONLY else 0)
  }

  lemma CarriedGrows(tr: TRef, e: FrameEntry, pk: seq<KIns>, pir: seq<IRIns>, sk: seq<KIns>, sir: seq<IRIns>, sk2: seq<KIns>, sir2: seq<IRIns>)
    requires Carried(tr, e, pk, pir, sk, sir) && Grows(sk, sk2) && sir <= sir2
    ensures Carried(tr, e, pk, pir, sk2, sir2)
  {
    if e != ROOT_LINK && e.ref < REF_BIAS { ConstKept(sk, sk2, tr.ref); }
  }

  /** The slots of the first `n` entries carry them; no other slot is set. */
  ghost predicate AllCarried(e: seq<FrameEntry>, n: int, slot: seq<Cell>, pk: seq<KIns>, pir: seq<IRIns>, sk: seq<KIns>, sir: seq<IRIns>) {
    && 0 <= n <= |e| && |slot| == MAX_JSLOTS && Ascending(e, MAX_JSLOTS)
    && (forall j {:trigger e[j]} :: 0 <= j < n ==> slot[e[j].slot].frame == e[j].frame)
    && (forall i, j {:trigger IsFirst(e, i, j)} :: 0 <= j < n && IsFirst(e, i, j) ==> Carried(slot[e[j].slot].tr, e[i], pk, pir, sk, sir))
    && (forall s {:trigger slot[s]} :: 0 <= s < MAX_JSLOTS && !Touched(e, n, s) ==> slot[s] == EMPTY)
  }

  ghost predicate Touched(e: seq<FrameEntry>, n: int, s: int)
    requires 0 <= n <= |e|
  {
    exists j {:trigger e[j]} :: 0 <= j < n && e[j].slot == s
  }

  lemma CarriedNext(e: seq<FrameEntry>, n: int, slot: seq<Cell>, tr: TRef, i: int, pk: seq<KIns>, pir: seq<IRIns>, sk: seq<KIns>, sir: seq<IRIns>, sk2: seq<KIns>, sir2: seq<IRIns>)
    requires AllCarried(e, n, slot, pk, pir, sk, sir) && n < |e| && Grows(sk, sk2) && sir <= sir2
    requires IsFirst(e, i, n) && Carried(tr, e[i], pk, pir, sk2, sir2)
    ensures AllCarried(e, n + 1, slot[e[n].slot := Cell(tr, e[n].frame)], pk, pir, sk2, sir2)
  {
    hide Carried, Grows, Touched;
    var slot2 := slot[e[n].slot := Cell(tr, e[n].frame)];
    forall h, j | 0 <= j < n + 1 && IsFirst(e, h, j) ensures Carried(slot2[e[j].slot].tr, e[h], pk, pir, sk2, sir2) {
      if j == n {
        FirstIsOne(e, h, i, n);
      } else {
        CarriedGrows(slot[e[j].slot].tr, e[h], pk, pir, sk, sir, sk2, sir2);
      }
    }
    forall s | 0 <= s < MAX_JSLOTS && !Touched(e, n + 1, s) ensures slot2[s] == EMPTY {
      UntouchedBefore(e, n, s);
    }
  }

  lemma FirstIsOne(e: seq<FrameEntry>, h: int, i: int, j: int)
    requires IsFirst(e, h, j) && IsFirst(e, i, j)
    ensures h == i
  {
  }

  lemma UntouchedBefore(e: seq<FrameEntry>, n: int, s: int)
    requires 0 <= n < |e| && !Touched(e, n + 1, s)
    ensures e[n].slot != s && !Touched(e, n, s)
  {
  }

  // -- Replaying ------------------------------------------------------------------------

  /** Interns a constant of the parent anew. */
  method ReplayConst(ir: IrBuf, pk: seq<KIns>, r: int) returns (st: Outcome, tr: TRef)
    requires ir.Valid() && ConstAt(pk, r) && KindOk(pk[REF_NIL - r]) && |ir.k| < REF_NIL
    modifies ir
    ensures ir.Valid() && Grows(old(ir.k), ir.k) && ir.ins == old(ir.ins) && |ir.k| <= |old(ir.k)| + 1 && !st.Stop?
    ensures st.Ok? <==> Replayable(pk[REF_NIL - r].op)
    ensures st.Ok? ==> tr.Ref? && SameConst(pk, r, ir.k, tr.ref)
  {
    var c := pk[REF_NIL - r];
    tr := None;
    if c.op == KPRI {
      return Ok, PriRef(c.t);
    } else if c.op == KINT {
      tr := ir.KInt(c.val.i);
    } else if c.op == KGC {
      tr := ir.KGc(c.val.v, c.t);
    } else if c.op == KNUM {
      tr := ir.KNum(c.val.n);
    } else if c.op == KINT64 {
      tr := ir.KInt64(c.val.i);
    } else {
      return Fail(NYIBC), None;
    }
    st := Ok;
  }

  method FindSeen(seen: seq<(int, TRef)>, r: int) returns (x: int)
    ensures -1 <= x < |seen| && (x >= 0 ==> seen[x].0 == r)
    ensures x == -1 ==> forall y {:trigger seen[y]} :: 0 <= y < |seen| ==> seen[y].0 != r
  {
    x := 0;
    while x < |seen|
      invariant 0 <= x <= |seen| && forall y {:trigger seen[y]} :: 0 <= y < x ==> seen[y].0 != r
    {
      if seen[x].0 == r {
        return;
      }
      x := x + 1;
    }
    x := -1;
  }

  /** The entry refers to an instruction or a constant of the parent. */
  predicate EntryRefOk(e: FrameEntry, pk: seq<KIns>, pir: seq<IRIns>) {
    if e.ref < REF_BIAS then ConstAt(pk, e.ref) && KindOk(pk[REF_NIL - e.ref]) else e.ref - REF_BIAS < |pir|
  }

  predicate Constant(e: FrameEntry, pk: seq<KIns>) { e.ref < REF_BIAS && e != ROOT_LINK ==> ConstAt(pk, e.ref) && Replayable(pk[REF_NIL - e.ref].op) }

  /** A first reference: an equal constant, or an inherited load whose value the
      parent hands over. */
  method TakeOver(ir: IrBuf, e: FrameEntry, pk: seq<KIns>, pir: seq<IRIns>, parentmap: seq<(int, int)>) returns (st: Outcome, tr: TRef, pm: seq<(int, int)>)
    requires ir.Valid() && EntryRefOk(e, pk, pir) && |ir.k| < 0x7000 && |ir.ins| < 0x7000
    modifies ir
    ensures ir.Valid() && Grows(old(ir.k), ir.k) && old(ir.ins) <= ir.ins && |ir.k| <= |old(ir.k)| + 1 && |ir.ins| <= |old(ir.ins)| + 1
    ensures !st.Stop? && (st.Ok? <==> Constant(e, pk))
    ensures st.Ok? ==> Carried(tr, e, pk, pir, ir.k, ir.ins)
    ensures pm == if st.Ok? && e.ref >= REF_BIAS then parentmap + [(tr.ref, e.ref)] else parentmap
  {
    pm := parentmap;
    if e.ref < REF_BIAS {
      if e == ROOT_LINK {
        return Ok, None, pm;
      }
      st, tr := ReplayConst(ir, pk, e.ref);
    } else {
      var p := pir[e.ref - REF_BIAS];
      var mode := INHERITED;
      if p.op == SLOAD {
        mode := mode + (if p.op2 / MODE_READONLY % 2 == 1 then MODE_READONLY else 0);
      }
      tr := ir.EmitIns(Fresh(SLOAD, p.t, false, e.slot, mode));
      pm := pm + [(tr.ref, e.ref)];
      st := Ok;
    }
  }

  /** Decodes a link: the call it leads back behind, and the callee below it. */
  method RebuildFrame(heap: Heap, pk: seq<KIns>, fn: Fn, baseslot: int, prev: seq<FrameEntry>, e: FrameEntry, ghost frames: seq<FrameInfo>) returns (st: Outcome, fi: FrameInfo)
    requires e.frame && e.slot != 1 && (e.ref < REF_BIAS ==> ConstAt(pk, e.ref))
    ensures !st.Stop?
    ensures DecodeOne(heap, pk, Chain(frames, baseslot, fn, true), prev, e) ==
      if st.Ok? then Chain(frames + [fi], e.slot + 1, fi.callee, true) else Chain(frames, baseslot, fn, false)
  {
    fi := FrameInfo(fn, fn, 0, 0, baseslot);
    if e.ref >= REF_BIAS || prev == [] {
      return Fail(NYIBC), fi;
    }
    var f := prev[|prev| - 1];
    if f.slot != e.slot - 1 || f.ref >= REF_BIAS || !HasFn(pk, f.ref) || !HasLink(pk, e.ref) {
      return Fail(NYIBC), fi;
    }
    var delta := LinkBits(pk, e.ref) - fn.addr;
    if delta < 0 {
      return Fail(NYIBC), fi;
    }
    var ret_pc := delta / 4;
    if delta % 4 != 0 || ret_pc == 0 || ret_pc >= |fn.bc| {
      return Fail(NYIBC), fi;
    }
    var call := fn.bc[ret_pc - 1];
    if call.op != BC.CALL || BC.BcB(call) == 0 {
      return Fail(NYIBC), fi;
    }
    fi := FrameInfo(fn, heap(FnConst(pk, f.ref)), call.a, BC.BcB(call) - 1, baseslot);
    st := Ok;
  }

  // -- The references seen so far ----------------------------------------------------------

  /** `seen` holds the first entry of each reference, `at[x]`. */
  ghost predicate SeenOk(e: seq<FrameEntry>, n: int, seen: seq<(int, TRef)>, at: seq<int>, pk: seq<KIns>, pir: seq<IRIns>, sk: seq<KIns>, sir: seq<IRIns>)
    requires 0 <= n <= |e|
  {
    && |seen| == |at|
    && (forall x {:trigger at[x]} :: 0 <= x < |at| ==> 0 <= at[x] < n && seen[x].0 == e[at[x]].ref && IsFirst(e, at[x], at[x]) && Carried(seen[x].1, e[at[x]], pk, pir, sk, sir))
    && (forall j {:trigger e[j]} :: 0 <= j < n ==> IsSeen(seen, e[j].ref))
  }

  ghost predicate IsSeen(seen: seq<(int, TRef)>, r: int) { exists x {:trigger seen[x]} :: 0 <= x < |seen| && seen[x].0 == r }

  lemma SeenNext(e: seq<FrameEntry>, n: int, seen: seq<(int, TRef)>, at: seq<int>, pk: seq<KIns>, pir: seq<IRIns>, sk: seq<KIns>, sir: seq<IRIns>, sk2: seq<KIns>, sir2: seq<IRIns>, tr: TRef)
    requires 0 <= n < |e| && SeenOk(e, n, seen, at, pk, pir, sk, sir) && Grows(sk, sk2) && sir <= sir2
    requires !IsSeen(seen, e[n].ref) && Carried(tr, e[n], pk, pir, sk2, sir2)
    ensures IsFirst(e, n, n) && SeenOk(e, n + 1, seen + [(e[n].ref, tr)], at + [n], pk, pir, sk2, sir2)
  {
    hide Carried;
    var seen2, at2 := seen + [(e[n].ref, tr)], at + [n];
    assert IsFirst(e, n, n);
    forall x | 0 <= x < |at2|
      ensures 0 <= at2[x] < n + 1 && seen2[x].0 == e[at2[x]].ref && IsFirst(e, at2[x], at2[x]) && Carried(seen2[x].1, e[at2[x]], pk, pir, sk2, sir2)
    {
      if x < |at| {
        assert at2[x] == at[x] && seen2[x] == seen[x];
        CarriedGrows(seen[x].1, e[at[x]], pk, pir, sk, sir, sk2, sir2);
      }
    }
    forall j | 0 <= j < n + 1 ensures IsSeen(seen2, e[j].ref) {
      if j < n {
        var x :| 0 <= x < |seen| && seen[x].0 == e[j].ref;
        assert seen2[x] == seen[x];
      } else {
        assert seen2[|seen|].0 == e[n].ref;
      }
    }
  }

  lemma SeenAgain(e: seq<FrameEntry>, n: int, seen: seq<(int, TRef)>, at: seq<int>, pk: seq<KIns>, pir: seq<IRIns>, sk: seq<KIns>, sir: seq<IRIns>, x: int)
    requires 0 <= n < |e| && SeenOk(e, n, seen, at, pk, pir, sk, sir) && 0 <= x < |seen| && seen[x].0 == e[n].ref
    ensures IsFirst(e, at[x], n) && Carried(seen[x].1, e[at[x]], pk, pir, sk, sir)
    ensures SeenOk(e, n + 1, seen, at, pk, pir, sk, sir)
  {
    hide Carried;
    assert 0 <= at[x] < n;
    assert IsSeen(seen, e[n].ref);
  }

  lemma {:induction false} DecodeStuck(heap: Heap, start: Fn, k: seq<KIns>, e: seq<FrameEntry>, n: int)
    requires 0 <= n <= |e| && !Decode(heap, start, k, e[..n]).ok
    ensures !Decode(heap, start, k, e).ok
    decreases |e| - n
  {
    if n < |e| {
      assert e[..n + 1] == e[..n] + [e[n]];
      DecodeNext(heap, start, k, e[..n], e[n]);
      DecodeStuck(heap, start, k, e, n + 1);
    } else {
      assert e[..n] == e;
    }
  }

  /** Every pair names a load of the side trace and the parent reference whose
      value it starts with. */
  ghost predicate HandsOver(pm: seq<(int, int)>, e: seq<FrameEntry>, n: int, pk: seq<KIns>, pir: seq<IRIns>, sk: seq<KIns>, sir: seq<IRIns>)
    requires 0 <= n <= |e|
  {
    forall m {:trigger pm[m]} :: 0 <= m < |pm| ==> pm[m].1 >= REF_BIAS && Hands(pm[m].0, pm[m].1, e, n, pk, pir, sk, sir)
  }

  ghost predicate Hands(own: int, r: int, e: seq<FrameEntry>, n: int, pk: seq<KIns>, pir: seq<IRIns>, sk: seq<KIns>, sir: seq<IRIns>)
    requires 0 <= n <= |e|
  {
    exists j {:trigger e[j]} :: 0 <= j < n && e[j].ref == r && Carried(Ref(own, 0), e[j], pk, pir, sk, sir)
  }

  /** Only the reference of a carried instruction matters. */
  lemma CarriedTyped(tr: TRef, e: FrameEntry, pk: seq<KIns>, pir: seq<IRIns>, sk: seq<KIns>, sir: seq<IRIns>)
    requires Carried(tr, e, pk, pir, sk, sir) && tr.Ref? && e.ref >= REF_BIAS
    ensures Carried(Ref(tr.ref, 0), e, pk, pir, sk, sir)
  {
  }

  lemma HandsNext(pm: seq<(int, int)>, pm2: seq<(int, int)>, e: seq<FrameEntry>, n: int, tr: TRef, pk: seq<KIns>, pir: seq<IRIns>, sk: seq<KIns>, sir: seq<IRIns>, sk2: seq<KIns>, sir2: seq<IRIns>)
    requires 0 <= n < |e| && HandsOver(pm, e, n, pk, pir, sk, sir) && Grows(sk, sk2) && sir <= sir2 && Carried(tr, e[n], pk, pir, sk2, sir2)
    requires (e[n].ref >= REF_BIAS ==> tr.Ref?) && pm2 == if e[n].ref >= REF_BIAS then pm + [(tr.ref, e[n].ref)] else pm
    ensures HandsOver(pm2, e, n + 1, pk, pir, sk2, sir2)
  {
    if e[n].ref >= REF_BIAS { CarriedTyped(tr, e[n], pk, pir, sk2, sir2); }
    hide Carried;
    forall m | 0 <= m < |pm2| ensures pm2[m].1 >= REF_BIAS && Hands(pm2[m].0, pm2[m].1, e, n + 1, pk, pir, sk2, sir2) {
      if m < |pm| {
        assert pm2[m] == pm[m];
        HandsGrows(pm[m].0, pm[m].1, e, n, pk, pir, sk, sir, sk2, sir2);
      }
    }
  }

  lemma HandsGrows(own: int, r: int, e: seq<FrameEntry>, n: int, pk: seq<KIns>, pir: seq<IRIns>, sk: seq<KIns>, sir: seq<IRIns>, sk2: seq<KIns>, sir2: seq<IRIns>)
    requires 0 <= n < |e| && Hands(own, r, e, n, pk, pir, sk, sir) && Grows(sk, sk2) && sir <= sir2
    ensures Hands(own, r, e, n + 1, pk, pir, sk2, sir2)
  {
    hide Carried;
    var j :| 0 <= j < n && e[j].ref == r && Carried(Ref(own, 0), e[j], pk, pir, sk, sir);
    CarriedGrows(Ref(own, 0), e[j], pk, pir, sk, sir, sk2, sir2);
    assert e[j].ref == r;
  }

  /** Replays the entries of a parent snapshot into the fresh recorder `j`:
      inherited loads, re-interned constants and the frame stack. It fails if a
      constant or the frame chain makes no sense, or the frame is too large. */
  method Replay(j: FrameRecorder, e: seq<FrameEntry>, nslots: int, pk: seq<KIns>, pir: seq<IRIns>, pc0: int) returns (st: Outcome, parentmap: seq<(int, int)>)
    requires j.Valid() && j.frames == [] && j.pt == j.startpt && j.baseslot == 2 && |j.ir.k| <= 3 && |j.ir.ins| <= 1
    requires (forall s {:trigger j.slot[s]} :: 0 <= s < MAX_JSLOTS ==> j.slot[s] == EMPTY) && Ascending(e, MAX_JSLOTS) && |e| <= MAX_JSLOTS
    requires (forall i {:trigger e[i]} :: 0 <= i < |e| ==> EntryRefOk(e[i], pk, pir)) && |pk| > 0 && pk[0].op == KPRI
    modifies j, j.ir, j.slot
    ensures !st.Stop?
    ensures st.Ok? <==> var c := Decode(j.heap, j.startpt, pk, e); c.ok && 1 + c.baseslot + c.fn.framesize < MAX_JSLOTS && forall i {:trigger e[i]} :: 0 <= i < |e| ==> Constant(e[i], pk)
    ensures st.Ok? ==> Decode(j.heap, j.startpt, pk, e) == Chain(j.frames, j.baseslot, j.pt, true) && j.framedepth == |j.frames|
    ensures st.Ok? ==> j.ir.Valid() && AllCarried(e, |e|, j.slot[..], pk, pir, j.ir.k, j.ir.ins) && HandsOver(parentmap, e, |e|, pk, pir, j.ir.k, j.ir.ins)
    ensures st.Ok? ==> j.maxslot == nslots - j.baseslot && j.pc == pc0
  {
    hide FramesOk, IrBuf.Valid, CellsOk, Carried, DecodeOne, Decode, AllCarried, SeenOk, HandsOver;
    parentmap := [];
    NoneCarried(e, j.slot[..], pk, pir, j.ir.k, j.ir.ins);
    var seen: seq<(int, TRef)> := [];
    ghost var at: seq<int> := [];
    var fn, n := j.startpt, 0;
    DecodeNone(j.heap, j.startpt, pk);
    assert e[..0] == [];
    while n < |e|
      invariant 0 <= n <= |e| && j.framedepth == |j.frames| && j.ir.Valid() && |j.ir.k| <= 3 + n && |j.ir.ins| <= 1 + n
      invariant AllCarried(e, n, j.slot[..], pk, pir, j.ir.k, j.ir.ins) && SeenOk(e, n, seen, at, pk, pir, j.ir.k, j.ir.ins)
      invariant HandsOver(parentmap, e, n, pk, pir, j.ir.k, j.ir.ins)
      invariant Decode(j.heap, j.startpt, pk, e[..n]) == Chain(j.frames, j.baseslot, fn, true)
      invariant forall i {:trigger e[i]} :: 0 <= i < n ==> Constant(e[i], pk)
    {
      assert e[..n + 1] == e[..n] + [e[n]];
      DecodeNext(j.heap, j.startpt, pk, e[..n], e[n]);
      var tr: TRef;
      st, tr, seen, parentmap, at := TakeEntry(j, e, n, seen, parentmap, pk, pir, at);
      if st.Fail? {
        return;
      }
      if e[n].frame && e[n].slot != 1 {
        var fi: FrameInfo;
        st, fi := RebuildFrame(j.heap, pk, fn, j.baseslot, e[..n], e[n], j.frames);
        if st.Fail? {
          DecodeStuck(j.heap, j.startpt, pk, e, n + 1);
          return;
        }
        j.frames := j.frames + [fi];
        j.framedepth := j.framedepth + 1;
        fn := fi.callee;
        j.baseslot := e[n].slot + 1;
      } else {
        DecodeSkip(j.heap, pk, Chain(j.frames, j.baseslot, fn, true), e[..n], e[n]);
      }
      n := n + 1;
    }
    assert e[..n] == e;
    j.pt := fn;
    if 1 + j.baseslot + fn.framesize >= MAX_JSLOTS {
      return Fail(STACKOV), parentmap;
    }
    j.maxslot := nslots - j.baseslot;
    j.pc := pc0;
    st := Ok;
  }

  lemma SeenAt(e: seq<FrameEntry>, n: int, seen: seq<(int, TRef)>, at: seq<int>, pk: seq<KIns>, pir: seq<IRIns>, sk: seq<KIns>, sir: seq<IRIns>, x: int)
    requires 0 <= n < |e| && SeenOk(e, n, seen, at, pk, pir, sk, sir) && 0 <= x < |seen|
    ensures |at| == |seen| && 0 <= at[x] < n && e[at[x]].ref == seen[x].0
  {
  }

  lemma HandsSame(pm: seq<(int, int)>, e: seq<FrameEntry>, n: int, pk: seq<KIns>, pir: seq<IRIns>, sk: seq<KIns>, sir: seq<IRIns>)
    requires 0 <= n < |e| && HandsOver(pm, e, n, pk, pir, sk, sir)
    ensures HandsOver(pm, e, n + 1, pk, pir, sk, sir)
  {
    forall m | 0 <= m < |pm| ensures pm[m].1 >= REF_BIAS && Hands(pm[m].0, pm[m].1, e, n + 1, pk, pir, sk, sir) {
      HandsGrows(pm[m].0, pm[m].1, e, n, pk, pir, sk, sir, sk, sir);
    }
  }

  lemma SharedConstant(e: seq<FrameEntry>, i: int, n: int, pk: seq<KIns>, pir: seq<IRIns>)
    requires 0 <= i < n < |e| && e[i].ref == e[n].ref && Constant(e[i], pk) && EntryRefOk(e[n], pk, pir) && |pk| > 0 && pk[0].op == KPRI
    ensures Constant(e[n], pk)
  {
  }

  lemma SlotIn(e: seq<FrameEntry>, n: int, slot: seq<Cell>, pk: seq<KIns>, pir: seq<IRIns>, sk: seq<KIns>, sir: seq<IRIns>)
    requires AllCarried(e, n, slot, pk, pir, sk, sir) && n < |e|
    ensures 0 <= e[n].slot < MAX_JSLOTS == |slot|
  {
  }

  lemma CarriedRef(tr: TRef, e: FrameEntry, pk: seq<KIns>, pir: seq<IRIns>, sk: seq<KIns>, sir: seq<IRIns>)
    requires Carried(tr, e, pk, pir, sk, sir) && e.ref >= REF_BIAS
    ensures tr.Ref?
  {
  }

  lemma NoneCarried(e: seq<FrameEntry>, slot: seq<Cell>, pk: seq<KIns>, pir: seq<IRIns>, sk: seq<KIns>, sir: seq<IRIns>)
    requires |slot| == MAX_JSLOTS && Ascending(e, MAX_JSLOTS) && forall s {:trigger slot[s]} :: 0 <= s < MAX_JSLOTS ==> slot[s] == EMPTY
    ensures AllCarried(e, 0, slot, pk, pir, sk, sir) && SeenOk(e, 0, [], [], pk, pir, sk, sir) && HandsOver([], e, 0, pk, pir, sk, sir)
  {
  }

  lemma DecodeNone(heap: Heap, start: Fn, k: seq<KIns>)
    ensures Decode(heap, start, k, []) == Chain([], 2, start, true)
  {
  }

  lemma DecodeSkip(heap: Heap, k: seq<KIns>, c: Chain, prev: seq<FrameEntry>, e: FrameEntry)
    requires !e.frame || e.slot == 1
    ensures DecodeOne(heap, k, c, prev, e) == c
  {
  }

  /** One entry: a reference seen before is shared, a new one taken over. */
  method TakeEntry(j: FrameRecorder, e: seq<FrameEntry>, n: int, seen0: seq<(int, TRef)>, pm0: seq<(int, int)>, pk: seq<KIns>, pir: seq<IRIns>, ghost at0: seq<int>)
    returns (st: Outcome, tr: TRef, seen: seq<(int, TRef)>, pm: seq<(int, int)>, ghost at: seq<int>)
    requires 0 <= n < |e| && EntryRefOk(e[n], pk, pir) && |pk| > 0 && pk[0].op == KPRI && j.ir.Valid() && |j.ir.k| <= 3 + n && |j.ir.ins| <= 1 + n && n < MAX_JSLOTS && j.slot.Length == MAX_JSLOTS
    requires AllCarried(e, n, j.slot[..], pk, pir, j.ir.k, j.ir.ins) && SeenOk(e, n, seen0, at0, pk, pir, j.ir.k, j.ir.ins)
    requires HandsOver(pm0, e, n, pk, pir, j.ir.k, j.ir.ins)
    requires forall i {:trigger e[i]} :: 0 <= i < n ==> Constant(e[i], pk)
    modifies j.ir, j.slot
    ensures !st.Stop? && (st.Ok? <==> Constant(e[n], pk))
    ensures st.Ok? ==> j.ir.Valid() && |j.ir.k| <= 4 + n && |j.ir.ins| <= 2 + n
    ensures st.Ok? ==> AllCarried(e, n + 1, j.slot[..], pk, pir, j.ir.k, j.ir.ins) && SeenOk(e, n + 1, seen, at, pk, pir, j.ir.k, j.ir.ins)
    ensures st.Ok? ==> HandsOver(pm, e, n + 1, pk, pir, j.ir.k, j.ir.ins)
  {
    hide IrBuf.Valid, Carried, AllCarried, SeenOk, HandsOver;
    seen, pm, at := seen0, pm0, at0;
    ghost var sk, sir := j.ir.k, j.ir.ins;
    var x := FindSeen(seen, e[n].ref);
    ghost var i := n;
    if x >= 0 {
      SeenAgain(e, n, seen, at, pk, pir, sk, sir, x);
      tr := seen[x].1;
      st := Ok;
      SeenAt(e, n, seen, at, pk, pir, sk, sir, x);
      i := at[x];
      HandsSame(pm, e, n, pk, pir, sk, sir);
      SharedConstant(e, i, n, pk, pir);
    } else {
      st, tr, pm := TakeOver(j.ir, e[n], pk, pir, pm);
      if st.Fail? {
        return;
      }
      if e[n].ref >= REF_BIAS { CarriedRef(tr, e[n], pk, pir, j.ir.k, j.ir.ins); }
      SeenNext(e, n, seen, at, pk, pir, sk, sir, j.ir.k, j.ir.ins, tr);
      HandsNext(pm0, pm, e, n, tr, pk, pir, sk, sir, j.ir.k, j.ir.ins);
      seen, at := seen + [(e[n].ref, tr)], at + [n];
    }
    CarriedNext(e, n, j.slot[..], tr, i, pk, pir, sk, sir, j.ir.k, j.ir.ins);
    SlotIn(e, n, j.slot[..], pk, pir, sk, sir);
    ghost var was := j.slot[..];
    j.slot[e[n].slot] := Cell(tr, e[n].frame);
    assert j.slot[..] == was[e[n].slot := Cell(tr, e[n].frame)];
  }

  // -- What a snapshot map holds -------------------------------------------------------------

  /** The map holds the entry of every slot below `n`, and nothing else. */
  lemma {:induction false} MapHas(slot: seq<Cell>, ir: seq<IRIns>, n: nat)
    requires n <= |slot|
    ensures var e := MapOf(slot, ir, n);
      && (forall j {:trigger e[j]} :: 0 <= j < |e| ==> 0 <= e[j].slot < n && EntryOf(slot, ir, e[j].slot) == [e[j]])
      && (forall s {:trigger EntryOf(slot, ir, s)} :: 0 <= s < n && EntryOf(slot, ir, s) != [] ==> Touched(e, |e|, s))
  {
    hide EntryOf;
    if n > 0 {
      MapHas(slot, ir, n - 1);
      EntrySlot(slot, ir, n - 1);
      var a, b := MapOf(slot, ir, n - 1), EntryOf(slot, ir, n - 1);
      assert MapOf(slot, ir, n) == a + b;
      OneEntryMore(slot, ir, n, a, b);
      forall s | 0 <= s < n && EntryOf(slot, ir, s) != [] ensures Touched(a + b, |a + b|, s) {
        if s < n - 1 { TouchedMore(a, b, s); } else { TouchedLast(a, b, s); }
      }
    }
  }

  lemma OneEntryMore(slot: seq<Cell>, ir: seq<IRIns>, n: int, a: seq<FrameEntry>, b: seq<FrameEntry>)
    requires 0 < n <= |slot| && b == EntryOf(slot, ir, n - 1) && |b| <= 1 && (b != [] ==> b[0].slot == n - 1)
    requires forall j {:trigger a[j]} :: 0 <= j < |a| ==> 0 <= a[j].slot < n - 1 && EntryOf(slot, ir, a[j].slot) == [a[j]]
    ensures var e := a + b; forall j {:trigger e[j]} :: 0 <= j < |e| ==> 0 <= e[j].slot < n && EntryOf(slot, ir, e[j].slot) == [e[j]]
  {
    hide EntryOf;
    var e := a + b;
    forall j {:trigger e[j]} | 0 <= j < |e|
      ensures 0 <= e[j].slot < n && EntryOf(slot, ir, e[j].slot) == [e[j]]
    {
      if j < |a| { assert e[j] == a[j]; } else { assert e[j] == b[0] && b == [b[0]]; }
    }
  }

  lemma TouchedMore(a: seq<FrameEntry>, b: seq<FrameEntry>, s: int)
    requires Touched(a, |a|, s)
    ensures Touched(a + b, |a + b|, s)
  {
    var j :| 0 <= j < |a| && a[j].slot == s;
    assert (a + b)[j].slot == s;
  }

  lemma TouchedLast(a: seq<FrameEntry>, b: seq<FrameEntry>, s: int)
    requires |b| == 1 && b[0].slot == s
    ensures Touched(a + b, |a + b|, s)
  {
    assert (a + b)[|a|].slot == s;
  }

  /** What entry `j` of the map says. */
  lemma EntryIs(slot: seq<Cell>, ir: seq<IRIns>, n: nat, j: nat)
    requires n <= |slot| && j < |MapOf(slot, ir, n)|
    ensures var x := MapOf(slot, ir, n)[j];
      && 0 <= x.slot < n && x.frame == slot[x.slot].frame
      && (x != ROOT_LINK ==> x.slot != 1 && slot[x.slot].tr.Ref? && x.ref == slot[x.slot].tr.ref && (x.norestore ==> Reloads(ir, x.ref, x.slot)))
      && (x == ROOT_LINK ==> slot[1].frame)
  {
    MapHas(slot, ir, n);
    var x := MapOf(slot, ir, n)[j];
    assert EntryOf(slot, ir, x.slot) == [x];
    assert [x][0] == x;
  }

  /** A slot without an entry is empty, or still holds what was loaded from it. */
  lemma EntryMissing(slot: seq<Cell>, ir: seq<IRIns>, n: nat, s: nat)
    requires n <= |slot| && s < n && s != 1 && !Touched(MapOf(slot, ir, n), |MapOf(slot, ir, n)|, s)
    ensures slot[s].tr.Ref? ==> Reloads(ir, slot[s].tr.ref, s)
  {
    MapHas(slot, ir, n);
    assert EntryOf(slot, ir, s) == [];
  }

  // -- The replayed recorder -----------------------------------------------------------------

  lemma EntriesFit(slot: seq<Cell>, ir: seq<IRIns>, k: seq<KIns>, n: nat)
    requires n <= |slot| == MAX_JSLOTS && CellsOk(slot, |ir|, k) && (forall s {:trigger slot[s]} :: 0 <= s < |slot| && slot[s].frame ==> s > 2) && |k| > 0 && k[0].op == KPRI && k[0].t == 0 && k[0].val == KPri
    ensures var e := MapOf(slot, ir, n);
      && |e| <= MAX_JSLOTS && Ascending(e, MAX_JSLOTS)
      && (forall i {:trigger e[i]} :: 0 <= i < |e| ==> e[i] != ROOT_LINK && EntryRefOk(e[i], k, ir) && Constant(e[i], k))
  {
    var e := MapOf(slot, ir, n);
    MapAscends(slot, ir, n);
    AscendingShort(e, n);
    forall i | 0 <= i < |e| ensures e[i] != ROOT_LINK && EntryRefOk(e[i], k, ir) && Constant(e[i], k) {
      EntryIs(slot, ir, n, i);
      assert CellOk(slot[e[i].slot], |ir|, k);
    }
  }

  lemma {:induction false} AscendingShort(e: seq<FrameEntry>, n: int)
    requires Ascending(e, n)
    ensures |e| <= n || e == []
    decreases |e|
  {
    if e != [] {
      var m := |e| - 1;
      AscendingShort(e[..m], e[m].slot);
    }
  }

  /** Carried slots refer to existing instructions and constants. */
  lemma CarriedCells(e: seq<FrameEntry>, slot: seq<Cell>, pk: seq<KIns>, pir: seq<IRIns>, sk: seq<KIns>, sir: seq<IRIns>)
    requires AllCarried(e, |e|, slot, pk, pir, sk, sir) && forall i {:trigger e[i]} :: 0 <= i < |e| ==> e[i] != ROOT_LINK && EntryRefOk(e[i], pk, pir)
    ensures CellsOk(slot, |sir|, sk)
  {
    forall s | 0 <= s < |slot| ensures CellOk(slot[s], |sir|, sk) {
      if Touched(e, |e|, s) {
        var j :| 0 <= j < |e| && e[j].slot == s;
        var i := FirstIndex(e, j);
        assert Carried(slot[e[j].slot].tr, e[i], pk, pir, sk, sir);
      }
    }
  }

  lemma {:induction false} FirstIndex(e: seq<FrameEntry>, j: int) returns (i: int)
    requires 0 <= j < |e|
    ensures IsFirst(e, i, j)
  {
    i := 0;
    while e[i].ref != e[j].ref
      invariant 0 <= i <= j && forall h {:trigger e[h]} :: 0 <= h < i ==> e[h].ref != e[j].ref
      decreases j - i
    {
      i := i + 1;
    }
  }

  /** The replayed slots encode the same frame stack. */
  lemma CarriedFrames(heap: Heap, start: Fn, fr: seq<FrameInfo>, pt: Fn, baseslot: int, pslot: seq<Cell>, pk: seq<KIns>, pir: seq<IRIns>, n: nat, slot: seq<Cell>, sk: seq<KIns>, sir: seq<IRIns>)
    requires FramesOk(heap, start, fr, pt, baseslot, pslot, pk) && baseslot <= n <= MAX_JSLOTS
    requires var e := MapOf(pslot, pir, n);
      && AllCarried(e, |e|, slot, pk, pir, sk, sir)
      && forall i {:trigger e[i]} :: 0 <= i < |e| ==> e[i] != ROOT_LINK
    ensures FramesOk(heap, start, fr, pt, baseslot, slot, sk)
  {
    CarriedSize(MapOf(pslot, pir, n), slot, pk, pir, sk, sir);
    hide AllCarried, LeadsBack, MapOf, Carried;
    forall i | 0 <= i < |fr| ensures LinkAt(heap, fr, baseslot, slot, sk, i) {
      assert LinkAt(heap, fr, baseslot, pslot, pk, i);
      BasesUp(fr, pt, baseslot, i + 1, |fr|);
      LinkCarried(heap, fr, baseslot, pslot, pk, pir, n, slot, sk, sir, i);
    }
    forall s | 0 <= s < MAX_JSLOTS && slot[s].frame ensures exists i {:trigger Base(fr, baseslot, i + 1)} :: 0 <= i < |fr| && s == Base(fr, baseslot, i + 1) - 1 {
      FlagCarried(pslot, pk, pir, n, slot, sk, sir, s);
      assert pslot[s].frame;
    }
  }

  lemma LinkCarried(heap: Heap, fr: seq<FrameInfo>, baseslot: int, pslot: seq<Cell>, pk: seq<KIns>, pir: seq<IRIns>, n: nat, slot: seq<Cell>, sk: seq<KIns>, sir: seq<IRIns>, i: int)
    requires 0 <= i < |fr| && |pslot| == |slot| == MAX_JSLOTS && LinkAt(heap, fr, baseslot, pslot, pk, i) && Base(fr, baseslot, i + 1) <= n <= MAX_JSLOTS
    requires var e := MapOf(pslot, pir, n);
      && AllCarried(e, |e|, slot, pk, pir, sk, sir)
      && forall i {:trigger e[i]} :: 0 <= i < |e| ==> e[i] != ROOT_LINK
    ensures LinkAt(heap, fr, baseslot, slot, sk, i)
  {
    hide AllCarried, LeadsBack, MapOf, Carried;
    var b := Base(fr, baseslot, i + 1);
    ConstCarried(pslot, pk, pir, n, slot, sk, sir, b - 2);
    ConstCarried(pslot, pk, pir, n, slot, sk, sir, b - 1);
    SameLeads(fr[i], pk[REF_NIL - pslot[b - 1].tr.ref], sk[REF_NIL - slot[b - 1].tr.ref]);
  }

  lemma FlagCarried(pslot: seq<Cell>, pk: seq<KIns>, pir: seq<IRIns>, n: nat, slot: seq<Cell>, sk: seq<KIns>, sir: seq<IRIns>, s: int)
    requires n <= |pslot| && 0 <= s < |slot| && slot[s].frame && var e := MapOf(pslot, pir, n); AllCarried(e, |e|, slot, pk, pir, sk, sir)
    ensures s < n && pslot[s].frame
  {
    hide Carried;
    var e := MapOf(pslot, pir, n);
    assert Touched(e, |e|, s);
    var j :| 0 <= j < |e| && e[j].slot == s;
    EntryIs(pslot, pir, n, j);
  }

  lemma CarriedSize(e: seq<FrameEntry>, slot: seq<Cell>, pk: seq<KIns>, pir: seq<IRIns>, sk: seq<KIns>, sir: seq<IRIns>)
    requires AllCarried(e, |e|, slot, pk, pir, sk, sir)
    ensures |slot| == MAX_JSLOTS
  {
  }

  lemma SameLeads(f: FrameInfo, c: KIns, d: KIns)
    requires LeadsBack(f, c) && c.op == d.op && c.val == d.val
    ensures LeadsBack(f, d)
  {
  }

  lemma ConstCarried(pslot: seq<Cell>, pk: seq<KIns>, pir: seq<IRIns>, n: nat, slot: seq<Cell>, sk: seq<KIns>, sir: seq<IRIns>, s: int)
    requires n <= |pslot| && 1 < s < n && pslot[s].tr.Ref? && ConstAt(pk, pslot[s].tr.ref)
    requires var e := MapOf(pslot, pir, n);
      && AllCarried(e, |e|, slot, pk, pir, sk, sir)
      && forall i {:trigger e[i]} :: 0 <= i < |e| ==> e[i] != ROOT_LINK
    ensures s < |slot| && slot[s].frame == pslot[s].frame && slot[s].tr.Ref? && SameConst(pk, pslot[s].tr.ref, sk, slot[s].tr.ref)
  {
    var e := MapOf(pslot, pir, n);
    MapHas(pslot, pir, n);
    assert EntryOf(pslot, pir, s) != [];
    var j :| 0 <= j < |e| && e[j].slot == s;
    EntryIs(pslot, pir, n, j);
    var i := FirstIndex(e, j);
    assert Carried(slot[e[j].slot].tr, e[i], pk, pir, sk, sir);
  }

  // -- The values of the slots ---------------------------------------------------------------

  /** Loads of the trace read the stack it was entered with. */
  ghost predicate Loads(ir: seq<IRIns>, env: seq<Value>, st: seq<Value>) {
    |env| >= |ir| && forall i {:trigger ir[i]} :: 0 <= i < |ir| && ir[i].op == SLOAD && 0 <= ir[i].op1 < |st| ==> env[i] == st[ir[i].op1]
  }

  /** The recorder's view of a stack slot. */
  function View(slot: seq<Cell>, k: seq<KIns>, env: seq<Value>, st: seq<Value>, s: int): Value
    requires 0 <= s < |slot| == |st|
  { if slot[s].tr.None? then st[s] else TI.ReadRef(k, env, slot[s].tr.ref) }

  /** Writing the entries of a snapshot back to the stack. */
  function Restore(e: seq<FrameEntry>, k: seq<KIns>, env: seq<Value>, st: seq<Value>): (st1: seq<Value>)
    ensures |st1| == |st|
  {
    if e == [] then st
    else
      var x, t := e[|e| - 1], Restore(e[..|e| - 1], k, env, st);
      if x.norestore || !(0 <= x.slot < |st|) then t else t[x.slot := TI.ReadRef(k, env, x.ref)]
  }

  lemma {:induction false} RestoreAt(e: seq<FrameEntry>, k: seq<KIns>, env: seq<Value>, st: seq<Value>)
    requires Ascending(e, |st|)
    ensures var st1 := Restore(e, k, env, st);
      && (forall j {:trigger e[j]} :: 0 <= j < |e| ==> st1[e[j].slot] == if e[j].norestore then st[e[j].slot] else TI.ReadRef(k, env, e[j].ref))
      && (forall s {:trigger Touched(e, |e|, s)} :: 0 <= s < |st| && !Touched(e, |e|, s) ==> st1[s] == st[s])
  {
    if e != [] {
      var m := |e| - 1;
      var a := e[..m];
      RestoreAt(a, k, env, st);
      var t, st1 := Restore(a, k, env, st), Restore(e, k, env, st);
      forall j | 0 <= j < |e| ensures st1[e[j].slot] == if e[j].norestore then st[e[j].slot] else TI.ReadRef(k, env, e[j].ref) {
        if j < m {
          assert a[j] == e[j] && e[j].slot < e[m].slot;
        } else {
          LastNew(e, m);
          assert t[e[m].slot] == st[e[m].slot];
        }
      }
      forall s | 0 <= s < |st| && !Touched(e, |e|, s) ensures st1[s] == st[s] {
        assert e[m].slot != s;
        TouchedLess(e, m, s);
      }
    }
  }

  lemma LastNew(e: seq<FrameEntry>, m: int)
    requires forall i, j :: 0 <= i < j < |e| ==> e[i].slot < e[j].slot
    requires 0 <= m < |e|
    ensures !Touched(e[..m], m, e[m].slot)
  {
  }

  lemma TouchedLess(e: seq<FrameEntry>, m: int, s: int)
    requires 0 <= m <= |e|
    ensures Touched(e[..m], m, s) ==> Touched(e, |e|, s)
  {
    if Touched(e[..m], m, s) {
      var j :| 0 <= j < m && e[..m][j].slot == s;
      assert e[j].slot == s;
    }
  }

  /** Leaving the parent restores its view of every slot below `n`, whether the
      snapshot lists the slot or not. */
  lemma ParentRestored(slot: seq<Cell>, k: seq<KIns>, ir: seq<IRIns>, n: nat, env: seq<Value>, st: seq<Value>, s: int)
    requires n <= |slot| == |st| == MAX_JSLOTS && Loads(ir, env, st) && 0 <= s < n && s != 1
    requires var e := MapOf(slot, ir, n); forall i {:trigger e[i]} :: 0 <= i < |e| ==> e[i] != ROOT_LINK
    ensures Restore(MapOf(slot, ir, n), k, env, st)[s] == View(slot, k, env, st, s)
  {
    hide FrameReplay.MapOf, Restore, Reloads;
    var e := MapOf(slot, ir, n);
    MapAscends(slot, ir, n);
    RestoreAt(e, k, env, st);
    if Touched(e, |e|, s) {
      var j :| 0 <= j < |e| && e[j].slot == s;
      EntryIs(slot, ir, n, j);
    } else {
      EntryMissing(slot, ir, n, s);
    }
  }

  lemma ConstValue(pk: seq<KIns>, r: int, sk: seq<KIns>, q: int, penv: seq<Value>, senv: seq<Value>)
    requires SameConst(pk, r, sk, q) && KindOk(pk[REF_NIL - r])
    ensures TI.ReadRef(pk, penv, r) == TI.ReadRef(sk, senv, q)
  {
  }

  /** The side trace starts with the view its parent was left with: of every
      slot, in the frames of every inlined call. */
  lemma SideViews(pslot: seq<Cell>, pk: seq<KIns>, pir: seq<IRIns>, n: nat, slot: seq<Cell>, sk: seq<KIns>, sir: seq<IRIns>, penv: seq<Value>, senv: seq<Value>, st: seq<Value>, s: int)
    requires n <= |pslot| == |st| == MAX_JSLOTS && Loads(pir, penv, st) && 0 <= s < n && s != 1
    requires var e := MapOf(pslot, pir, n);
      && AllCarried(e, |e|, slot, pk, pir, sk, sir)
      && (forall i {:trigger e[i]} :: 0 <= i < |e| ==> e[i] != ROOT_LINK && EntryRefOk(e[i], pk, pir))
      && Loads(sir, senv, Restore(e, pk, penv, st))
    ensures |slot| == MAX_JSLOTS && View(slot, sk, senv, Restore(MapOf(pslot, pir, n), pk, penv, st), s) == View(pslot, pk, penv, st, s)
  {
    var e := MapOf(pslot, pir, n);
    var st1 := Restore(e, pk, penv, st);
    ParentRestored(pslot, pk, pir, n, penv, st, s);
    hide MapOf, Restore, Carried, Loads;
    if Touched(e, |e|, s) {
      var j :| 0 <= j < |e| && e[j].slot == s;
      var i := FirstIndex(e, j);
      assert Carried(slot[s].tr, e[i], pk, pir, sk, sir);
      EntryIs(pslot, pir, n, j);
      EntryIs(pslot, pir, n, i);
      ParentRestored(pslot, pk, pir, n, penv, st, e[i].slot);
      CarriedValue(slot[s].tr, e[i], pk, pir, sk, sir, penv, senv, st1);
    }
  }

  /** A carried reference has the value its entry was restored with. */
  lemma CarriedValue(tr: TRef, e: FrameEntry, pk: seq<KIns>, pir: seq<IRIns>, sk: seq<KIns>, sir: seq<IRIns>, penv: seq<Value>, senv: seq<Value>, st1: seq<Value>)
    requires Carried(tr, e, pk, pir, sk, sir) && e != ROOT_LINK && EntryRefOk(e, pk, pir) && Loads(sir, senv, st1)
    requires 0 <= e.slot < |st1| && st1[e.slot] == TI.ReadRef(pk, penv, e.ref)
    ensures tr.Ref? && TI.ReadRef(sk, senv, tr.ref) == TI.ReadRef(pk, penv, e.ref)
  {
    if e.ref < REF_BIAS { ConstValue(pk, e.ref, sk, tr.ref, penv, senv); }
  }

  /** Every slot below `n` looks the same to the side trace, entered with the
      stack its parent restored, as it did to the parent entered with `st`. */
  ghost predicate LooksSame(pslot: seq<Cell>, pk: seq<KIns>, pir: seq<IRIns>, n: nat, slot: seq<Cell>, sk: seq<KIns>, penv: seq<Value>, senv: seq<Value>, st: seq<Value>)
    requires n <= |pslot| == |slot| == |st|
  {
    forall s {:trigger pslot[s]} :: 0 <= s < n && s != 1 ==> View(slot, sk, senv, Restore(MapOf(pslot, pir, n), pk, penv, st), s) == View(pslot, pk, penv, st, s)
  }

  /** So it is for every run of the parent that leaves here. */
  ghost predicate SameView(pslot: seq<Cell>, pk: seq<KIns>, pir: seq<IRIns>, n: nat, slot: seq<Cell>, sk: seq<KIns>, sir: seq<IRIns>)
    requires n <= |pslot| == |slot| == MAX_JSLOTS
  {
    forall penv: seq<Value>, senv: seq<Value>, st: seq<Value> | |st| == MAX_JSLOTS && Loads(pir, penv, st) && Loads(sir, senv, Restore(MapOf(pslot, pir, n), pk, penv, st)) ::
      LooksSame(pslot, pk, pir, n, slot, sk, penv, senv, st)
  }

  /** Starts a side trace at an exit of `p`, whatever calls it has inlined. The
      fresh recorder ends up with the frame stack, the bases and the slot views
      of the parent; only a frame too large for the slot map stops it. */
  method StartSide(p: FrameRecorder, cu: int, ru: int, lu: int) returns (st: Outcome, j: FrameRecorder, parentmap: seq<(int, int)>)
    requires p.Valid() && 1 + p.startpt.framesize < MAX_JSLOTS
    ensures st.Ok? <==> 1 + p.baseslot + p.pt.framesize < MAX_JSLOTS
    ensures st.Ok? ==> j.Valid() && j.heap == p.heap && j.startpt == p.startpt
    ensures st.Ok? ==> j.frames == p.frames && j.framedepth == p.framedepth && j.pt == p.pt && j.baseslot == p.baseslot && j.maxslot == p.maxslot && j.pc == p.pc
    ensures st.Ok? ==> SameView(p.slot[..], p.ir.k, p.ir.ins, p.baseslot + p.maxslot, j.slot[..], j.ir.k, j.ir.ins)
    ensures st.Ok? ==> var e := MapOf(p.slot[..], p.ir.ins, p.baseslot + p.maxslot); HandsOver(parentmap, e, |e|, p.ir.k, p.ir.ins, j.ir.k, j.ir.ins)
  {
    hide FramesOk, IrBuf.Valid, AllCarried, Carried, MapOf, Decode, HandsOver, CellsOk;
    StartFacts(p);
    var n := p.baseslot + p.maxslot;
    var e := SnapshotSlots(p, n);
    j := new FrameRecorder(p.heap, p.startpt, false, false, cu, ru, lu);
    EntriesFit(p.slot[..], p.ir.ins, p.ir.k, n);
    DecodesTo(p.heap, p.startpt, p.frames, p.pt, p.baseslot, p.slot[..], p.ir.k, p.ir.ins, n, |p.frames|);
    assert p.frames[..|p.frames|] == p.frames;
    st, parentmap := Replay(j, e, n, p.ir.k, p.ir.ins, p.pc);
    if st.Ok? {
      CarriedCells(e, j.slot[..], p.ir.k, p.ir.ins, j.ir.k, j.ir.ins);
      CarriedFrames(p.heap, p.startpt, p.frames, p.pt, p.baseslot, p.slot[..], p.ir.k, p.ir.ins, n, j.slot[..], j.ir.k, j.ir.ins);
      AllViews(p.slot[..], p.ir.k, p.ir.ins, n, j.slot[..], j.ir.k, j.ir.ins);
    }
  }

  lemma AllViews(pslot: seq<Cell>, pk: seq<KIns>, pir: seq<IRIns>, n: nat, slot: seq<Cell>, sk: seq<KIns>, sir: seq<IRIns>)
    requires n <= |pslot| == |slot| == MAX_JSLOTS
    requires var e := MapOf(pslot, pir, n);
      && AllCarried(e, |e|, slot, pk, pir, sk, sir)
      && (forall i {:trigger e[i]} :: 0 <= i < |e| ==> e[i] != ROOT_LINK && EntryRefOk(e[i], pk, pir))
    ensures SameView(pslot, pk, pir, n, slot, sk, sir)
  {
    hide AllCarried, MapOf, View, Restore, Loads, EntryRefOk;
    forall penv: seq<Value>, senv: seq<Value>, st: seq<Value> | |st| == MAX_JSLOTS && Loads(pir, penv, st) && Loads(sir, senv, Restore(MapOf(pslot, pir, n), pk, penv, st))
      ensures LooksSame(pslot, pk, pir, n, slot, sk, penv, senv, st)
    {
      forall s | 0 <= s < n && s != 1 ensures View(slot, sk, senv, Restore(MapOf(pslot, pir, n), pk, penv, st), s) == View(pslot, pk, penv, st, s) {
        SideViews(pslot, pk, pir, n, slot, sk, sir, penv, senv, st, s);
      }
    }
  }

  lemma StartFacts(p: FrameRecorder)
    requires p.Valid()
    ensures WfFn(p.startpt) && 2 <= p.baseslot && p.slot.Length == MAX_JSLOTS && p.baseslot + p.maxslot <= MAX_JSLOTS && 0 <= p.maxslot && p.framedepth == |p.frames|
    ensures |p.ir.k| > 0 && p.ir.k[0].op == KPRI && p.ir.k[0].t == 0 && p.ir.k[0].val == KPri && CellsOk(p.slot[..], |p.ir.ins|, p.ir.k)
    ensures forall s {:trigger p.slot[s]} :: 0 <= s < MAX_JSLOTS && p.slot[s].frame ==> s > 2
    ensures FramesOk(p.heap, p.startpt, p.frames, p.pt, p.baseslot, p.slot[..], p.ir.k) && Base(p.frames, p.baseslot, |p.frames|) == p.baseslot && FnOf(p.frames, p.pt, |p.frames|) == p.pt
  {
    forall s | 0 <= s < MAX_JSLOTS && p.slot[s].frame ensures s > 2 {
      assert p.slot[..][s].frame;
      var i :| 0 <= i < |p.frames| && s == Base(p.frames, p.baseslot, i + 1) - 1;
      assert LinkAt(p.heap, p.frames, p.baseslot, p.slot[..], p.ir.k, i);
    }
    if p.frames != [] { assert FrameAt(p.frames, p.pt, p.baseslot, 0); }
  }
}
