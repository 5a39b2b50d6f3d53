/** Snapshots of a trace: which are taken, what they restore, and that each
    guard leaves the trace exactly where the interpreter would be. */
module Snapshots {
  import opened IrBuffer
  import opened TraceVm
  import opened TraceIr

  /** An entry of the snapshot map: stack slot and the reference restored to it. */
  datatype SnapEntry = SnapEntry(slot: int, ref: int, norestore: bool)
  datatype SnapShot = SnapShot(mapofs: int, iref: int, pc: int, nslots: int, nent: int)

  /** The entry of slot `i`, unless the slot is empty, holds the frame link, or
      still holds what the trace loaded from it. */
  function EntryOf(slot: seq<TRef>, ir: seq<IRIns>, i: int): seq<SnapEntry>
    requires 0 <= i < |slot|
  {
    if i == 1 || slot[i].None? then []
    else if Reloads(ir, slot[i].ref, i) then
      var ins := ir[slot[i].ref - REF_BIAS];
      if Mode(ins.op2, MODE_INHERIT) then [SnapEntry(i, slot[i].ref, Mode(ins.op2, MODE_READONLY))] else []
    else [SnapEntry(i, slot[i].ref, false)]
  }

  predicate Mode(op2: int, bit: int)
    requires bit > 0
  { op2 / bit % 2 == 1 }

  predicate Reloads(ir: seq<IRIns>, ref: int, i: int) {
    0 <= ref - REF_BIAS < |ir| && ir[ref - REF_BIAS].op == SLOAD && ir[ref - REF_BIAS].op1 == i
  }

  /** The map of the first `n` slots. */
  function MapOf(slot: seq<TRef>, ir: seq<IRIns>, n: nat): seq<SnapEntry>
    requires n <= |slot|
  {
    if n == 0 then [] else MapOf(slot, ir, n - 1) + EntryOf(slot, ir, n - 1)
  }

  /** Writing the entries of a map back to the stack. */
  function Restore(map_: seq<SnapEntry>, k: seq<KIns>, env: seq<Value>, s: Stack): Stack {
    if map_ == [] then s
    else
      var e := map_[|map_| - 1];
      var t := Restore(map_[..|map_| - 1], k, env, s);
      if e.norestore || !(0 <= e.slot < MAX_JSLOTS) then t else t[e.slot := ReadRef(k, env, e.ref)]
  }

  lemma {:induction false} RestoreConcat(a: seq<SnapEntry>, b: seq<SnapEntry>, k: seq<KIns>, env: seq<Value>, s: Stack)
    ensures Restore(a + b, k, env, s) == Restore(b, k, env, Restore(a, k, env, s))
  {
    if b == [] {
      assert a + b == a;
    } else {
      assert (a + b)[..|a + b| - 1] == a + b[..|b| - 1];
      RestoreConcat(a, b[..|b| - 1], k, env, s);
    }
  }

  /** Only what entries refer to is read. */
  lemma {:induction false} RestoreSame(map_: seq<SnapEntry>, k: seq<KIns>, env: seq<Value>, k2: seq<KIns>, env2: seq<Value>, s: Stack)
    requires forall j {:trigger map_[j]} :: 0 <= j < |map_| ==> ReadRef(k2, env2, map_[j].ref) == ReadRef(k, env, map_[j].ref)
    ensures Restore(map_, k2, env2, s) == Restore(map_, k, env, s)
  {
    if map_ != [] {
      var n := |map_| - 1;
      forall j | 0 <= j < n ensures ReadRef(k2, env2, map_[..n][j].ref) == ReadRef(k, env, map_[..n][j].ref) { assert map_[..n][j] == map_[j]; }
      RestoreSame(map_[..n], k, env, k2, env2, s);
    }
  }

  /** A snapshot restores exactly the recorder's view of the slots below `n`,
      including those it leaves out, and touches no slot from `n` on. */
  lemma {:induction false} RestoreLooks(m: Sym, w: Arith, s: Stack, n: nat)
    requires WfSym(m) && n <= MAX_JSLOTS && m.slot[1].None?
    ensures var t := Restore(MapOf(m.slot, m.ir, n), m.k, EnvOf(m, w, s), s);
      && (forall i :: 0 <= i < n ==> t[i] == Look(m, w, s)[i])
      && (forall i :: n <= i < MAX_JSLOTS ==> t[i] == s[i])
  {
    hide EntryOf, Look, EnvOf, ReadRef, WfIr;
    if n > 0 {
      var a, b := MapOf(m.slot, m.ir, n - 1), EntryOf(m.slot, m.ir, n - 1);
      var env := EnvOf(m, w, s);
      RestoreLooks(m, w, s, n - 1);
      RestoreConcat(a, b, m.k, env, s);
      var t := Restore(a, m.k, env, s);
      EntryRestores(m, w, s, n - 1, t);
    }
  }

  lemma {:induction false} EntryRestores(m: Sym, w: Arith, s: Stack, i: int, t: Stack)
    requires WfSym(m) && 0 <= i < MAX_JSLOTS && m.slot[1].None? && t[i] == s[i]
    ensures Restore(EntryOf(m.slot, m.ir, i), m.k, EnvOf(m, w, s), t) == t[i := Look(m, w, s)[i]]
  {
    var e := EntryOf(m.slot, m.ir, i);
    if m.slot[i].Ref? && Reloads(m.ir, m.slot[i].ref, i) {
      ReloadValue(m, w, s, m.slot[i].ref - REF_BIAS);
      assert Look(m, w, s)[i] == s[i];
    }
    if e != [] { assert e[..0] == []; }
  }

  lemma ReloadValue(m: Sym, w: Arith, s: Stack, j: int)
    requires WfSym(m) && 0 <= j < |m.ir| && m.ir[j].op == SLOAD
    ensures 0 <= m.ir[j].op1 < MAX_JSLOTS && EnvOf(m, w, s)[j] == s[m.ir[j].op1]
  {
    EnvPrefix(m.ir, m.k, w, s, j + 1, |m.ir|);
    assert OperandsOk(m.ir[j], j, |m.k|);
    assert EnvOf(m, w, s)[..j + 1][j] == EnvOf(m, w, s)[j];
  }

  lemma {:induction false} MapRefs(m: Sym, n: nat)
    requires WfSym(m) && n <= MAX_JSLOTS
    ensures MapRefsOk(MapOf(m.slot, m.ir, n), |m.ir|, |m.k|)
  {
    if n > 0 {
      MapRefs(m, n - 1);
      var a, b := MapOf(m.slot, m.ir, n - 1), EntryOf(m.slot, m.ir, n - 1);
      var c: seq<SnapEntry> := a + b;
      forall j | 0 <= j < |c| ensures RefOk(|m.ir|, |m.k|, c[j].ref) {
        if j < |a| { assert c[j] == a[j]; } else { assert m.slot[n - 1].Ref?; }
      }
    }
  }

  ghost predicate MapRefsOk(map_: seq<SnapEntry>, n: int, k: int) {
    forall j {:trigger map_[j]} :: 0 <= j < |map_| ==> RefOk(n, k, map_[j].ref)
  }

  // -- The snapshots of a trace ---------------------------------------------------

  /** Snapshots, their map, and after how many interpreter steps each exit of a
      snapshot is taken. */
  datatype Snaps = Snaps(snap: seq<SnapShot>, map_: seq<SnapEntry>, at: seq<nat>)

  function Entries(n: Snaps, j: nat): seq<SnapEntry>
    requires j < |n.snap| && TileAt(n, j)
  { n.map_[n.snap[j].mapofs..n.snap[j].mapofs + n.snap[j].nent] }

  /** The map ranges follow each other without gap or overlap. */
  predicate TileAt(n: Snaps, j: nat)
    requires j < |n.snap|
  {
    && 0 <= n.snap[j].mapofs && 0 <= n.snap[j].nent
    && n.snap[j].mapofs + n.snap[j].nent == (if j + 1 < |n.snap| then n.snap[j + 1].mapofs else |n.map_|) <= |n.map_|
  }

  predicate Tiled(n: Snaps) {
    && (n.snap != [] ==> n.snap[0].mapofs == 0) && forall j {:trigger TileAt(n, j)} :: 0 <= j < |n.snap| ==> TileAt(n, j)
  }

  /** Number of instructions in front of a snapshot. */
  function Pos(x: SnapShot): int { x.iref - REF_BIAS }

  predicate Ordered(n: Snaps, len: int) {
    && (forall j {:trigger n.snap[j]} :: 0 <= j < |n.snap| ==> 1 <= Pos(n.snap[j]) <= len && 0 <= n.snap[j].nslots <= MAX_JSLOTS)
    && (forall i, j :: 0 <= i < j < |n.snap| ==> n.snap[i].iref < n.snap[j].iref)
  }

  /** First instruction no longer covered by snapshot `j`. */
  function Bound(n: Snaps, j: nat, len: int): int
    requires j < |n.snap|
  { if j + 1 < |n.snap| then Pos(n.snap[j + 1]) else len }

  /** The interpreter is where snapshot `j` says, with the stack it restores. */
  predicate Lands(p: Proto, m: Sym, n: Snaps, pc0: int, j: nat, w: Arith, s: Stack)
    requires j < |n.snap| == |n.at| && TileAt(n, j)
  {
    var t := Restore(Entries(n, j), m.k, EnvOf(m, w, s), s);
    match BcRun(p, w, n.at[j], pc0, s)
    case At(pc, t0) => pc == n.snap[j].pc && forall i :: 0 <= i < n.snap[j].nslots <= MAX_JSLOTS ==> t[i] == t0[i]
    case Away => false
  }

  /** A failing guard `g` may leave through snapshot `j`. */
  ghost predicate ExitOk(p: Proto, m: Sym, n: Snaps, pc0: int, j: nat, g: nat)
    requires j < |n.snap| == |n.at| && TileAt(n, j) && g < |m.ir|
  {
    forall w, s {:trigger Passes(m.ir, m.k, w, s, g)} ::
      Passes(m.ir, m.k, w, s, g) && !GuardAt(m.ir, m.k, w, s, g) ==> Lands(p, m, n, pc0, j, w, s)
  }

  /** Snapshot `j` describes the interpreter at its own position. */
  ghost predicate PlainSnap(p: Proto, m: Sym, n: Snaps, pc0: int, j: nat)
    requires j < |n.snap| == |n.at| && TileAt(n, j) && 0 <= Pos(n.snap[j]) <= |m.ir|
  {
    forall w, s {:trigger Passes(m.ir, m.k, w, s, Pos(n.snap[j]))} ::
      Passes(m.ir, m.k, w, s, Pos(n.snap[j])) ==> Lands(p, m, n, pc0, j, w, s)
  }

  ghost predicate WfSnaps(m: Sym, n: Snaps) {
    && 1 <= |n.snap| == |n.at| && Tiled(n) && Ordered(n, |m.ir|) && n.snap[0].iref == REF_FIRST
    && forall j {:trigger Entries(n, j)} :: 0 <= j < |n.snap| && TileAt(n, j) ==> MapRefsOk(Entries(n, j), Pos(n.snap[j]), |m.k|)
  }

  /** Every guard leaves through the snapshot that covers it. */
  ghost predicate Exits(p: Proto, m: Sym, n: Snaps, pc0: int) {
    && WfSnaps(m, n)
    && forall j, g {:trigger ExitOk(p, m, n, pc0, j, g)} ::
         0 <= j < |n.snap| && Pos(n.snap[j]) <= g < Bound(n, j, |m.ir|) && TileAt(n, j) && m.ir[g].guard ==> ExitOk(p, m, n, pc0, j, g)
  }

  // -- Growing a trace ------------------------------------------------------------------

  lemma LandsExtended(p: Proto, m: Sym, m2: Sym, n: Snaps, pc0: int, j: nat, w: Arith, s: Stack)
    requires WfSym(m) && Extends(m, m2) && WfSnaps(m, n) && j < |n.snap| && TileAt(n, j)
    ensures Lands(p, m2, n, pc0, j, w, s) == Lands(p, m, n, pc0, j, w, s)
  {
    ExtendedAt(m, m2, w, s);
    var e := Entries(n, j);
    forall i | 0 <= i < |e| ensures ReadRef(m2.k, EnvOf(m2, w, s), e[i].ref) == ReadRef(m.k, EnvOf(m, w, s), e[i].ref) {
      assert RefOk(Pos(n.snap[j]), |m.k|, e[i].ref);
      assert RefOk(|m.ir|, |m.k|, e[i].ref);
    }
    RestoreSame(e, m.k, EnvOf(m, w, s), m2.k, EnvOf(m2, w, s), s);
  }

  lemma WfSnapsExtended(m: Sym, m2: Sym, n: Snaps)
    requires WfSnaps(m, n) && Extends(m, m2)
    ensures WfSnaps(m2, n)
  {
    forall j | 0 <= j < |n.snap| && TileAt(n, j) ensures MapRefsOk(Entries(n, j), Pos(n.snap[j]), |m2.k|) {
      assert MapRefsOk(Entries(n, j), Pos(n.snap[j]), |m.k|);
    }
  }

  lemma ExitExtended(p: Proto, m: Sym, m2: Sym, n: Snaps, pc0: int, j: nat, g: nat)
    requires WfSym(m) && Extends(m, m2) && WfSnaps(m, n) && j < |n.snap| && TileAt(n, j) && g < |m.ir| && ExitOk(p, m, n, pc0, j, g)
    ensures ExitOk(p, m2, n, pc0, j, g)
  {
    forall w, s | Passes(m2.ir, m2.k, w, s, g) && !GuardAt(m2.ir, m2.k, w, s, g) ensures Lands(p, m2, n, pc0, j, w, s) {
      SameGuard(m, m2, w, s, g);
      LandsExtended(p, m, m2, n, pc0, j, w, s);
    }
  }

  lemma SameGuard(m: Sym, m2: Sym, w: Arith, s: Stack, g: nat)
    requires WfSym(m) && Extends(m, m2) && g < |m.ir|
    ensures Passes(m2.ir, m2.k, w, s, g) == Passes(m.ir, m.k, w, s, g) && GuardAt(m2.ir, m2.k, w, s, g) == GuardAt(m.ir, m.k, w, s, g)
  {
    assert m2.ir[..g] == m2.ir[..|m.ir|][..g] == m.ir[..g] && m2.ir[g] == m2.ir[..|m.ir|][g];
    Grown(m.ir, m.k, m2.ir, m2.k, w, s, g);
    assert OperandsOk(m.ir[g], g, |m.k|);
    SameOperands(m.ir[g], m.k, m2.k, Env(m.ir, m.k, w, s, g), w, s);
  }

  lemma PlainExtended(p: Proto, m: Sym, m2: Sym, n: Snaps, pc0: int, j: nat)
    requires WfSym(m) && Extends(m, m2) && WfSnaps(m, n) && j < |n.snap| && TileAt(n, j) && PlainSnap(p, m, n, pc0, j)
    ensures 0 <= Pos(n.snap[j]) <= |m2.ir| && PlainSnap(p, m2, n, pc0, j)
  {
    var g := Pos(n.snap[j]);
    forall w, s | Passes(m2.ir, m2.k, w, s, g) ensures Lands(p, m2, n, pc0, j, w, s) {
      assert m2.ir[..g] == m2.ir[..|m.ir|][..g] == m.ir[..g];
      Grown(m.ir, m.k, m2.ir, m2.k, w, s, g);
      LandsExtended(p, m, m2, n, pc0, j, w, s);
    }
  }

  /** Emitting and interning keep every exit right; new guards leave through the
      last snapshot, which must describe its own position. */
  lemma ExitsExtended(p: Proto, m: Sym, m2: Sym, n: Snaps, pc0: int)
    requires WfSym(m) && Extends(m, m2) && Exits(p, m, n, pc0)
    requires var last := |n.snap| - 1;
      (TileAt(n, last) && PlainSnap(p, m, n, pc0, last)) || forall g :: |m.ir| <= g < |m2.ir| ==> !m2.ir[g].guard
    ensures Exits(p, m2, n, pc0)
    ensures var last := |n.snap| - 1; TileAt(n, last) && (PlainSnap(p, m, n, pc0, last) ==> PlainSnap(p, m2, n, pc0, last))
  {
    var last := |n.snap| - 1;
    assert TileAt(n, last);
    WfSnapsExtended(m, m2, n);
    if PlainSnap(p, m, n, pc0, last) { PlainExtended(p, m, m2, n, pc0, last); }
    forall j, g | 0 <= j < |n.snap| && Pos(n.snap[j]) <= g < Bound(n, j, |m2.ir|) && TileAt(n, j) && m2.ir[g].guard
      ensures ExitOk(p, m2, n, pc0, j, g)
    {
      if g < |m.ir| {
        assert m2.ir[g] == m2.ir[..|m.ir|][g] == m.ir[g];
        ExitExtended(p, m, m2, n, pc0, j, g);
      } else {
        forall w, s | Passes(m2.ir, m2.k, w, s, g) ensures Lands(p, m2, n, pc0, j, w, s) {
          PassesLess(m2.ir, m2.k, w, s, Pos(n.snap[j]), g);
        }
      }
    }
  }

  predicate NoGuards(ins: seq<IRIns>, from: int) {
    forall g :: 0 <= from <= g < |ins| ==> !ins[g].guard
  }

  // -- Taking a snapshot (`snap_add`) ----------------------------------------------------

  function Dropped(n: Snaps): Snaps
    requires |n.snap| >= 1 && |n.at| == |n.snap| && 0 <= n.snap[|n.snap| - 1].mapofs <= |n.map_|
  {
    var last := |n.snap| - 1;
    Snaps(n.snap[..last], n.map_[..n.snap[last].mapofs], n.at[..last])
  }

  function Pushed(n: Snaps, x: SnapShot, e: seq<SnapEntry>, at: nat): Snaps {
    Snaps(n.snap + [x], n.map_ + e, n.at + [at])
  }

  /** The exits through the first `c` snapshots, in a system that shares them. */
  lemma ExitsKept(p: Proto, m: Sym, n: Snaps, n2: Snaps, pc0: int, c: nat, j: nat, g: nat)
    requires Tiled(n) && j < c <= |n.snap| == |n.at| && c <= |n2.snap| == |n2.at| && n2.snap[..c] == n.snap[..c] && n2.at[..c] == n.at[..c]
    requires TileAt(n2, j) && TileAt(n, j) && Entries(n2, j) == Entries(n, j) && g < |m.ir|
    ensures ExitOk(p, m, n2, pc0, j, g) <==> ExitOk(p, m, n, pc0, j, g)
  {
    assert n2.snap[..c][j] == n.snap[..c][j] && n2.at[..c][j] == n.at[..c][j];
    forall w, s ensures Lands(p, m, n2, pc0, j, w, s) == Lands(p, m, n, pc0, j, w, s) { }
  }

  lemma TiledDrop(n: Snaps)
    requires Tiled(n) && |n.snap| >= 2 && |n.at| == |n.snap|
    ensures 0 <= n.snap[|n.snap| - 1].mapofs <= |n.map_| && Tiled(Dropped(n))
    ensures forall j :: 0 <= j < |n.snap| - 1 ==>
      TileAt(Dropped(n), j) && TileAt(n, j) && Dropped(n).snap[j] == n.snap[j] && Entries(Dropped(n), j) == Entries(n, j)
  {
    var last := |n.snap| - 1;
    assert TileAt(n, last) && TileAt(n, last - 1);
    var n2 := Dropped(n);
    OffsetsUp(n, last);
    forall j | 0 <= j < last ensures TileAt(n2, j) && TileAt(n, j) && n2.snap[j] == n.snap[j] && Entries(n2, j) == Entries(n, j) {
      assert TileAt(n, j) && TileAt(n, j + 1);
      OffsetsUp(n, j + 1);
    }
  }

  lemma {:induction false} OffsetsUp(n: Snaps, j: nat)
    requires Tiled(n) && j < |n.snap|
    ensures n.snap[j].mapofs <= n.snap[|n.snap| - 1].mapofs
    decreases |n.snap| - j
  {
    assert TileAt(n, j);
    if j + 1 < |n.snap| { OffsetsUp(n, j + 1); }
  }

  /** A snapshot no guard was emitted under may be dropped. */
  lemma DropOk(p: Proto, m: Sym, n: Snaps, pc0: int)
    requires Exits(p, m, n, pc0) && |n.snap| >= 2 && 0 <= n.snap[|n.snap| - 1].mapofs <= |n.map_|
    requires NoGuards(m.ir, Pos(n.snap[|n.snap| - 1]))
    ensures Exits(p, m, Dropped(n), pc0)
  {
    hide Lands, ExitOk;
    var n2, last := Dropped(n), |n.snap| - 1;
    DropWf(m, n);
    TiledDrop(n);
    forall j, g | 0 <= j < |n2.snap| && Pos(n2.snap[j]) <= g < Bound(n2, j, |m.ir|) && TileAt(n2, j) && m.ir[g].guard
      ensures ExitOk(p, m, n2, pc0, j, g)
    {
      assert TileAt(n, j) && g < Bound(n, j, |m.ir|);
      ExitsKept(p, m, n, n2, pc0, last, j, g);
      assert ExitOk(p, m, n, pc0, j, g);
    }
  }

  lemma DropWf(m: Sym, n: Snaps)
    requires WfSnaps(m, n) && |n.snap| >= 2 && 0 <= n.snap[|n.snap| - 1].mapofs <= |n.map_|
    ensures WfSnaps(m, Dropped(n))
  {
    var n2 := Dropped(n);
    TiledDrop(n);
    forall j | 0 <= j < |n2.snap| && TileAt(n2, j) ensures MapRefsOk(Entries(n2, j), Pos(n2.snap[j]), |m.k|) {
      assert MapRefsOk(Entries(n, j), Pos(n.snap[j]), |m.k|);
    }
  }

  lemma TiledPush(n: Snaps, x: SnapShot, e: seq<SnapEntry>, at: nat)
    requires Tiled(n) && |n.at| == |n.snap| && x.mapofs == |n.map_| && x.nent == |e| && (n.snap == [] ==> n.map_ == [])
    ensures Tiled(Pushed(n, x, e, at))
    ensures forall j :: 0 <= j < |n.snap| ==> TileAt(n, j) && TileAt(Pushed(n, x, e, at), j) && Entries(Pushed(n, x, e, at), j) == Entries(n, j)
    ensures TileAt(Pushed(n, x, e, at), |n.snap|) && Entries(Pushed(n, x, e, at), |n.snap|) == e
  {
    var n2 := Pushed(n, x, e, at);
    forall j | 0 <= j < |n2.snap| ensures TileAt(n2, j) && if j < |n.snap| then TileAt(n, j) && Entries(n2, j) == Entries(n, j) else Entries(n2, j) == e {
      if j < |n.snap| { assert TileAt(n, j); }
    }
  }

  /** A new snapshot of the current view, past the last one. */
  lemma PushOk(p: Proto, m: Sym, n: Snaps, pc0: int, steps: nat, pc: int, nslots: nat)
    requires WfSym(m) && Tracks(p, m, pc0, steps, pc) && m.slot[1].None? && nslots <= MAX_JSLOTS
    requires Exits(p, m, n, pc0) && Pos(n.snap[|n.snap| - 1]) < |m.ir|
    ensures var e := MapOf(m.slot, m.ir, nslots);
      var n2 := Pushed(n, SnapShot(|n.map_|, REF_BIAS + |m.ir|, pc, nslots, |e|), e, steps);
      Exits(p, m, n2, pc0) && TileAt(n2, |n.snap|) && PlainSnap(p, m, n2, pc0, |n.snap|)
  {
    hide Lands;
    var e := MapOf(m.slot, m.ir, nslots);
    var x := SnapShot(|n.map_|, REF_BIAS + |m.ir|, pc, nslots, |e|);
    var n2, c := Pushed(n, x, e, steps), |n.snap|;
    MapRefs(m, nslots);
    PushWf(m, n, x, e, steps);
    TiledPush(n, x, e, steps);
    forall j, g | 0 <= j < |n2.snap| && Pos(n2.snap[j]) <= g < Bound(n2, j, |m.ir|) && TileAt(n2, j) && m.ir[g].guard
      ensures ExitOk(p, m, n2, pc0, j, g)
    {
      assert j < c && TileAt(n, j) && g < Bound(n, j, |m.ir|);
      ExitsKept(p, m, n, n2, pc0, c, j, g);
      assert ExitOk(p, m, n, pc0, j, g);
    }
    PushPlain(p, m, n2, pc0, steps, pc, nslots);
  }

  lemma PushWf(m: Sym, n: Snaps, x: SnapShot, e: seq<SnapEntry>, at: nat)
    requires WfSnaps(m, n) && Pos(n.snap[|n.snap| - 1]) < |m.ir|
    requires x.mapofs == |n.map_| && x.nent == |e| && Pos(x) == |m.ir| && 0 <= x.nslots <= MAX_JSLOTS
    requires MapRefsOk(e, |m.ir|, |m.k|)
    ensures WfSnaps(m, Pushed(n, x, e, at))
  {
    var n2, c := Pushed(n, x, e, at), |n.snap|;
    TiledPush(n, x, e, at);
    forall j | 0 <= j < |n2.snap| && TileAt(n2, j) ensures MapRefsOk(Entries(n2, j), Pos(n2.snap[j]), |m.k|) {
      if j < c { assert TileAt(n, j) && MapRefsOk(Entries(n, j), Pos(n.snap[j]), |m.k|); }
    }
  }

  /** A snapshot of the current view describes the current position. */
  lemma PushPlain(p: Proto, m: Sym, n: Snaps, pc0: int, steps: nat, pc: int, nslots: nat)
    requires WfSym(m) && Tracks(p, m, pc0, steps, pc) && m.slot[1].None? && nslots <= MAX_JSLOTS
    requires 1 <= |n.snap| == |n.at| && TileAt(n, |n.snap| - 1) && Entries(n, |n.snap| - 1) == MapOf(m.slot, m.ir, nslots)
    requires var x := n.snap[|n.snap| - 1]; Pos(x) == |m.ir| && x.pc == pc && x.nslots == nslots && n.at[|n.snap| - 1] == steps
    ensures PlainSnap(p, m, n, pc0, |n.snap| - 1)
  {
    forall w, s | Passes(m.ir, m.k, w, s, |m.ir|) ensures Lands(p, m, n, pc0, |n.snap| - 1, w, s) {
      assert Passing(m, w, s) && TracksAt(p, m, pc0, steps, pc, w, s);
      RestoreLooks(m, w, s, nslots);
    }
  }

  /** Snapshot 0, at the trace head. */
  lemma FirstOk(p: Proto, m: Sym, pc0: int, nslots: nat)
    requires WfSym(m) && Tracks(p, m, pc0, 0, pc0) && |m.ir| == 1 && nslots <= MAX_JSLOTS && m.slot[1].None?
    ensures var e := MapOf(m.slot, m.ir, nslots);
      var n := Pushed(Snaps([], [], []), SnapShot(0, REF_FIRST, pc0, nslots, |e|), e, 0);
      Exits(p, m, n, pc0) && TileAt(n, 0) && PlainSnap(p, m, n, pc0, 0)
  {
    var e := MapOf(m.slot, m.ir, nslots);
    var x := SnapShot(0, REF_FIRST, pc0, nslots, |e|);
    var n := Pushed(Snaps([], [], []), x, e, 0);
    TiledPush(Snaps([], [], []), x, e, 0);
    MapRefs(m, nslots);
    PushPlain(p, m, n, pc0, 0, pc0, nslots);
  }

  /** `comp_fixup`: once its one guard is emitted, the last snapshot is sent to
      the branch not taken. */
  lemma FixupOk(p: Proto, m0: Sym, m: Sym, n: Snaps, pc0: int, steps: nat, npc: int)
    requires WfSym(m0) && Extends(m0, m) && |n.snap| >= 2 && TileAt(n, |n.snap| - 1) && Exits(p, m0, n, pc0)
    requires Pos(n.snap[|n.snap| - 1]) == |m0.ir| && |m.ir| <= |m0.ir| + 1
    requires |m.ir| > |m0.ir| && m.ir[|m0.ir|].guard ==>
      forall w, s {:trigger Passing(m0, w, s)} :: Passing(m0, w, s) && !GuardAt(m.ir, m.k, w, s, |m0.ir|) ==>
        match BcRun(p, w, steps, pc0, s)
        case At(pc, t0) => pc == npc && forall i :: 0 <= i < n.snap[|n.snap| - 1].nslots ==> Restore(Entries(n, |n.snap| - 1), m0.k, EnvOf(m0, w, s), s)[i] == t0[i]
        case Away => false
    ensures var last := |n.snap| - 1; Exits(p, m, Fixed(n, npc, steps), pc0)
  {
    hide Lands;
    var last, n2 := |n.snap| - 1, Fixed(n, npc, steps);
    FixedWf(m0, m, n, npc, steps);
    forall j, h | 0 <= j < |n2.snap| && Pos(n2.snap[j]) <= h < Bound(n2, j, |m.ir|) && TileAt(n2, j) && m.ir[h].guard
      ensures ExitOk(p, m, n2, pc0, j, h)
    {
      if j < last {
        assert h < |m0.ir| && TileAt(n, j) && m.ir[..|m0.ir|][h] == m0.ir[h];
        assert ExitOk(p, m0, n, pc0, j, h);
        ExitExtended(p, m0, m, n, pc0, j, h);
        ExitsKept(p, m, n, n2, pc0, last, j, h);
      } else {
        FixedExit(p, m0, m, n, pc0, steps, npc);
      }
    }
  }

  lemma FixedWf(m0: Sym, m: Sym, n: Snaps, npc: int, at: nat)
    requires WfSnaps(m0, n) && Extends(m0, m) && |n.snap| >= 2
    ensures WfSnaps(m, Fixed(n, npc, at))
    ensures forall j :: 0 <= j < |n.snap| ==> TileAt(Fixed(n, npc, at), j) && TileAt(n, j) && Entries(Fixed(n, npc, at), j) == Entries(n, j)
  {
    var n2 := Fixed(n, npc, at);
    WfSnapsExtended(m0, m, n);
    forall j | 0 <= j < |n2.snap| ensures TileAt(n2, j) && TileAt(n, j) && Entries(n2, j) == Entries(n, j) { assert TileAt(n, j); }
    forall j | 0 <= j < |n2.snap| && TileAt(n2, j) ensures MapRefsOk(Entries(n2, j), Pos(n2.snap[j]), |m.k|) {
      assert MapRefsOk(Entries(n, j), Pos(n.snap[j]), |m.k|);
    }
  }

  function Fixed(n: Snaps, npc: int, at: nat): Snaps
    requires 1 <= |n.snap| == |n.at|
  {
    var last := |n.snap| - 1;
    n.(snap := n.snap[last := n.snap[last].(pc := npc)], at := n.at[last := at])
  }

  lemma FixedExit(p: Proto, m0: Sym, m: Sym, n: Snaps, pc0: int, steps: nat, npc: int)
    requires WfSym(m0) && Extends(m0, m) && |m.ir| > |m0.ir| && WfSnaps(m0, n) && TileAt(n, |n.snap| - 1) && TileAt(Fixed(n, npc, steps), |n.snap| - 1)
    requires Pos(n.snap[|n.snap| - 1]) == |m0.ir|
    requires forall w, s {:trigger Passing(m0, w, s)} :: Passing(m0, w, s) && !GuardAt(m.ir, m.k, w, s, |m0.ir|) ==>
      match BcRun(p, w, steps, pc0, s)
      case At(pc, t0) => pc == npc && forall i :: 0 <= i < n.snap[|n.snap| - 1].nslots ==> Restore(Entries(n, |n.snap| - 1), m0.k, EnvOf(m0, w, s), s)[i] == t0[i]
      case Away => false
    ensures ExitOk(p, m, Fixed(n, npc, steps), pc0, |n.snap| - 1, |m0.ir|)
  {
    var last, n2, g := |n.snap| - 1, Fixed(n, npc, steps), |m0.ir|;
    forall w, s | Passes(m.ir, m.k, w, s, g) && !GuardAt(m.ir, m.k, w, s, g) ensures Lands(p, m, n2, pc0, last, w, s) {
      assert m0.ir[..g] == m0.ir;
      Grown(m0.ir, m0.k, m.ir, m.k, w, s, g);
      assert Passing(m0, w, s);
      ExtendedAt(m0, m, w, s);
      var e := Entries(n, last);
      assert MapRefsOk(e, Pos(n.snap[last]), |m0.k|);
      forall i | 0 <= i < |e| ensures ReadRef(m.k, EnvOf(m, w, s), e[i].ref) == ReadRef(m0.k, EnvOf(m0, w, s), e[i].ref) {
        assert RefOk(|m0.ir|, |m0.k|, e[i].ref);
      }
      RestoreSame(e, m0.k, EnvOf(m0, w, s), m.k, EnvOf(m, w, s), s);
      assert Entries(n2, last) == e;
    }
  }
}
