/** Running a trace on the portable executor, and why leaving it cannot be told
    apart from never having entered it. */
module TraceExec {
  import opened IrBuffer
  import opened TraceVm
  import opened TraceIr
  import opened Snapshots
  import opened TraceRecorder
  import BC = Bytecode

  /** Left through a snapshot, or still going round after the given passes. */
  datatype ExitResult = Exit(pc: int, exitno: int) | Looping

  /** The snapshot that covers instruction `g`: the last one at or before it. */
  function Cover(snap: seq<SnapShot>, g: int, j: nat): (c: nat)
    requires j < |snap|
    ensures c < |snap|
    decreases |snap| - j
  {
    if j + 1 < |snap| && snap[j + 1].iref <= REF_BIAS + g then Cover(snap, g, j + 1) else j
  }

  /** The first failing guard from `i` on. */
  function FirstFail(t: Trace, w: Arith, s: Stack, i: nat): (g: nat)
    requires i <= |t.ir|
    ensures i <= g <= |t.ir|
    decreases |t.ir| - i
  {
    if i == |t.ir| || !GuardAt(t.ir, t.k, w, s, i) then i else FirstFail(t, w, s, i + 1)
  }

  function EntriesOf(t: Trace, j: nat): seq<SnapEntry>
    requires j < |t.snap|
  {
    var x := t.snap[j];
    if 0 <= x.mapofs && 0 <= x.nent && x.mapofs + x.nent <= |t.map_| then t.map_[x.mapofs..x.mapofs + x.nent] else []
  }

  /** The stack with snapshot `j` written back. */
  function Restored(t: Trace, w: Arith, s: Stack, j: nat): Stack
    requires j < |t.snap|
  { Restore(EntriesOf(t, j), t.k, EnvOf(Code(t), w, s), s) }

  /** What running a trace does to the stack, pass by pass. */
  function TraceRun(t: Trace, w: Arith, s: Stack, passes: nat): (ExitResult, Stack)
    requires t.snap != []
    decreases passes
  {
    if passes == 0 then (Looping, s)
    else
      var g := FirstFail(t, w, s, 0);
      if g < |t.ir| then
        var j := Cover(t.snap, g, 0);
        (Exit(t.snap[j].pc, j), Restored(t, w, s, j))
      else TraceRun(t, w, Restored(t, w, s, |t.snap| - 1), passes - 1)
  }

  // -- The executor ----------------------------------------------------------------

  method ReadOperand(k: seq<KIns>, env: seq<Value>, r: int) returns (v: Value)
    ensures v == ReadRef(k, env, r)
  {
    if r >= REF_BIAS {
      v := if r - REF_BIAS < |env| then env[r - REF_BIAS] else Nil;
    } else {
      v := if 0 <= REF_NIL - r < |k| then KValue(k[REF_NIL - r]) else Nil;
    }
  }

  /** Writes the slots of snapshot `j` back to the stack. */
  method RestoreSnapshot(t: Trace, l: array<Value>, env: seq<Value>, j: nat)
    requires l.Length == MAX_JSLOTS && j < |t.snap|
    modifies l
    ensures l[..] == Restore(EntriesOf(t, j), t.k, env, old(l[..]))
  {
    var e := EntriesOf(t, j);
    assert e[..0] == [];
    var n := 0;
    while n < |e|
      invariant 0 <= n <= |e| && l[..] == Restore(e[..n], t.k, env, old(l[..]))
    {
      assert e[..n + 1][..n] == e[..n];
      var sn := e[n];
      if !sn.norestore && 0 <= sn.slot < MAX_JSLOTS {
        var v := ReadOperand(t.k, env, sn.ref);
        l[sn.slot] := v;
      }
      n := n + 1;
    }
    assert e[..n] == e;
  }

  /** Interprets the instructions of the trace, at most `passes` times round. */
  method RunIr(t: Trace, w: Arith, l: array<Value>, passes: nat) returns (r: ExitResult)
    requires l.Length == MAX_JSLOTS && Runnable(t)
    modifies l
    ensures (r, l[..]) == TraceRun(t, w, old(l[..]), passes)
  {
    hide Compute, GuardHolds, Restore, WfIr, EntriesOf;
    ghost var s0: Stack := l[..];
    var n := 0;
    while n < passes
      invariant 0 <= n <= passes && TraceRun(t, w, s0, passes) == TraceRun(t, w, l[..], passes - n)
    {
      ghost var s: Stack := l[..];
      var env: seq<Value> := [];
      var snapidx := 0;
      var i := 0;
      while i < |t.ir|
        invariant 0 <= i <= |t.ir| && l[..] == s && env == Env(t.ir, t.k, w, s, i)
        invariant 0 <= snapidx < |t.snap| && (snapidx == 0 || t.snap[snapidx].iref <= REF_BIAS + i)
        invariant FirstFail(t, w, s, 0) == FirstFail(t, w, s, i)
      {
        while snapidx + 1 < |t.snap| && t.snap[snapidx + 1].iref <= REF_BIAS + i
          invariant 0 <= snapidx < |t.snap| && (snapidx == 0 || t.snap[snapidx].iref <= REF_BIAS + i)
        {
          snapidx := snapidx + 1;
        }
        var ins := t.ir[i];
        var holds := !ins.guard || GuardHolds(ins, t.k, env, l[..]);
        if !holds {
          CoverIs(t, i, snapidx, 0);
          RestoreSnapshot(t, l, env, snapidx);
          ExitSame(t, w, s, i, snapidx);
          return Exit(t.snap[snapidx].pc, snapidx);
        }
        env := env + [Compute(ins, t.k, env, w, l[..])];
        i := i + 1;
      }
      RestoreSnapshot(t, l, env, |t.snap| - 1);
      n := n + 1;
    }
    r := Looping;
  }

  /** Instructions and snapshots are in order and refer backwards. */
  ghost predicate Runnable(t: Trace) {
    && WfSym(Code(t)) && 1 <= |t.ir| && !t.ir[0].guard && t.snap != [] && t.snap[0].iref == REF_FIRST
    && (forall i, j :: 0 <= i < j < |t.snap| ==> t.snap[i].iref < t.snap[j].iref)
    && forall j {:trigger EntriesOf(t, j)} :: 0 <= j < |t.snap| ==> MapRefsOk(EntriesOf(t, j), Pos(t.snap[j]), |t.k|)
  }

  lemma {:induction false} CoverIs(t: Trace, i: nat, c: nat, j: nat)
    requires j <= c < |t.snap| && (forall a, b :: 0 <= a < b < |t.snap| ==> t.snap[a].iref < t.snap[b].iref)
    requires (c == 0 || t.snap[c].iref <= REF_BIAS + i) && (c + 1 < |t.snap| ==> t.snap[c + 1].iref > REF_BIAS + i)
    ensures Cover(t.snap, i, j) == c
    decreases c - j
  {
    if j < c {
      assert t.snap[j + 1].iref <= t.snap[c].iref;
      CoverIs(t, i, c, j + 1);
    }
  }

  /** A snapshot needs nothing of the environment past the guard it covers. */
  lemma ExitSame(t: Trace, w: Arith, s: Stack, i: nat, j: nat)
    requires Runnable(t) && i < |t.ir| && j < |t.snap| && Pos(t.snap[j]) <= i
    ensures Restore(EntriesOf(t, j), t.k, Env(t.ir, t.k, w, s, i), s) == Restored(t, w, s, j)
  {
    EnvPrefix(t.ir, t.k, w, s, i, |t.ir|);
    var e := EntriesOf(t, j);
    assert MapRefsOk(e, Pos(t.snap[j]), |t.k|);
    forall x | 0 <= x < |e| ensures ReadRef(t.k, Env(t.ir, t.k, w, s, i), e[x].ref) == ReadRef(t.k, EnvOf(Code(t), w, s), e[x].ref) {
      assert RefOk(Pos(t.snap[j]), |t.k|, e[x].ref);
    }
    RestoreSame(e, t.k, EnvOf(Code(t), w, s), t.k, Env(t.ir, t.k, w, s, i), s);
  }

  // -- Transparency ------------------------------------------------------------------

  /** Stacks that agree on the slots below `top`. */
  predicate SameBelow(s: Stack, t: Stack, top: int) { forall i :: 0 <= i < top <= MAX_JSLOTS ==> s[i] == t[i] }

  /** The interpreter, started at the head on stack `s`, is at `pc` after so many
      steps, with a stack that agrees with `s2` on the first `n` slots. */
  predicate ReachesIn(p: Proto, w: Arith, steps: nat, pc0: int, s: Stack, pc: int, s2: Stack, n: int) {
    match BcRun(p, w, steps, pc0, s) case At(pc1, s1) => pc1 == pc && SameBelow(s2, s1, n) case Away => false
  }

  /** Guard `g` is the first that fails when the trace is entered with `s`. */
  predicate FailsFirst(t: Trace, w: Arith, s: Stack, g: nat) { g < |t.ir| && Passes(t.ir, t.k, w, s, g) && !GuardAt(t.ir, t.k, w, s, g) }

  predicate PassesAll(t: Trace, w: Arith, s: Stack) { Passes(t.ir, t.k, w, s, |t.ir|) }

  /** Snapshot `j` covers guard `g`: it stands at or before it, and the next one
      behind it. */
  predicate Covering(t: Trace, j: int, g: nat) { 0 <= j < |t.snap| && Pos(t.snap[j]) <= g && (j + 1 < |t.snap| ==> g < Pos(t.snap[j + 1])) }

  /** Leaving the trace: whatever stack it was entered with, if guard `g` is the
      first to fail, it leaves through the snapshot that covers `g`, and the
      interpreter would be there too, after just the steps of that snapshot, with
      the same slots below its count. */
  lemma FirstExit(p: Proto, t: Trace, pc0: int, at: seq<nat>, w: Arith, s: Stack, g: nat)
    requires TraceOk(p, t, pc0, at) && t.ir != [] && !t.ir[0].guard && FailsFirst(t, w, s, g)
    ensures t.snap != [] && |at| == |t.snap| && TraceRun(t, w, s, 1).0.Exit?
    ensures var (r, s2) := TraceRun(t, w, s, 1);
      Covering(t, r.exitno, g) && r.pc == t.snap[r.exitno].pc && ReachesIn(p, w, at[r.exitno], pc0, s, r.pc, s2, t.snap[r.exitno].nslots)
  {
    FirstIs(t, w, s, g, 0);
    CoverFacts(t, g, 0, at);
    GuardExit(p, t, pc0, at, w, s, g, Cover(t.snap, g, 0));
  }

  lemma {:induction false} FirstIs(t: Trace, w: Arith, s: Stack, g: nat, i: nat)
    requires i <= g <= |t.ir| && Passes(t.ir, t.k, w, s, g) && (g < |t.ir| ==> !GuardAt(t.ir, t.k, w, s, g))
    ensures FirstFail(t, w, s, i) == g
    decreases g - i
  {
    if i < g {
      PassesLess(t.ir, t.k, w, s, i + 1, g);
      FirstIs(t, w, s, g, i + 1);
    }
  }

  lemma {:induction false} FailFacts(t: Trace, w: Arith, s: Stack, i: nat)
    requires i <= |t.ir| && Passes(t.ir, t.k, w, s, i)
    ensures var g := FirstFail(t, w, s, i); Passes(t.ir, t.k, w, s, g) && (g < |t.ir| ==> !GuardAt(t.ir, t.k, w, s, g))
    decreases |t.ir| - i
  {
    if i < |t.ir| && GuardAt(t.ir, t.k, w, s, i) { FailFacts(t, w, s, i + 1); }
  }

  lemma {:induction false} CoverFacts(t: Trace, g: nat, j: nat, at: seq<nat>)
    requires j < |t.snap| && (forall a, b :: 0 <= a < b < |t.snap| ==> t.snap[a].iref < t.snap[b].iref)
    requires t.snap[j].iref <= REF_BIAS + g && g < |t.ir|
    ensures var c := Cover(t.snap, g, j); Covering(t, c, g) && g < Bound(Snaps(t.snap, t.map_, at), c, |t.ir|)
    decreases |t.snap| - j
  {
    if j + 1 < |t.snap| && t.snap[j + 1].iref <= REF_BIAS + g { CoverFacts(t, g, j + 1, at); }
  }

  lemma GuardExit(p: Proto, t: Trace, pc0: int, at: seq<nat>, w: Arith, s: Stack, g: nat, j: nat)
    requires TraceOk(p, t, pc0, at) && g < |t.ir| && Passes(t.ir, t.k, w, s, g) && !GuardAt(t.ir, t.k, w, s, g) && j < |t.snap|
    requires Pos(t.snap[j]) <= g < Bound(Snaps(t.snap, t.map_, at), j, |t.ir|)
    ensures |at| == |t.snap| && ReachesIn(p, w, at[j], pc0, s, t.snap[j].pc, Restored(t, w, s, j), t.snap[j].nslots)
  {
    var n := Snaps(t.snap, t.map_, at);
    assert TileAt(n, j) && t.ir[g].guard;
    assert ExitOk(p, Code(t), n, pc0, j, g);
    assert Lands(p, Code(t), n, pc0, j, w, s);
    assert Entries(n, j) == EntriesOf(t, j);
  }

  /** What a trace must satisfy to be run round and round: it loads only slots
      its final snapshot covers, and each snapshot restores every slot beyond
      those. */
  ghost predicate Closed(t: Trace) {
    && t.snap != [] && (forall g :: 0 <= g < |t.ir| && t.ir[g].op == SLOAD ==> t.ir[g].op1 < t.top)
    && forall j {:trigger EntriesOf(t, j)} :: 0 <= j < |t.snap| ==> Covers(EntriesOf(t, j), t.top, t.snap[j].nslots)
  }

  /** A closed trace does not see the slots from `top` on. */
  lemma {:induction false} BelowSuffices(t: Trace, w: Arith, s: Stack, s2: Stack, n: nat)
    requires n <= |t.ir| && Closed(t) && SameBelow(s, s2, t.top) && 0 <= t.top <= MAX_JSLOTS && WfIr(t.ir, |t.k|)
    ensures Env(t.ir, t.k, w, s, n) == Env(t.ir, t.k, w, s2, n)
    ensures n < |t.ir| ==> GuardAt(t.ir, t.k, w, s, n) == GuardAt(t.ir, t.k, w, s2, n)
  {
    if n > 0 { BelowSuffices(t, w, s, s2, n - 1); }
    if n < |t.ir| { assert OperandsOk(t.ir[n], n, |t.k|); }
    if n > 0 { assert OperandsOk(t.ir[n - 1], n - 1, |t.k|); }
  }

  lemma {:induction false} SameFail(t: Trace, w: Arith, s: Stack, s2: Stack, i: nat)
    requires i <= |t.ir| && Closed(t) && SameBelow(s, s2, t.top) && 0 <= t.top <= MAX_JSLOTS && WfIr(t.ir, |t.k|)
    ensures FirstFail(t, w, s, i) == FirstFail(t, w, s2, i)
    decreases |t.ir| - i
  {
    BelowSuffices(t, w, s, s2, i);
    if i < |t.ir| { SameFail(t, w, s, s2, i + 1); }
  }

  /** Restoring the same entries makes stacks agree wherever an entry is. */
  lemma {:induction false} RestoreAgrees(e: seq<SnapEntry>, k: seq<KIns>, env: seq<Value>, s: Stack, s2: Stack, i: int)
    requires 0 <= i < MAX_JSLOTS && (s[i] == s2[i] || HasEntry(e, i))
    ensures Restore(e, k, env, s)[i] == Restore(e, k, env, s2)[i]
  {
    if e != [] {
      var n := |e| - 1;
      if !(e[n].slot == i && !e[n].norestore) {
        if HasEntry(e, i) {
          var x :| 0 <= x < |e| && e[x].slot == i && !e[x].norestore;
          assert e[..n][x] == e[x];
        }
        RestoreAgrees(e[..n], k, env, s, s2, i);
      }
    }
  }

  lemma RestoredSame(t: Trace, w: Arith, s: Stack, s2: Stack, j: nat)
    requires Closed(t) && j < |t.snap| && SameBelow(s, s2, t.top) && 0 <= t.top <= MAX_JSLOTS && WfIr(t.ir, |t.k|)
    ensures SameBelow(Restored(t, w, s, j), Restored(t, w, s2, j), t.snap[j].nslots)
    ensures SameBelow(Restored(t, w, s, j), Restored(t, w, s2, j), t.top)
  {
    BelowSuffices(t, w, s, s2, |t.ir|);
    var e := EntriesOf(t, j);
    assert Covers(e, t.top, t.snap[j].nslots);
    forall i | 0 <= i < MAX_JSLOTS && (i < t.top || i < t.snap[j].nslots) ensures Restored(t, w, s, j)[i] == Restored(t, w, s2, j)[i] {
      RestoreAgrees(e, t.k, EnvOf(Code(t), w, s), s, s2, i);
    }
  }

  /** After `k` passes with every guard passing, guard `g` is the first to fail. */
  ghost predicate LeavesAfter(t: Trace, w: Arith, s: Stack, k: nat, g: nat)
    requires t.snap != []
    decreases k
  { if k == 0 then FailsFirst(t, w, s, g) else PassesAll(t, w, s) && LeavesAfter(t, w, Restored(t, w, s, |t.snap| - 1), k - 1, g) }

  /** Every guard passes, `k` passes long. */
  ghost predicate GoesRound(t: Trace, w: Arith, s: Stack, k: nat)
    requires t.snap != []
    decreases k
  { k > 0 ==> PassesAll(t, w, s) && GoesRound(t, w, Restored(t, w, s, |t.snap| - 1), k - 1) }

  /** The steps of `k` full passes, and some more. */
  function StepsOf(k: nat, pass: nat, more: nat): nat { k * pass + more }

  lemma OneMore(k: nat, pass: nat, more: nat)
    ensures StepsOf(0, pass, more) == more && StepsOf(k + 1, pass, more) == pass + StepsOf(k, pass, more)
  {
  }

  /** What a run of at most `passes` passes does: it leaves on the pass on which a
      guard fails, through the snapshot that covers the guard, where the
      interpreter is after the steps of the full passes and of that snapshot; or
      all passes are full, and the interpreter is at the head again. */
  ghost predicate Follows(p: Proto, t: Trace, pc0: int, at: seq<nat>, w: Arith, s: Stack, s0: Stack, passes: nat, k: nat, g: nat)
    requires t.snap != [] && |at| == |t.snap|
  {
    var (r, s2) := TraceRun(t, w, s, passes);
    match r
    case Exit(pc, j) =>
      && k < passes && LeavesAfter(t, w, s, k, g) && Covering(t, j, g) && pc == t.snap[j].pc
      && ReachesIn(p, w, StepsOf(k, at[|at| - 1], at[j]), pc0, s0, pc, s2, t.snap[j].nslots)
    case Looping => k == passes && GoesRound(t, w, s, k) && ReachesIn(p, w, StepsOf(k, at[|at| - 1], 0), pc0, s0, pc0, s2, t.top)
  }

  lemma Shape(p: Proto, t: Trace, pc0: int, at: seq<nat>)
    requires TraceOk(p, t, pc0, at)
    ensures t.snap != [] && |at| == |t.snap|
  {
  }

  /** Transparency over any number of passes: a closed trace of the recorder,
      entered with any stack `s`, is always where the interpreter gets to from the
      head, after as many steps. `s0` is a stack the interpreter may really have,
      equal below `top`; `k` is how many passes were full. */
  lemma {:induction false} Transparent(p: Proto, t: Trace, pc0: int, at: seq<nat>, w: Arith, s: Stack, s0: Stack, passes: nat) returns (k: nat, g: nat)
    requires TraceOk(p, t, pc0, at) && Closed(t) && t.ir != [] && !t.ir[0].guard && SameBelow(s, s0, t.top)
    ensures t.snap != [] && |at| == |t.snap| && Follows(p, t, pc0, at, w, s, s0, passes, k, g)
    decreases passes
  {
    k, g := 0, 0;
    Shape(p, t, pc0, at);
    if passes > 0 {
      SameFail(t, w, s, s0, 0);
      g := FirstFail(t, w, s0, 0);
      FailFacts(t, w, s0, 0);
      FailFacts(t, w, s, 0);
      if g < |t.ir| {
        CoverFacts(t, g, 0, at);
        var j := Cover(t.snap, g, 0);
        GuardExit(p, t, pc0, at, w, s0, g, j);
        RestoredSame(t, w, s, s0, j);
      } else {
        k, g := LoopEdge(p, t, pc0, at, w, s, s0, passes);
      }
    }
  }

  lemma LoopLands(p: Proto, t: Trace, pc0: int, at: seq<nat>, w: Arith, s: Stack)
    requires TraceOk(p, t, pc0, at) && Passes(t.ir, t.k, w, s, |t.ir|)
    ensures t.snap != [] && |at| == |t.snap|
    ensures match BcRun(p, w, at[|at| - 1], pc0, s)
      case At(pc, s1) => pc == pc0 && SameBelow(Restored(t, w, s, |t.snap| - 1), s1, t.top)
      case Away => false
  {
    var n, last := Snaps(t.snap, t.map_, at), |t.snap| - 1;
    assert Lands(p, Code(t), n, pc0, last, w, s);
    assert Entries(n, last) == EntriesOf(t, last);
  }

  lemma ClosedFacts(p: Proto, t: Trace, pc0: int, at: seq<nat>, w: Arith, s: Stack, s2: Stack)
    requires TraceOk(p, t, pc0, at) && Closed(t) && SameBelow(s, s2, t.top)
    ensures t.snap != [] && SameBelow(Restored(t, w, s, |t.snap| - 1), Restored(t, w, s2, |t.snap| - 1), t.top)
  {
    RestoredSame(t, w, s, s2, |t.snap| - 1);
  }

  /** One full pass, and then the rest. */
  lemma {:induction false} LoopEdge(p: Proto, t: Trace, pc0: int, at: seq<nat>, w: Arith, s: Stack, s0: Stack, passes: nat) returns (k: nat, g: nat)
    requires TraceOk(p, t, pc0, at) && Closed(t) && t.ir != [] && !t.ir[0].guard && SameBelow(s, s0, t.top) && passes > 0
    requires FirstFail(t, w, s, 0) == |t.ir| && PassesAll(t, w, s) && PassesAll(t, w, s0)
    ensures t.snap != [] && |at| == |t.snap| && Follows(p, t, pc0, at, w, s, s0, passes, k, g)
    decreases passes, 0
  {
    hide Restore, Compute, GuardHolds, WfIr, BcRun, TraceOk, Closed, Follows;
    var last := |t.snap| - 1;
    LoopLands(p, t, pc0, at, w, s0);
    var s1 := Restored(t, w, s, last);
    ClosedFacts(p, t, pc0, at, w, s, s0);
    var s01 := BcRun(p, w, at[last], pc0, s0).s;
    k, g := Transparent(p, t, pc0, at, w, s1, s01, passes - 1);
    OneMorePass(p, t, pc0, at, w, s, s0, s01, passes, k, g);
    k := k + 1;
  }

  lemma OneMorePass(p: Proto, t: Trace, pc0: int, at: seq<nat>, w: Arith, s: Stack, s0: Stack, s01: Stack, passes: nat, k: nat, g: nat)
    requires t.snap != [] && |at| == |t.snap| && passes > 0 && FirstFail(t, w, s, 0) == |t.ir| && PassesAll(t, w, s)
    requires BcRun(p, w, at[|at| - 1], pc0, s0) == At(pc0, s01) && Follows(p, t, pc0, at, w, Restored(t, w, s, |t.snap| - 1), s01, passes - 1, k, g)
    ensures Follows(p, t, pc0, at, w, s, s0, passes, k + 1, g)
  {
    hide Restore, GuardHolds, BcRun, Restored, FirstFail, Passes;
    var a := at[|at| - 1];
    var (r, s2) := TraceRun(t, w, Restored(t, w, s, |t.snap| - 1), passes - 1);
    var more := if r.Exit? then at[r.exitno] else 0;
    OneMore(k, a, more);
    hide StepsOf;
    BcRunTrans(p, w, a, StepsOf(k, a, more), pc0, s0, pc0, s01);
  }

  // -- Recording and running ----------------------------------------------------------

  lemma TraceRunnable(p: Proto, t: Trace, pc0: int, at: seq<nat>)
    requires TraceOk(p, t, pc0, at) && t.ir != [] && !t.ir[0].guard
    ensures Runnable(t)
  {
    var n := Snaps(t.snap, t.map_, at);
    forall j | 0 <= j < |t.snap| ensures MapRefsOk(EntriesOf(t, j), Pos(t.snap[j]), |t.k|) {
      assert TileAt(n, j) && Entries(n, j) == EntriesOf(t, j);
    }
  }

  /** A trace whose instructions kept to the compiler's convention is closed
      when it ends with the registers it began with. */
  lemma TightClosed(p: Proto, t: Trace, pc0: int, at: seq<nat>, b: int)
    requires TraceOk(p, t, pc0, at) && TightIr(t.ir, b) && TightSnaps(Snaps(t.snap, t.map_, at), b) && t.top == BASESLOT + b
    ensures Closed(t)
  {
    var n := Snaps(t.snap, t.map_, at);
    forall j | 0 <= j < |t.snap| ensures Covers(EntriesOf(t, j), t.top, t.snap[j].nslots) {
      assert TileAt(n, j) && Entries(n, j) == EntriesOf(t, j);
    }
  }

  // -- The compiler's convention --------------------------------------------------------

  /** Where the interpreter may go from `pc`. */
  function Successors(p: Proto, pc: int): seq<int>
    requires 0 <= pc < |p.bc|
  {
    if p.bc[pc].op <= BC.ISF then (if pc + 1 < |p.bc| then [pc + 2, Jump(p, pc + 1)] else [])
    else if p.bc[pc].op == BC.JMP then [Jump(p, pc)]
    else [pc + 1]
  }

  /** With `top[pc]` registers in use, the instruction at `pc` reads only those
      and writes at most the next one, and leaves enough in use for what follows
      it. */
  predicate FollowsAt(p: Proto, top: seq<int>, pc: int)
    requires 0 <= pc < |p.bc| == |top|
  {
    Disciplined(p.bc[pc], top[pc]) && forall x {:trigger Successors(p, pc)[x]} :: 0 <= x < |Successors(p, pc)| ==>
      var q := Successors(p, pc)[x]; 0 <= q < |top| ==> top[q] <= NextTop(p, pc, top[pc])
  }

  /** The loop at `start` is compiled so: every instruction in the range of the
      loop keeps to the registers in use, of which there are as many at the end
      as at the head. */
  ghost predicate Convention(p: Proto, top: seq<int>, start: int, min: int, extent: int)
    requires 0 <= start < |p.bc|
  {
    && |top| == |p.bc| && (forall pc {:trigger FollowsAt(p, top, pc)} :: 0 <= pc < |p.bc| && min <= pc < min + extent ==> FollowsAt(p, top, pc))
    && top[start] >= p.bc[start].a && (start + 1 < |top| ==> top[start + 1] <= p.bc[start].a)
  }

  lemma StepGoes(p: Proto, w: Arith, pc: int, s: Stack)
    requires 0 <= pc < |p.bc| && BcStep(p, w, pc, s).At?
    ensures exists x :: 0 <= x < |Successors(p, pc)| && Successors(p, pc)[x] == BcStep(p, w, pc, s).pc
  {
    var q := BcStep(p, w, pc, s).pc;
    assert Successors(p, pc)[0] == q || Successors(p, pc)[1] == q;
  }

  /** More registers in use are never worse. */
  lemma ConventionStep(p: Proto, top: seq<int>, pc: int, w: Arith, s: Stack, m: int, m2: int)
    requires 0 <= pc < |p.bc| == |top| && FollowsAt(p, top, pc) && top[pc] <= m && m2 >= NextTop(p, pc, m)
    ensures Disciplined(p.bc[pc], m)
    ensures BcStep(p, w, pc, s).At? && 0 <= BcStep(p, w, pc, s).pc < |top| ==> top[BcStep(p, w, pc, s).pc] <= m2
  {
    if BcStep(p, w, pc, s).At? { StepGoes(p, w, pc, s); }
  }

  /** A loop to be recorded: its code and range, the limits, the run, and what the
      runtime answers about `__eq` at each instruction. */
  datatype Loop = Loop(p: Proto, start: int, min: int, extent: int, maxrecord: int, maxirconst: int, w: Arith, s: Stack, haseq: int -> bool)

  ghost predicate LoopOk(l: Loop) {
    && WfProto(l.p) && 0 <= l.start < |l.p.bc| && l.p.bc[l.start].op == BC.LOOP && l.p.bc[l.start].a <= l.p.framesize
    && 0 <= l.maxrecord <= 0x7000 && 3 <= l.maxirconst <= 0x7000
  }

  /** The run from behind the loop instruction. */
  function RunOf(l: Loop, n: nat): State { BcRun(l.p, l.w, n, l.start + 1, l.s) }

  /** Step `i` is recorded: it is in range, no loop, and its values are such. */
  predicate StepRecords(l: Loop, i: nat) {
    match RunOf(l, i)
    case At(pc, t) => l.min <= pc < l.min + l.extent && 0 <= pc < |l.p.bc| && l.p.bc[pc].op != BC.LOOP && Records(l.p, l.p.bc[pc], t, l.haseq(i))
    case Away => false
  }

  predicate BackAt(l: Loop, n: nat) { RunOf(l, n).At? && RunOf(l, n).pc == l.start }

  /** The interpreter is back at the loop instruction after `n` steps, all of them
      recorded, of which there may be `fuel`, and there is room for them. */
  ghost predicate ClosesIn(l: Loop, fuel: nat, n: nat) {
    && n < fuel && 6 * n <= l.maxrecord && 3 + n <= l.maxirconst
    && l.min <= l.start < l.min + l.extent && BackAt(l, n) && forall i: nat {:trigger StepRecords(l, i)} :: i < n ==> StepRecords(l, i)
  }

  /** The recorder after `n` steps. */
  ghost predicate Underway(l: Loop, rec: Recorder, n: nat, pc: int, stack: Stack)
    reads rec, rec.ir, rec.slot
  {
    && rec.p == l.p && rec.startpc == l.start && rec.w0 == l.w && rec.s0 == l.s && rec.base0 == (if 0 <= l.start < |l.p.bc| then l.p.bc[l.start].a else 0)
    && rec.bcmin == l.min && rec.bcextent == l.extent && rec.maxrecord == l.maxrecord && rec.maxirconst == l.maxirconst
    && rec.Ready() && rec.npc == pc && rec.Now() == stack && 0 <= pc < |l.p.bc|
    && rec.steps == n && RunOf(l, n) == At(pc, stack) && |rec.ir.ins| <= 1 + 6 * n && |rec.ir.k| <= 3 + n
  }

  /** The loop is closed: what remains is the last snapshot. */
  ghost predicate Closing(l: Loop, rec: Recorder, n: nat)
    reads rec, rec.ir, rec.slot
  {
    && rec.p == l.p && rec.startpc == l.start && rec.w0 == l.w && rec.s0 == l.s && 0 <= l.start < |l.p.bc| && rec.base0 == l.p.bc[l.start].a
    && rec.Sound() && rec.Room(1) && rec.pc == rec.npc == l.start + 1 && !rec.needsnap && rec.steps == n + 1 && BackAt(l, n)
  }

  /** The next instruction is recorded. */
  method RecordStep(rec: Recorder, l: Loop, n: nat, pc: int, stack: Stack, haseq: bool, innerleft: bool, ghost top: seq<int>, ghost fuel: nat, ghost goal: nat)
    returns (st: Outcome, next: State)
    requires LoopOk(l) && Underway(l, rec, n, pc, stack) && haseq == l.haseq(n)
    modifies rec, rec.ir, rec.slot
    ensures st.Ok? ==> next.At? && Underway(l, rec, n + 1, next.pc, next.s)
    ensures st.Stop? ==> Closing(l, rec, n)
    ensures Keeping(l, top, old(rec.tight), pc, old(rec.maxslot)) ==>
      && (st.Ok? ==> Keeping(l, top, rec.tight, next.pc, rec.maxslot))
      && (st.Stop? ==> rec.tight && rec.maxslot == l.p.bc[l.start].a)
      && (n <= goal && ClosesIn(l, fuel, goal) ==> if n < goal then st.Ok? else st.Stop?)
  {
    hide Look, WfProto, BcStep, Disciplined, NextTop, Records, ClosesIn, Convention, Recorder.Sound, Recorder.Tracking, Recorder.Open;
    ghost var m := rec.maxslot;
    next := Away;
    if StoresTo(rec.p.bc[pc].op) && !rec.GapSafe(rec.p.bc[pc]) {
      if Keeping(l, top, rec.tight, pc, m) && n <= goal && ClosesIn(l, fuel, goal) {
        GoalAhead(l, fuel, goal, n, pc, stack);
        GapKept(l, top, pc, rec);
      }
      return Fail(NYIBC), next;
    }
    if n <= goal && ClosesIn(l, fuel, goal) { GoalAhead(l, fuel, goal, n, pc, stack); }
    st := rec.RecordIns(pc, stack, haseq, innerleft);
    if st.Fail? {
      return;
    }
    next := BcStep(rec.p, l.w, pc, stack);
    ReadyFacts(rec);
    if Keeping(l, top, old(rec.tight), pc, m) { KeptOn(l, top, pc, stack, m, rec.maxslot, next); }
  }

  /** The loop keeps to the convention, and the recorder has seen so. */
  ghost predicate Keeping(l: Loop, top: seq<int>, tight: bool, pc: int, maxslot: int) {
    0 <= l.start < |l.p.bc| && Convention(l.p, top, l.start, l.min, l.extent) && tight && 0 <= pc < |top| && top[pc] <= maxslot
  }

  /** Before the goal, the next instruction is recorded; there, it is the loop. */
  lemma GoalAhead(l: Loop, fuel: nat, goal: nat, n: nat, pc: int, stack: Stack)
    requires LoopOk(l) && ClosesIn(l, fuel, goal) && n <= goal && RunOf(l, n) == At(pc, stack) && 0 <= pc < |l.p.bc|
    ensures l.min <= pc < l.min + l.extent && (n == goal <==> l.p.bc[pc].op == BC.LOOP) && (n == goal ==> pc == l.start)
    ensures n < goal ==> Records(l.p, l.p.bc[pc], stack, l.haseq(n)) && 6 * (n + 1) <= l.maxrecord && 3 + (n + 1) <= l.maxirconst
  {
    hide RunOf, Records, WfProto;
    if n < goal { assert StepRecords(l, n); }
  }

  /** Under the convention nothing is stored above a gap. */
  lemma GapKept(l: Loop, top: seq<int>, pc: int, rec: Recorder)
    requires Keeping(l, top, rec.tight, pc, rec.maxslot) && 0 <= pc < |l.p.bc| && l.min <= pc < l.min + l.extent && StoresTo(l.p.bc[pc].op)
    requires rec.Sound() && rec.p == l.p
    ensures rec.GapSafe(l.p.bc[pc])
  {
    assert FollowsAt(l.p, top, pc);
  }

  lemma ReadyFacts(rec: Recorder)
    requires rec.Sound()
    ensures 0 <= rec.npc < |rec.p.bc|
  {
  }

  /** More registers in use are never worse, and at the loop they are as many as
      at its head. */
  lemma KeptOn(l: Loop, top: seq<int>, pc: int, stack: Stack, m: int, m2: int, next: State)
    requires 0 <= pc < |l.p.bc| && l.min <= pc < l.min + l.extent && Keeping(l, top, true, pc, m) && m2 >= NextTop(l.p, pc, m) && next == BcStep(l.p, l.w, pc, stack)
    ensures Disciplined(l.p.bc[pc], m)
    ensures next.At? && 0 <= next.pc < |l.p.bc| ==> Keeping(l, top, true, next.pc, m2)
    ensures pc == l.start && l.p.bc[pc].op == BC.LOOP ==> m2 >= l.p.bc[pc].a
  {
    hide Disciplined, BcStep;
    assert FollowsAt(l.p, top, pc);
    ConventionStep(l.p, top, pc, l.w, stack, m, m2);
  }

  /** The trace of a closed loop. */
  method CloseTrace(rec: Recorder, ghost l: Loop, ghost n: nat) returns (t: Trace, ghost at: seq<nat>)
    requires LoopOk(l) && Closing(l, rec, n)
    modifies rec, rec.ir
    ensures TraceOk(l.p, t, l.start + 1, at) && Runnable(t) && PassesAll(t, l.w, l.s) && at != [] && at[|at| - 1] == n + 1
    ensures old(rec.tight) && old(rec.maxslot) == l.p.bc[l.start].a ==> Closed(t)
  {
    hide TraceOk, TightIr, TightSnaps, Runnable, Closed, Look, WfProto, Recorder.Sound, Recorder.Tracking;
    t := rec.Finish();
    at := rec.at;
    HeadPlain(rec);
    TraceRunnable(l.p, t, l.start + 1, at);
    if old(rec.tight) && old(rec.maxslot) == l.p.bc[l.start].a { TightClosed(l.p, t, l.start + 1, at, rec.base0); }
  }

  /** Records the loop at `start` while the interpreter runs it from stack `s`,
      for at most `fuel` instructions. `haseq` and `innerleft` answer what the
      recorder asks the runtime at each instruction. A trace comes out only when
      the interpreter is back at the loop, after `turn` instructions, and the
      recorded run itself passes all its guards. It is closed if the loop keeps to
      the convention; and for such a loop it does come out once the interpreter is
      back within the limits. */
  method RecordTrace(p: Proto, start: int, min: int, extent: int, maxrecord: int, maxirconst: int, unroll: int, w: Arith, s: Stack, fuel: nat,
                     haseq: int -> bool, innerleft: int -> bool, ghost top: seq<int>)
    returns (st: Outcome, t: Trace, ghost at: seq<nat>, ghost turn: nat)
    requires LoopOk(Loop(p, start, min, extent, maxrecord, maxirconst, w, s, haseq))
    ensures st.Stop? ==> TraceOk(p, t, start + 1, at) && Runnable(t)
    ensures var l := Loop(p, start, min, extent, maxrecord, maxirconst, w, s, haseq);
      && (st.Stop? ==> turn < fuel && BackAt(l, turn) && at != [] && at[|at| - 1] == turn + 1 && PassesAll(t, w, s))
      && (Convention(p, top, start, min, extent) ==> forall n: nat {:trigger ClosesIn(l, fuel, n)} :: ClosesIn(l, fuel, n) ==> st.Stop? && turn == n)
    ensures st.Stop? && Convention(p, top, start, min, extent) ==> Closed(t)
  {
    hide TraceOk, Runnable, Closed, Convention, BackAt, ClosesIn, PassesAll, WfProto, Recorder.Open, Recorder.Sound, Look;
    t, at, turn := Trace([], [], [], [], 0), [], 0;
    var l := Loop(p, start, min, extent, maxrecord, maxirconst, w, s, haseq);
    var rec := new Recorder(p, start, min, extent, maxrecord, maxirconst, unroll, w, s);
    ghost var goal: nat :| (exists n: nat :: ClosesIn(l, fuel, n)) ==> ClosesIn(l, fuel, goal);
    Begun(l, rec, top);
    var pc, stack := start + 1, s;
    var n := 0;
    hide Underway, Closing, Keeping;
    while n < fuel
      invariant fresh(rec) && fresh(rec.ir) && fresh(rec.slot) && Underway(l, rec, n, pc, stack)
      invariant 0 <= n <= fuel && (Convention(p, top, start, min, extent) ==> Keeping(l, top, rec.tight, pc, rec.maxslot))
      invariant Convention(p, top, start, min, extent) && ClosesIn(l, fuel, goal) ==> n <= goal
    {
      var next;
      st, next := RecordStep(rec, l, n, pc, stack, haseq(n), innerleft(n), top, fuel, goal);
      if st.Fail? {
        return;
      }
      if st.Stop? {
        ClosingBack(l, rec, n);
        OneGoal(l, fuel, goal);
        t, at := CloseTrace(rec, l, n);
        turn := n;
        return;
      }
      pc, stack := next.pc, next.s;
      n := n + 1;
    }
    GoalLate(l, fuel, goal);
    st := Fail(LUNROLL);
  }

  lemma Begun(l: Loop, rec: Recorder, top: seq<int>)
    requires LoopOk(l) && rec.p == l.p && rec.startpc == l.start && rec.w0 == l.w && rec.s0 == l.s && rec.base0 == l.p.bc[l.start].a && rec.tight
    requires rec.bcmin == l.min && rec.bcextent == l.extent && rec.maxrecord == l.maxrecord && rec.maxirconst == l.maxirconst && rec.maxslot == l.p.bc[l.start].a
    requires rec.Open() && !rec.needsnap && rec.npc == l.start + 1 && rec.steps == 0 && rec.Now() == l.s && |rec.ir.ins| == 1 && |rec.ir.k| == 3
    ensures Underway(l, rec, 0, l.start + 1, l.s)
    ensures Convention(l.p, top, l.start, l.min, l.extent) ==> Keeping(l, top, rec.tight, l.start + 1, rec.maxslot)
  {
    hide Look;
  }

  lemma ClosingBack(l: Loop, rec: Recorder, n: nat)
    requires Closing(l, rec, n)
    ensures BackAt(l, n)
  {
  }

  /** The interpreter is back at the loop for the first time. */
  lemma OneGoal(l: Loop, fuel: nat, goal: nat)
    requires LoopOk(l)
    ensures ClosesIn(l, fuel, goal) ==> forall n: nat {:trigger ClosesIn(l, fuel, n)} :: ClosesIn(l, fuel, n) ==> n == goal
  {
    hide RunOf, WfProto, StepRecords, BackAt;
    if !ClosesIn(l, fuel, goal) { return; }
    forall n: nat {:trigger ClosesIn(l, fuel, n)} | ClosesIn(l, fuel, n) ensures n == goal {
      NotBack(l, n);
      NotBack(l, goal);
    }
  }

  lemma NotBack(l: Loop, i: nat)
    requires LoopOk(l)
    ensures StepRecords(l, i) ==> !BackAt(l, i)
  {
    hide RunOf, WfProto, Records;
  }

  lemma GoalLate(l: Loop, fuel: nat, goal: nat)
    ensures ClosesIn(l, fuel, goal) ==> goal < fuel
  {
  }

  lemma HeadPlain(rec: Recorder)
    requires rec.Sound()
    ensures rec.ir.ins != [] && !rec.ir.ins[0].guard
  {
    assert OperandsOk(rec.ir.ins[0], 0, |rec.ir.k|);
  }
}
