/** The life of traces: hot instructions start recordings, finished traces patch
    the bytecode, failed ones are penalized, and flushes take the patches back. */
module TraceLife {
  import opened Penalties
  import opened Registry
  import opened Bytecode
  import opened Wrappers

  datatype State = Idle | Record
  datatype TraceError = RETRY | BLACKL | NYIRETL | NYIBC | OtherError

  /** The recording under way: number, start, and the exit it continues. */
  datatype Rec = Rec(traceno: int, start: int, startins: Ins, root: int, parent: int, exitno: int)

  /** Bytecode by instruction address. */
  type Code = map<int, Ins>

  predicate HotOp(op: int) { RootOp(op) || op == FUNCV }
  predicate CompiledOp(op: int) { RootOp(op - 2) }
  predicate PatchedOp(op: int) { op == JFORI || HotOp(op - 1) || HotOp(op - 2) }

  /** Where the `FORI` of a `FORL` is. */
  function ForiOf(a: int, i: Ins): int { a + JumpOf(i) }

  /** Code as the compiler leaves it: nothing is patched, and the two
      instructions of a numeric loop lead to each other. */
  ghost predicate WfCode(orig: Code) {
    && 0 !in orig
    && forall a {:trigger orig[a]} :: a in orig ==>
      && !PatchedOp(orig[a].op)
      && (orig[a].op == FORL ==> var f := ForiOf(a, orig[a]); f in orig && orig[f].op == FORI && f + JumpOf(orig[f]) == a)
  }

  predicate Starts(r: seq<Slot>, i: int, a: int) { Live(r, i) && r[i].t.root == 0 && r[i].t.start == a }

  /** What patching may have made of an instruction: nothing, the variant that
      does not count, the entry of a trace (of one that was dropped, in `z`), or a
      loop head that enters one. */
  predicate PatchAt(orig: Code, z: set<int>, code: Code, r: seq<Slot>, a: int)
    requires a in orig && a in code
  {
    || code[a] == orig[a]
    || (HotOp(orig[a].op) && code[a] == orig[a].(op := orig[a].op + 1))
    || (RootOp(orig[a].op) && code[a] == orig[a].(op := orig[a].op + 2, d := code[a].d) && (a in z || Starts(r, code[a].d, a)))
    || (orig[a].op == FORI && code[a] == orig[a].(op := JFORI))
  }

  /** A loop head enters the trace of its loop, if and only if the loop does. */
  predicate PairAt(orig: Code, code: Code, a: int)
    requires a in orig && a in code
  {
    && (orig[a].op == FORL && ForiOf(a, orig[a]) in code ==> (code[ForiOf(a, orig[a])].op == JFORI <==> code[a].op == JFORL))
    && (code[a].op == JFORI ==> var l := a + JumpOf(orig[a]); l in orig && orig[l].op == FORL && ForiOf(l, orig[l]) == a)
  }

  /** The stale entries: still there, but their traces were dropped, and no trace
      starts there since. */
  ghost predicate StaleOk(orig: Code, z: set<int>, code: Code, r: seq<Slot>) {
    && (forall a {:trigger a in z} :: a in z ==> a in orig && a in code && RootOp(orig[a].op) && CompiledOp(code[a].op))
    && (forall i {:trigger r[i]} :: Live(r, i) && r[i].t.root == 0 ==> r[i].t.start !in z)
  }

  /** Without stale entries, a trace that goes on in another one finds it. */
  ghost predicate LinksOk(z: set<int>, r: seq<Slot>) {
    z == {} ==> forall i {:trigger r[i]} :: Live(r, i) && r[i].t.link != 0 ==> Live(r, r[i].t.link) && r[r[i].t.link].t.root == 0
  }

  ghost predicate CodeOk(orig: Code, z: set<int>, code: Code, r: seq<Slot>) {
    && code.Keys == orig.Keys && StaleOk(orig, z, code, r) && LinksOk(z, r)
    && (forall a {:trigger PatchAt(orig, z, code, r, a)} :: a in orig ==> PatchAt(orig, z, code, r, a))
    && (forall a {:trigger PairAt(orig, code, a)} :: a in orig ==> PairAt(orig, code, a))
  }

  /** Root traces remember the instruction they replaced. */
  ghost predicate RootsOk(orig: Code, r: seq<Slot>) {
    forall i {:trigger r[i]} :: Live(r, i) && r[i].t.root == 0 ==> r[i].t.start in orig && r[i].t.startins == orig[r[i].t.start]
  }

  // -- Taking the patches back --------------------------------------------------------

  /** The instruction below a patch. */
  function Unpatch(i: Ins, r: seq<Slot>): Ins {
    if CompiledOp(i.op) then (if Live(r, i.d) then r[i.d].t.startins else i)
    else if HotOp(i.op - 1) then i.(op := i.op - 1)
    else if i.op == JFORI then i.(op := FORI)
    else i
  }

  /** Un-patching an instruction gives back the one compiled, and an entry names
      a live root trace that starts there, unless it is stale; then it names
      none, or a trace that starts elsewhere. A loop head is entered through its
      loop. */
  ghost predicate AsCompiled(orig: Code, z: set<int>, code: Code, r: seq<Slot>, a: int)
    requires a in code && a in orig
  {
    && (a !in z ==> Unpatch(code[a], r) == orig[a])
    && (CompiledOp(code[a].op) ==> (Starts(r, code[a].d, a) <==> a !in z))
    && (a in z ==> CompiledOp(code[a].op))
    && (code[a].op == JFORI ==> var l := a + JumpOf(code[a]); l in code && code[l].op == JFORL)
  }

  lemma InstructionOk(orig: Code, z: set<int>, code: Code, r: seq<Slot>, a: int)
    requires WfCode(orig) && CodeOk(orig, z, code, r) && RootsOk(orig, r) && a in code
    ensures a in orig && AsCompiled(orig, z, code, r, a)
  {
    hide LinksOk;
    assert PatchAt(orig, z, code, r, a) && PairAt(orig, code, a);
    if code[a].op == JFORI {
      var l := a + JumpOf(orig[a]);
      assert PatchAt(orig, z, code, r, l) && PairAt(orig, code, l);
    }
  }

  lemma Transparent(orig: Code, z: set<int>, code: Code, r: seq<Slot>)
    requires WfCode(orig) && CodeOk(orig, z, code, r) && RootsOk(orig, r)
    ensures code.Keys == orig.Keys && forall a {:trigger code[a]} :: a in code ==> AsCompiled(orig, z, code, r, a)
  {
    hide AsCompiled, WfCode, RootsOk, StaleOk, LinksOk, PatchAt, PairAt;
    forall a {:trigger code[a]} | a in code
      ensures AsCompiled(orig, z, code, r, a)
    {
      InstructionOk(orig, z, code, r, a);
    }
  }

  // -- What the steps do to the code ----------------------------------------------------

  /** Disabled for good: the variant that does not count. */
  function Blacklisted(i: Ins): Ins {
    if RootOp(i.op) then i.(op := i.op + 1) else if CompiledOp(i.op) then i.(op := i.op - 1) else i
  }

  /** Entering trace `n`; the operand field has 16 bits. */
  function Entered(code: Code, a: int, n: int): Code
    requires a in code
  {
    var i := code[a];
    var c := if i.op == FORL && ForiOf(a, i) in code then code[ForiOf(a, i) := code[ForiOf(a, i)].(op := JFORI)] else code;
    c[a := i.(op := i.op + 2, d := n % 0x10000)]
  }

  /** Both patches of a root trace taken back. */
  function Reverted(code: Code, a: int, i: Ins): Code {
    var c := if i.op == FORL && ForiOf(a, i) in code then code[ForiOf(a, i) := code[ForiOf(a, i)].(op := FORI)] else code;
    c[a := i]
  }

  lemma BlacklistedOk(orig: Code, z: set<int>, code: Code, r: seq<Slot>, a: int)
    requires WfCode(orig) && CodeOk(orig, z, code, r) && a in code && HotOp(code[a].op)
    ensures CodeOk(orig, z, code[a := code[a].(op := code[a].op + 1)], r)
  {
    var c2 := code[a := code[a].(op := code[a].op + 1)];
    assert PatchAt(orig, z, code, r, a);
    forall b | b in orig ensures PatchAt(orig, z, c2, r, b) && PairAt(orig, c2, b) {
      assert PatchAt(orig, z, code, r, b) && PairAt(orig, code, b);
    }
  }

  lemma EnteredOk(orig: Code, z: set<int>, code: Code, r: seq<Slot>, a: int, n: int, t: Trace)
    requires WfCode(orig) && CodeOk(orig, z, code, r) && a in code && code[a] == orig[a] && RootOp(orig[a].op)
    requires 0 < n < |r| && n < 0x10000 && r[n].Free? && t.root == 0 && t.start == a && LinksOk(z, r[n := Used(t)])
    ensures CodeOk(orig, z, Entered(code, a, n), r[n := Used(t)])
  {
    var c2, r2 := Entered(code, a, n), r[n := Used(t)];
    hide LinksOk, PairAt, PatchAt;
    forall b | b in orig
      ensures b in c2 && PatchAt(orig, z, c2, r2, b) && PairAt(orig, c2, b)
    {
      EnteredAt(orig, z, code, r, a, n, t, b);
    }
    EnteredStale(orig, z, code, r, a, n, t);
  }

  lemma EnteredStale(orig: Code, z: set<int>, code: Code, r: seq<Slot>, a: int, n: int, t: Trace)
    requires WfCode(orig) && CodeOk(orig, z, code, r) && a in code && code[a] == orig[a] && RootOp(orig[a].op)
    requires 0 < n < |r| && r[n].Free? && t.root == 0 && t.start == a
    ensures Entered(code, a, n).Keys == orig.Keys && StaleOk(orig, z, Entered(code, a, n), r[n := Used(t)])
  {
    hide LinksOk;
    if orig[a].op == FORL { assert PatchAt(orig, z, code, r, ForiOf(a, orig[a])); }
  }

  lemma EnteredAt(orig: Code, z: set<int>, code: Code, r: seq<Slot>, a: int, n: int, t: Trace, b: int)
    requires WfCode(orig) && CodeOk(orig, z, code, r) && a in code && code[a] == orig[a] && RootOp(orig[a].op) && b in orig
    requires 0 < n < |r| && n < 0x10000 && r[n].Free? && t.root == 0 && t.start == a
    ensures var c2, r2 := Entered(code, a, n), r[n := Used(t)];
      b in c2 && PatchAt(orig, z, c2, r2, b) && PairAt(orig, c2, b)
  {
    hide LinksOk;
    assert PatchAt(orig, z, code, r, b) && PairAt(orig, code, b);
    if orig[a].op == FORL { assert PatchAt(orig, z, code, r, ForiOf(a, orig[a])); }
  }

  lemma RevertedOk(orig: Code, z: set<int>, code: Code, r: seq<Slot>, a: int)
    requires WfCode(orig) && CodeOk(orig, z, code, r) && a in code && RootOp(orig[a].op) && a !in z
    ensures CodeOk(orig, z, Reverted(code, a, orig[a]), r) && Reverted(code, a, orig[a])[a] == orig[a]
  {
    var c2 := Reverted(code, a, orig[a]);
    RevertedStale(orig, z, code, r, a);
    hide PatchAt, PairAt, StaleOk, LinksOk, Reverted, WfCode;
    forall b | b in orig
      ensures b in c2 && PatchAt(orig, z, c2, r, b) && PairAt(orig, c2, b)
    {
      RevertedBack(orig, z, code, r, a, b);
    }
  }

  lemma RevertedStale(orig: Code, z: set<int>, code: Code, r: seq<Slot>, a: int)
    requires WfCode(orig) && CodeOk(orig, z, code, r) && a in code && RootOp(orig[a].op) && a !in z
    ensures var c2 := Reverted(code, a, orig[a]); c2.Keys == orig.Keys && c2[a] == orig[a] && StaleOk(orig, z, c2, r)
  {
    hide LinksOk, PairAt;
    if orig[a].op == FORL { assert PatchAt(orig, z, code, r, ForiOf(a, orig[a])); }
  }

  lemma RevertedBack(orig: Code, z: set<int>, code: Code, r: seq<Slot>, a: int, b: int)
    requires WfCode(orig) && CodeOk(orig, z, code, r) && a in code && RootOp(orig[a].op) && a !in z && b in orig
    ensures var c2 := Reverted(code, a, orig[a]); b in c2 && PatchAt(orig, z, c2, r, b) && PairAt(orig, c2, b)
  {
    hide LinksOk, StaleOk;
    assert PatchAt(orig, z, code, r, b) && PairAt(orig, code, b);
    if orig[a].op == FORL { assert PatchAt(orig, z, code, r, ForiOf(a, orig[a])); }
  }

  ghost predicate NoEntries(code: Code) { forall a {:trigger code[a]} :: a in code ==> !CompiledOp(code[a].op) && code[a].op != JFORI }

  ghost predicate AllFree(r: seq<Slot>) { forall i {:trigger r[i]} :: 0 <= i < |r| ==> r[i].Free? }

  /** The head of a loop in `z`. */
  predicate EntersLoop(orig: Code, z: set<int>, a: int)
    requires a in orig
  {
    orig[a].op == FORI && var l := a + JumpOf(orig[a]); l in z && l in orig && orig[l].op == FORL && ForiOf(l, orig[l]) == a
  }

  /** The entries in the code are the stale ones. */
  ghost predicate OnlyStale(orig: Code, z: set<int>, code: Code) {
    code.Keys == orig.Keys && forall a {:trigger code[a]} :: a in code ==>
      && (CompiledOp(code[a].op) <==> a in z)
      && (code[a].op == JFORI <==> EntersLoop(orig, z, a))
  }

  /** Once every root trace is reverted, only stale entries are left, and the
      registry no longer matters. */
  lemma Flushed(orig: Code, z: set<int>, code: Code, r: seq<Slot>, r2: seq<Slot>)
    requires WfCode(orig) && CodeOk(orig, z, code, r) && RootsOk(orig, r) && AllFree(r2)
    requires forall i {:trigger r[i]} :: Live(r, i) && r[i].t.root == 0 ==> code[r[i].t.start] == orig[r[i].t.start]
    ensures OnlyStale(orig, z, code) && CodeOk(orig, z, code, r2)
  {
    forall a {:trigger code[a]} | a in code
      ensures CompiledOp(code[a].op) <==> a in z
    {
      NotEntered(orig, z, code, r, a);
    }
    forall a {:trigger code[a]} | a in code
      ensures code[a].op == JFORI <==> EntersLoop(orig, z, a)
    {
      assert PatchAt(orig, z, code, r, a) && PairAt(orig, code, a);
      var l := a + JumpOf(orig[a]);
      if l in orig {
        NotEntered(orig, z, code, r, l);
        assert PatchAt(orig, z, code, r, l) && PairAt(orig, code, l);
      }
    }
    forall a | a in orig
      ensures PatchAt(orig, z, code, r2, a) && PairAt(orig, code, a)
    {
      assert PatchAt(orig, z, code, r, a) && PairAt(orig, code, a);
      NotEntered(orig, z, code, r, a);
    }
  }

  lemma NotEntered(orig: Code, z: set<int>, code: Code, r: seq<Slot>, a: int)
    requires WfCode(orig) && CodeOk(orig, z, code, r) && a in code
    requires forall i {:trigger r[i]} :: Live(r, i) && r[i].t.root == 0 && r[i].t.start in code && r[i].t.start in orig ==> code[r[i].t.start] == orig[r[i].t.start]
    ensures CompiledOp(code[a].op) <==> a in z
  {
    assert PatchAt(orig, z, code, r, a);
  }

  function Entries(code: Code): set<int> { set a | a in code && CompiledOp(code[a].op) }

  lemma EntriesEmpty(code: Code)
    ensures Entries(code) == {} <==> forall a {:trigger code[a]} :: a in code ==> !CompiledOp(code[a].op)
  {
    assert forall a {:trigger code[a]} :: a in code && CompiledOp(code[a].op) ==> a in Entries(code);
    if forall a {:trigger code[a]} :: a in code ==> !CompiledOp(code[a].op) {
      assert forall a :: a !in Entries(code);
    }
  }

  lemma EntryRoot(orig: Code, z: set<int>, code: Code, r: seq<Slot>, a: int)
    requires WfCode(orig) && CodeOk(orig, z, code, r) && a in code
    ensures a in orig && (CompiledOp(code[a].op) ==> RootOp(orig[a].op))
    ensures code[a].op == JFORI ==> a + JumpOf(orig[a]) in Entries(code)
  {
    assert PatchAt(orig, z, code, r, a) && PairAt(orig, code, a);
    if code[a].op == JFORI { assert PairAt(orig, code, a + JumpOf(orig[a])); }
  }

  lemma NoneEntered(orig: Code, z: set<int>, code: Code, r: seq<Slot>)
    requires WfCode(orig) && CodeOk(orig, z, code, r)
    ensures NoEntries(code) <==> Entries(code) == {}
  {
    hide CodeOk, WfCode;
    EntriesEmpty(code);
    forall a {:trigger code[a]} | a in code
      ensures code[a].op == JFORI ==> Entries(code) != {}
    {
      EntryRoot(orig, z, code, r, a);
    }
  }

  /** The registry emptied under the code: all entries are stale. */
  lemma Dropped(orig: Code, z: set<int>, code: Code, r: seq<Slot>, r2: seq<Slot>)
    requires WfCode(orig) && CodeOk(orig, z, code, r) && AllFree(r2)
    ensures CodeOk(orig, z + Entries(code), code, r2) && RootsOk(orig, r2)
  {
    var z2 := z + Entries(code);
    forall a {:trigger a in z2} | a in z2
      ensures a in orig && a in code && RootOp(orig[a].op) && CompiledOp(code[a].op)
    {
      if a in Entries(code) { EntryRoot(orig, z, code, r, a); }
    }
    forall a | a in orig
      ensures PatchAt(orig, z2, code, r2, a) && PairAt(orig, code, a)
    {
      assert PatchAt(orig, z, code, r, a) && PairAt(orig, code, a);
    }
  }

  /** Where recording a new trace stands. */
  ghost predicate RecOk(orig: Code, code: Code, r: seq<Slot>, maxside: int, rec: Rec) {
    && IsNext(r, rec.traceno) && rec.traceno < 0x10000
    && if rec.parent == 0 then
         && rec.root == 0 && rec.exitno == 0 && rec.start in orig && rec.start in code && rec.startins == orig[rec.start] == code[rec.start] && RootOp(rec.startins.op)
         && forall i {:trigger r[i]} :: Live(r, i) && r[i].t.root == 0 ==> r[i].t.start != rec.start
       else
         && Live(r, rec.parent) && rec.root == RootOf(r, rec.parent) && Live(r, rec.root) && r[rec.root].t.nchild < maxside && rec.startins.op == JMP
         && 0 <= rec.exitno < |r[rec.parent].t.snap| && r[rec.parent].t.snap[rec.exitno].sidetrace == 0
  }

  /** Entries are stale if and only if traces were dropped with entries in the
      code. */
  ghost predicate DropsOk(z: set<int>, drops: seq<Code>) { z == {} <==> forall k {:trigger drops[k]} :: 0 <= k < |drops| ==> NoEntries(drops[k]) }

  lemma DropNext(z: set<int>, drops: seq<Code>, code: Code)
    requires DropsOk(z, drops) && (NoEntries(code) <==> Entries(code) == {})
    ensures DropsOk(z + Entries(code), drops + [code])
  {
    hide NoEntries, Entries;
    var d := drops + [code];
    assert forall k {:trigger d[k]} :: 0 <= k < |drops| ==> d[k] == drops[k];
    assert d[|drops|] == code;
    if forall k {:trigger d[k]} :: 0 <= k < |d| ==> NoEntries(d[k]) {
      forall k {:trigger drops[k]} | 0 <= k < |drops| ensures NoEntries(drops[k]) { assert d[k] == drops[k]; }
    }
  }

  /** A side trace is being recorded, and its parent was flushed away. */
  ghost predicate Orphaned(r: seq<Slot>, rec: Rec) { rec.parent != 0 && AllFree(r) }

  /** All there is at one moment: bytecode, prototypes given up, traces, the
      recording, penalties, stale entries and drops. */
  datatype Life = Life(code: Code, nojit: set<int>, trace: seq<Slot>, state: State, rec: Option<Rec>, pen: Cache, stale: set<int>, drops: seq<Code>)

  class Jit {
    const maxtrace: int
    const maxside: int
    const hotexit: int
    const tryside: int
    /** The prototype an instruction belongs to. */
    const protoOf: int -> int
    const pen: PenaltyCache
    /** The bytecode as compiled. */
    ghost const orig: Code
    /** The entries left behind when traces were dropped, and the bytecode at each
        such drop. */
    ghost var stale: set<int>
    ghost var drops: seq<Code>
    var code: Code
    /** Prototypes that are not to be compiled any more. */
    var nojit: set<int>
    var trace: seq<Slot>
    var state: State
    var rec: Option<Rec>

    ghost predicate Valid()
      reads this, pen, pen.penalty
    {
      && 0 <= maxtrace < 0x10000 && 0 <= maxside < 0x10000 && 0 <= hotexit && 0 <= tryside && hotexit + tryside < SNAPCOUNT_DONE
      && pen.Valid() && WfCode(orig) && CodeOk(orig, stale, code, trace) && RootsOk(orig, trace) && TreeOk(trace, maxside) && |trace| <= maxtrace + 1
      && (state.Record? ==> rec.Some? && (RecOk(orig, code, trace, maxside, rec.value) || Orphaned(trace, rec.value)))
      && DropsOk(stale, drops)
    }

    ghost function Now(): Life
      reads this, pen, pen.penalty
    { Life(code, nojit, trace, state, rec, pen.Now(), stale, drops) }

    constructor (bc: Code, protos: int -> int, mt: int, ms: int, he: int, ts: int)
      requires WfCode(bc) && 0 <= mt < 0x10000 && 0 <= ms < 0x10000 && 0 <= he && 0 <= ts && he + ts < SNAPCOUNT_DONE
      ensures Valid() && code == bc == orig && stale == {} && drops == [] && trace == [Free] && nojit == {} && state.Idle? && fresh(pen) && fresh(pen.penalty)
      ensures maxtrace == mt && maxside == ms && hotexit == he && tryside == ts && protoOf == protos
    {
      maxtrace, maxside, hotexit, tryside, protoOf := mt, ms, he, ts, protos;
      pen := new PenaltyCache();
      orig, code, nojit, stale, drops := bc, bc, {}, {}, [];
      trace, state, rec := [Free], Idle, None;
      new;
      Emptied(trace, maxside);
      forall a | a in orig ensures PatchAt(orig, stale, code, trace, a) && PairAt(orig, code, a) { }
    }

    /** Un-counts the instruction at `a`, or takes a trace entry away. */
    method BlacklistPc(a: int)
      requires a in code
      modifies this`code
      ensures code == old(code)[a := Blacklisted(old(code)[a])]
    {
      var op := code[a].op;
      if RootOp(op) {
        code := code[a := code[a].(op := op + 1)];
      } else if CompiledOp(op) {
        code := code[a := code[a].(op := op - 1)];
      }
    }

    /** A root recording from `a` failed: penalize the instruction, blacklist it
        past the limit. */
    method PenaltyPc(a: int, rnd: int)
      requires Valid() && state.Idle? && a in code && HotOp(code[a].op) && 0 <= rnd < 16
      modifies this`code, pen, pen.penalty
      ensures Valid() && pen.Now() == old(After(pen.Now(), Event(a, rnd)))
      ensures code == if old(Blacklists(pen.Now(), Event(a, rnd))) then old(code)[a := Blacklisted(old(code)[a])] else old(code)
      ensures HotOp(code[a].op) <==> !old(Blacklists(pen.Now(), Event(a, rnd))) || old(code)[a].op == FUNCV
    {
      var blacklist := pen.Bump(a, rnd);
      if blacklist {
        BlacklistedOk(orig, stale, code, trace, a);
        ghost var was := code;
        BlacklistPc(a);
        if !RootOp(was[a].op) { NotCompiled(was[a].op); assert code == was; }
      }
    }

    lemma PenaltyOk(a: int, rnd: int)
      requires Valid() && a in code && 0 <= rnd < 16
      ensures Wf(pen.Now()) && WfEvent(Event(a, rnd))
    {
    }

    /** What a failed recording leaves. */
    ghost function GivenUp(b: Life, e: TraceError, startins: Ins, start: int, root: bool, rnd: int): Life {
      var x := Event(start, rnd);
      var c := b.(state := Idle, rec := None);
      if !root || e == RETRY || (e == NYIRETL && startins.op == FUNCF) then c
      else if e == BLACKL then c.(nojit := b.nojit + {protoOf(start)})
      else c.(pen := if Wf(b.pen) && WfEvent(x) then After(b.pen, x) else b.pen, code := if Blacklists(b.pen, x) && start in b.code then b.code[start := Blacklisted(b.code[start])] else b.code)
    }

    /** Gives the recording up. A failed root recording is penalized, unless it
        is to be retried, its function is not to be compiled at all, or it came
        through the base case of a recursion. */
    method TraceAbort(e: TraceError, startins: Ins, start: int, root: bool, rnd: int)
      requires Valid() && 0 <= rnd < 16 && (root ==> start in code && HotOp(code[start].op) && startins == code[start])
      modifies this`code, this`state, this`rec, this`nojit, pen, pen.penalty
      ensures Valid() && state.Idle? && nojit == if root && e == BLACKL then old(nojit) + {protoOf(start)} else old(nojit)
      ensures var penalized := root && e != RETRY && e != BLACKL && !(e == NYIRETL && startins.op == FUNCF);
        && pen.Now() == (if penalized then old(After(pen.Now(), Event(start, rnd))) else old(pen.Now()))
        && code == if penalized && old(Blacklists(pen.Now(), Event(start, rnd))) then old(code)[start := Blacklisted(old(code)[start])] else old(code)
      ensures Now() == GivenUp(old(Now()), e, startins, start, root, rnd)
    {
      if root { PenaltyOk(start, rnd); }
      hide CodeOk, RootsOk, TreeOk, WfCode, PenaltyCache.Valid, RecOk, After, Blacklists, Wf;
      rec := None;
      state := Idle;
      if root {
        if e == RETRY {
          // The hot counter triggers again at once.
        } else if e == BLACKL {
          nojit := nojit + {protoOf(start)};
        } else if e == NYIRETL && startins.op == FUNCF {
          // Only the hot counter is set back.
        } else {
          PenaltyPc(start, rnd);
        }
      }
    }

    /** The first free number, below the limit. */
    method TraceFindfree() returns (n: int)
      requires Valid() && state.Idle?
      modifies this`trace
      ensures Valid() && (trace == old(trace) || trace == old(trace) + [Free])
      ensures if n == 0 then |old(trace)| > maxtrace && trace == old(trace) && forall i :: 0 < i < |trace| ==> trace[i].Used? else IsNext(trace, n) && n <= maxtrace
    {
      hide CodeOk, RootsOk, WfCode, PenaltyCache.Valid, RecOk;
      n := 1;
      while n < |trace| && trace[n].Used?
        invariant 1 <= n <= |trace| && forall i {:trigger trace[i]} :: 0 < i < n ==> trace[i].Used?
      {
        n := n + 1;
      }
      if n < |trace| {
        return;
      }
      if |trace| > maxtrace {
        return 0;
      }
      CodeGrown(orig, stale, code, trace);
      Pushed(trace, maxside);
      trace := trace + [Free];
      n := |trace| - 1;
    }

    /** Is there a root trace that starts at `a`? */
    method FindRootTrace(a: int) returns (found: bool)
      ensures found <==> exists i :: Starts(trace, i, a)
    {
      var i := 0;
      found := false;
      while i < |trace|
        invariant 0 <= i <= |trace| && !found && forall j :: 0 <= j < i ==> !Starts(trace, j, a)
      {
        if Starts(trace, i, a) {
          return true;
        }
        i := i + 1;
      }
    }

    /** Too many side traces in the tree, or too many attempts at the exit. */
    predicate Hopeless(r: seq<Slot>, p: int, x: int)
      requires Live(r, p) && 0 <= x < |r[p].t.snap|
    {
      (Live(r, RootOf(r, p)) && r[RootOf(r, p)].t.nchild >= maxside) || r[p].t.snap[x].count >= hotexit + tryside
    }

    /** Gives an exit up for good if its tree is full or it was tried too often. */
    method CloseExit(parent: int, exitno: int) returns (closed: bool)
      requires Valid() && state.Idle? && Live(trace, parent) && 0 <= exitno < |trace[parent].t.snap| && trace[parent].t.snap[exitno].sidetrace == 0
      modifies this`trace
      ensures Valid() && (closed <==> Hopeless(old(trace), parent, exitno))
      ensures trace == if closed then Counted(old(trace), parent, exitno, SNAPCOUNT_DONE) else old(trace)
    {
      hide CodeOk, RootsOk, WfCode, PenaltyCache.Valid, RecOk, TreeOk;
      RootLive(trace, maxside, parent);
      var root := RootOf(trace, parent);
      closed := trace[root].t.nchild >= maxside || trace[parent].t.snap[exitno].count >= hotexit + tryside;
      if closed {
        CountedKeeps(orig, stale, code, trace, maxside, parent, exitno, SNAPCOUNT_DONE);
        trace := trace[parent := Used(trace[parent].t.(snap := trace[parent].t.snap[exitno := trace[parent].t.snap[exitno].(count := SNAPCOUNT_DONE)]))];
      }
    }

    /** No number is left for a trace. */
    ghost predicate Full(r: seq<Slot>) { |r| > maxtrace && forall i {:trigger r[i]} :: 0 < i < |r| ==> r[i].Used? }

    /** Nothing stands against recording a root trace at `a`, but for errors when
        the recorder is set up. */
    ghost predicate RootRecords(c: Code, off: set<int>, r: seq<Slot>, a: int) {
      a in c && protoOf(a) !in off && !RootStart(r, a) && RootOp(c[a].op) && !Full(r)
    }

    /** A recording is under way: of the trace with the next number. */
    ghost predicate Recording(b: Life, a: Life, rec0: Rec) {
      && Extends(b.trace, a.trace) && a.rec.Some? && IsNext(a.trace, a.rec.value.traceno)
      && a == b.(trace := a.trace, state := Record, rec := Some(rec0.(traceno := a.rec.value.traceno)))
    }

    /** Setting up a recording: it starts, fails, or is refused. */
    ghost predicate SetUp(b: Life, a: Life, rec0: Rec, setup: Option<TraceError>, rnd: int) {
      match setup
      case None => Recording(b, a, rec0)
      case Some(e) => Extends(b.trace, a.trace) && a == GivenUp(b, e, rec0.startins, rec0.start, rec0.parent == 0, rnd).(trace := a.trace)
    }

    /** A hot instruction: only a root trace that is to be recorded, has not been
        and gets a number. */
    ghost predicate HotDone(b: Life, a: Life, at: int, setup: Option<TraceError>, rnd: int) {
      if at !in b.code || !RootOp(b.code[at].op) || b.state.Record? then a == b
      else if protoOf(at) in b.nojit then a == b.(code := b.code[at := b.code[at].(op := b.code[at].op + 1)])
      else if RootStart(b.trace, at) || Full(b.trace) then a == b
      else SetUp(b, a, Rec(0, at, b.code[at], 0, 0, 0), setup, rnd)
    }

    /** A hot exit: a side trace, unless that is hopeless. */
    ghost predicate SideDone(b: Life, a: Life, at: int, p: int, x: int, setup: Option<TraceError>, rnd: int)
      requires Live(b.trace, p) && 0 <= x < |b.trace[p].t.snap|
    {
      if b.state.Record? || protoOf(at) in b.nojit || Full(b.trace) || Hopeless(b.trace, p, x) then a == b
      else SetUp(b, a, Rec(0, at, Ins(JMP, 0, BIAS), RootOf(b.trace, p), p, x), setup, rnd)
    }

    /** Starts recording: a root trace at the hot instruction `a`, or a side trace
        at an exit. `setup` says whether the recorder can be set up. */
    method TraceStart(a: int, parent: int, exitno: int, setup: Option<TraceError>, rnd: int)
      requires Valid() && state.Idle? && 0 <= rnd < 16
      requires if parent == 0 then exitno == 0 && a in code && HotOp(code[a].op)
               else Live(trace, parent) && 0 <= exitno < |trace[parent].t.snap| && trace[parent].t.snap[exitno].sidetrace == 0
      modifies this`code, this`nojit, this`trace, this`state, this`rec, pen, pen.penalty
      ensures Valid() && (state.Record? ==> rec.value.parent == parent && rec.value.exitno == exitno && rec.value.start == a)
      ensures parent != 0 ==> code == old(code) && nojit == old(nojit) && pen.Now() == old(pen.Now())
      ensures parent == 0 ==> Extends(old(trace), trace) && (code == old(code) || code == old(code)[a := old(code)[a].(op := old(code)[a].op + 1)])
      ensures parent == 0 && protoOf(a) in old(nojit) ==> state.Idle? && code == old(code)[a := old(code)[a].(op := old(code)[a].op + 1)]
      ensures parent == 0 && state.Record? ==> code == old(code) && nojit == old(nojit) && pen.Now() == old(pen.Now())
      ensures parent != 0 ==> Extends(old(trace), trace) || (Hopeless(old(trace), parent, exitno) && Extends(Counted(old(trace), parent, exitno, SNAPCOUNT_DONE), trace))
      ensures parent != 0 && Hopeless(old(trace), parent, exitno) ==> state.Idle?
      ensures parent == 0 ==> (state.Record? <==> RootRecords(old(code), old(nojit), old(trace), a) && setup.None?)
      ensures parent != 0 ==> (state.Record? <==> protoOf(a) !in old(nojit) && !Full(old(trace)) && !Hopeless(old(trace), parent, exitno) && setup.None?)
      ensures state.Record? ==> RecOk(orig, code, trace, maxside, rec.value)
      ensures parent == 0 && RootOp(old(code)[a].op) ==> HotDone(old(Now()), Now(), a, setup, rnd)
      ensures parent != 0 && !Hopeless(old(trace), parent, exitno) ==> SideDone(old(Now()), Now(), a, parent, exitno, setup, rnd)
    {
      hide CodeOk, RootsOk, WfCode, PenaltyCache.Valid, RecOk, TreeOk, IsNext, DropsOk, After, Blacklists;
      var startins := if parent != 0 then Ins(JMP, 0, BIAS) else code[a];
      if protoOf(a) in nojit {
        if parent == 0 {
          BlacklistedOk(orig, stale, code, trace, a);
          code := code[a := startins.(op := startins.op + 1)];
        }
        return;
      }
      if parent == 0 {
        var found := FindRootTrace(a);
        if found {
          return;
        }
        if !RootOp(startins.op) {
          TraceAbort(NYIBC, startins, a, true, rnd);
          return;
        }
      }
      var traceno := TraceFindfree();
      if traceno == 0 {
        return;
      }
      RoomLeft(old(trace), trace, traceno);
      var root := 0;
      if parent != 0 {
        var closed := CloseExit(parent, exitno);
        if closed {
          return;
        }
        root := RootOf(trace, parent);
      }
      if setup.Some? {
        TraceAbort(setup.value, startins, a, parent == 0, rnd);
        return;
      }
      RecReady(old(trace), traceno, a, startins, root, parent, exitno);
      rec := Some(Rec(traceno, a, startins, root, parent, exitno));
      state := Record;
    }

    lemma RoomLeft(r0: seq<Slot>, r: seq<Slot>, n: int)
      requires Extends(r0, r) && IsNext(r, n) && n <= maxtrace && |r| <= maxtrace + 1
      ensures !Full(r0)
    {
      if n < |r0| { assert r0[n].Free?; }
    }

    lemma RecReady(r0: seq<Slot>, traceno: int, a: int, startins: Ins, root: int, parent: int, exitno: int)
      requires Valid() && Extends(r0, trace) && IsNext(trace, traceno) && traceno <= maxtrace
      requires parent == 0 ==> root == 0 && exitno == 0 && a in code && startins == code[a] && RootOp(startins.op) && !(exists i :: Starts(r0, i, a))
      requires parent != 0 ==> startins.op == JMP && Live(trace, parent) && root == RootOf(trace, parent) && 0 <= exitno < |trace[parent].t.snap| && trace[parent].t.snap[exitno].sidetrace == 0 && !Hopeless(trace, parent, exitno)
      ensures RecOk(orig, code, trace, maxside, Rec(traceno, a, startins, root, parent, exitno))
    {
      if parent == 0 {
        assert PatchAt(orig, stale, code, trace, a);
        forall i {:trigger trace[i]} | Live(trace, i) && trace[i].t.root == 0 ensures trace[i].t.start != a {
          assert !Starts(r0, i, a);
        }
      } else {
        RootLive(trace, maxside, parent);
      }
    }

    /** The counter of the hot instruction at `a` underflowed; only loops and
        functions with a fixed number of arguments are counted. */
    method TraceHot(a: int, setup: Option<TraceError>, rnd: int)
      requires Valid() && a in code && RootOp(code[a].op) && 0 <= rnd < 16
      modifies this`code, this`nojit, this`trace, this`state, this`rec, pen, pen.penalty
      ensures Valid() && Extends(old(trace), trace) && (code == old(code) || code == old(code)[a := old(code)[a].(op := old(code)[a].op + 1)])
      ensures old(state).Record? ==> state.Record? && rec == old(rec) && code == old(code) && trace == old(trace) && pen.Now() == old(pen.Now())
      ensures old(state).Idle? && protoOf(a) in old(nojit) ==> state.Idle? && code == old(code)[a := old(code)[a].(op := old(code)[a].op + 1)]
      ensures old(state).Idle? && state.Record? ==> rec.value.parent == 0 && rec.value.start == a && code == old(code)
      ensures old(state).Idle? ==> (state.Record? <==> RootRecords(old(code), old(nojit), old(trace), a) && setup.None?)
      ensures old(state).Idle? && state.Record? ==> RecOk(orig, code, trace, maxside, rec.value) && nojit == old(nojit)
      ensures HotDone(old(Now()), Now(), a, setup, rnd)
    {
      hide CodeOk, RootsOk, WfCode, PenaltyCache.Valid, RecOk, TreeOk, SetUp, GivenUp;
      if state.Idle? {
        TraceStart(a, 0, 0, setup, rnd);
      }
    }

    /** An exit got hot: starts a side trace, unless the tree is full or the exit
        was tried too often. Setting up a side trace never gives the exit up. */
    method TraceHotSide(a: int, parent: int, exitno: int, setup: Option<TraceError>, rnd: int)
      requires Valid() && 0 <= rnd < 16 && Live(trace, parent) && 0 <= exitno < |trace[parent].t.snap| && trace[parent].t.snap[exitno].sidetrace == 0
      modifies this`code, this`nojit, this`trace, this`state, this`rec, pen, pen.penalty
      ensures Valid() && Extends(old(trace), trace) && code == old(code) && pen.Now() == old(pen.Now())
      ensures old(state).Record? || Hopeless(old(trace), parent, exitno) ==> state == old(state) && rec == old(rec) && trace == old(trace)
      ensures old(state).Idle? && state.Record? ==> rec.value.parent == parent && rec.value.exitno == exitno && rec.value.start == a
      ensures old(state).Idle? ==> (state.Record? <==> protoOf(a) !in old(nojit) && !Full(old(trace)) && !Hopeless(old(trace), parent, exitno) && setup.None?)
      ensures SideDone(old(Now()), Now(), a, parent, exitno, setup, rnd)
    {
      hide CodeOk, RootsOk, WfCode, PenaltyCache.Valid, RecOk, TreeOk, SetUp, GivenUp;
      if state.Record? {
        return;
      }
      RootLive(trace, maxside, parent);
      if trace[RootOf(trace, parent)].t.nchild >= maxside || trace[parent].t.snap[exitno].count >= hotexit + tryside {
        return;
      }
      TraceStart(a, parent, exitno, setup, rnd);
    }

    /** A completed recording with `nsnap` exits, whose end stops at `at`. */
    ghost predicate StopDone(b: Life, a: Life, nsnap: nat, at: int) {
      if !b.state.Record? || b.rec.None? || (b.rec.value.parent != 0 && !Live(b.trace, b.rec.value.parent)) then a == b
      else
        var c := b.rec.value;
        var t := Trace(c.start, c.startins, c.root, c.parent, c.exitno, 0, seq(nsnap, _ => Exit(0, 0)), LinkAt(b.code, at));
        if c.parent == 0 then c.start in b.code && 0 < c.traceno < |b.trace| && a == b.(state := Idle, rec := None, code := Entered(b.code, c.start, c.traceno), trace := b.trace[c.traceno := Used(t)])
        else NewSide(b.trace, maxside, c.traceno, t, c.parent, c.exitno) && a == b.(state := Idle, rec := None, trace := WithSide(b.trace, c.traceno, t, c.parent, c.exitno))
    }

    /** The recording is complete: stores the trace with its `nsnap` exits, and
        patches the start instruction or links the parent's exit. Its end goes on
        in the trace entered at `at`, if that is an entry. If the parent has been
        flushed away meanwhile, the source stops with a panic. */
    method TraceStop(nsnap: int, at: int) returns (ok: bool)
      requires Valid() && state.Record? && nsnap > 0
      modifies this`code, this`trace, this`state, this`rec
      ensures Valid() && (ok <==> old(rec).value.parent == 0 || Live(old(trace), old(rec).value.parent))
      ensures !ok ==> state == old(state) && rec == old(rec) && code == old(code) && trace == old(trace) && Orphaned(trace, rec.value)
      ensures ok ==> state.Idle?
      ensures ok ==> var c := old(rec).value; var t := Trace(c.start, c.startins, c.root, c.parent, c.exitno, 0, seq(nsnap, _ => Exit(0, 0)), LinkAt(old(code), at));
        if c.parent == 0 then c.start in old(code) && 0 < c.traceno < |old(trace)| && code == Entered(old(code), c.start, c.traceno) && trace == old(trace)[c.traceno := Used(t)]
        else code == old(code) && NewSide(old(trace), maxside, c.traceno, t, c.parent, c.exitno) && trace == WithSide(old(trace), c.traceno, t, c.parent, c.exitno)
      ensures StopDone(old(Now()), Now(), nsnap, at)
    {
      hide CodeOk, RootsOk, WfCode, PenaltyCache.Valid, TreeOk, PatchAt;
      var c := rec.value;
      if c.parent != 0 && !Live(trace, c.parent) { return false; }
      ok := true;
      var t := Trace(c.start, c.startins, c.root, c.parent, c.exitno, 0, seq(nsnap, _ => Exit(0, 0)), LinkAt(code, at));
      ghost var r0, code0 := trace, code;
      assert Zeros(t.snap);
      LinkFound(orig, stale, code, trace, at);
      if c.parent == 0 {
        StopRoot(orig, stale, code, trace, maxside, c, t);
        trace := trace[c.traceno := Used(t)];
        var op := c.startins.op;
        if op == FORL {
          var fori := ForiOf(c.start, c.startins);
          HeadOf(orig, c.start);
          KeysSame(orig, stale, code0, r0);
          code := code[fori := code[fori].(op := JFORI)];
        }
        code := code[c.start := code[c.start].(op := op + 2, d := c.traceno % 0x10000)];
      } else {
        StopSide(orig, stale, code, trace, maxside, c, t);
        trace := trace[c.traceno := Used(t)];
        var psnap := trace[c.parent].t.snap;
        trace := trace[c.parent := Used(trace[c.parent].t.(snap := psnap[c.exitno := Exit(SNAPCOUNT_DONE, c.traceno)]))];
        trace := trace[c.root := Used(trace[c.root].t.(nchild := trace[c.root].t.nchild + 1))];
      }
      rec := None;
      state := Idle;
    }

    /** The recording failed. */
    method RecFail(e: TraceError, rnd: int)
      requires Valid() && state.Record? && 0 <= rnd < 16
      modifies this`code, this`nojit, this`trace, this`state, this`rec, pen, pen.penalty
      ensures Valid() && state.Idle? && trace == old(trace)
      ensures var c := old(rec).value; if c.parent != 0 then code == old(code) && pen.Now() == old(pen.Now()) else
        c.start in old(code) && (code == old(code) || code == old(code)[c.start := Blacklisted(old(code)[c.start])])
      ensures var c := old(rec).value; Now() == GivenUp(old(Now()), e, c.startins, c.start, c.parent == 0, rnd)
    {
      var c := rec.value;
      TraceAbort(e, c.startins, c.start, c.parent == 0, rnd);
    }

    /** Everything is flushed; not while a root trace is recorded. */
    ghost predicate FlushDone(b: Life, a: Life) {
      if b.state.Record? && b.rec.Some? && b.rec.value.parent == 0 then a == b
      else a == b.(code := a.code, trace := a.trace) && |a.trace| == |b.trace| && AllFree(a.trace) && OnlyStale(orig, b.stale, a.code) && FlushedTo(orig, b.stale, b.code, a.code, b.trace)
    }

    /** Every trace is dropped; not while one is recorded. */
    ghost predicate DropDone(b: Life, a: Life) {
      if b.state.Record? then a == b
      else a == b.(trace := a.trace, stale := b.stale + Entries(b.code), drops := b.drops + [b.code]) && |a.trace| == |b.trace| && AllFree(a.trace)
    }

    /** Drops every trace and takes all patches of root traces back, stale
        entries excepted. Only an instruction without a root trace in the registry
        stays blacklisted. It may happen while a side trace is recorded, which
        then has lost its parent. */
    method TraceFlushAll()
      requires Valid() && (state.Record? ==> rec.value.parent != 0)
      modifies this`code, this`trace
      ensures Valid() && OnlyStale(orig, stale, code) && |trace| == |old(trace)| && AllFree(trace)
      ensures FlushedTo(orig, stale, old(code), code, old(trace))
    {
      hide RootsOk, WfCode, PenaltyCache.Valid, TreeOk, CodeOk, RecOk, DropsOk, OnlyStale, FlushedTo, ListsRoots;
      SlotZero(trace, maxside);
      RootsNone(trace);
      var revert: seq<(int, Ins)> := [];
      var i := 0;
      while i < |trace|
        invariant 0 <= i <= |trace| && trace == old(trace) && code == old(code) && ListsRoots(revert, trace, i)
      {
        ghost var l := revert;
        if trace[i].Used? && trace[i].t.root == 0 {
          revert := revert + [(trace[i].t.start, trace[i].t.startins)];
        }
        ListNext(l, revert, trace, i);
        i := i + 1;
      }
      ghost var r0, code0 := trace, code;
      RootsList(orig, revert, r0, maxside);
      i := 0;
      while i < |trace|
        invariant 0 <= i <= |trace| == |r0| && forall j {:trigger trace[j]} :: 0 <= j < i ==> trace[j].Free?
        invariant code == code0
      {
        trace := trace[i := Free];
        i := i + 1;
      }
      var k := 0;
      StartReverting(orig, stale, code, r0, revert);
      hide Reverting;
      while k < |revert|
        invariant 0 <= k <= |revert| && AllFree(trace)
        invariant |trace| == |r0| && Reverting(orig, stale, code0, code, r0, revert, k)
      {
        RevertStep(orig, stale, code0, code, r0, revert, k);
        var a, ins := revert[k].0, revert[k].1;
        if ins.op == FORL {
          var fori := ForiOf(a, ins);
          code := code[fori := code[fori].(op := FORI)];
        }
        code := code[a := ins];
        k := k + 1;
      }
      RevertedAll(orig, stale, code0, code, r0, trace, revert);
      Emptied(trace, maxside);
    }

    /** Drops every trace and leaves the bytecode as it is: `jit.flush`, and
        setting a hook. Every entry is stale then. */
    method TraceDrop()
      requires Valid() && state.Idle?
      modifies this`trace, this`stale, this`drops
      ensures Valid() && |trace| == |old(trace)| && AllFree(trace) && drops == old(drops) + [code] && stale == old(stale) + Entries(code)
      ensures (forall a {:trigger code[a]} :: a in code && CompiledOp(code[a].op) ==> Starts(trace, code[a].d, a)) <==> NoEntries(code)
    {
      hide CodeOk, RootsOk, WfCode, PenaltyCache.Valid, TreeOk, NoEntries;
      SlotZero(trace, maxside);
      ghost var r0 := trace;
      var i := 0;
      while i < |trace|
        invariant 0 <= i <= |trace| == |r0| && forall j {:trigger trace[j]} :: 0 <= j < i ==> trace[j].Free?
        invariant stale == old(stale) && drops == old(drops)
      {
        trace := trace[i := Free];
        i := i + 1;
      }
      Dropped(orig, stale, code, r0, trace);
      NoneEntered(orig, stale, code, r0);
      EntriesDead(code, trace);
      Emptied(trace, maxside);
      DropNext(stale, drops, code);
      stale, drops := stale + Entries(code), drops + [code];
    }

    /** A trace that keeps failing: reverts the start of its root trace, and
        blacklists it. The registry keeps the trace. */
    method TraceFlushBlacklist(n: int)
      requires Valid() && 0 <= n < |trace|
      modifies this`code
      ensures Valid() && (trace[n].Free? ==> code == old(code))
      ensures Live(trace, n) ==> Live(trace, RootOf(trace, n)) && var t := trace[RootOf(trace, n)].t; RootOp(t.startins.op) && code == Disabled(old(code), t.start, t.startins)
    {
      hide CodeOk, RootsOk, WfCode, PenaltyCache.Valid, RecOk, TreeOk, DropsOk, StaleOk, LinksOk;
      SlotZero(trace, maxside);
      if trace[n].Free? { return; }
      RootLive(trace, maxside, n);
      var root := RootOf(trace, n);
      RootStartOp(orig, trace, maxside, root);
      RootFresh(orig, stale, code, trace, root);
      var t := trace[root].t;
      ghost var was := code;
      KeysSame(orig, stale, code, trace);
      RevertedOk(orig, stale, code, trace, t.start);
      if t.startins.op == FORL {
        HeadOf(orig, t.start);
        var fori := ForiOf(t.start, t.startins);
        code := code[fori := code[fori].(op := FORI)];
      }
      code := code[t.start := t.startins];
      assert code == Reverted(was, t.start, t.startins);
      BlacklistedOk(orig, stale, code, trace, t.start);
      assert Starts(trace, root, t.start);
      RecElsewhere(orig, stale, was, trace, maxside, t.start, t.startins, rec);
      BlacklistPc(t.start);
      assert code == Disabled(was, t.start, t.startins);
    }

    /** An exit is left: counted, and perhaps recorded or its trace disabled. */
    ghost predicate ExitDone(b: Life, a: Life, n: int, x: int, at: int, setup: Option<TraceError>, rnd: int) {
      if !(Live(b.trace, n) && 0 <= x < |b.trace[n].t.snap|) || Onwards(b.trace[n].t, x) != 0 || b.trace[n].t.snap[x].count == SNAPCOUNT_DONE then a == b
      else
        var c := b.trace[n].t.snap[x].count + 1;
        var b1 := b.(trace := Counted(b.trace, n, x, c));
        if c < hotexit then a == b1
        else if c <= hotexit + tryside then SideDone(b1, a, at, n, x, setup, rnd)
        else if x + 1 < |b.trace[n].t.snap| then a == b1.(code := Disabled(b.code, RootOfTree(b.trace, n).start, RootOfTree(b.trace, n).startins))
        else a == b1
    }

    /** Leaving trace `n` by exit `x`: a linked exit goes on in its side trace,
        the end of a trace linked to a root trace in that one. Any other is
        counted. A hot one starts a side trace, from `a`; one that stays hot
        disables the trace. */
    method TakeExit(n: int, x: int, a: int, setup: Option<TraceError>, rnd: int) returns (next: int)
      requires Valid() && Live(trace, n) && 0 <= x < |trace[n].t.snap| && 0 <= rnd < 16
      modifies this`code, this`nojit, this`trace, this`state, this`rec, pen, pen.penalty
      ensures Valid() && next == Onwards(old(trace)[n].t, x)
      ensures next != 0 ==> trace == old(trace) && code == old(code) && state == old(state) && (stale == {} || trace[n].t.snap[x].sidetrace != 0 ==> Live(trace, next))
      ensures next == 0 ==> var c := old(trace)[n].t.snap[x].count; var c2 := if c == SNAPCOUNT_DONE then c else c + 1;
        && c2 <= SNAPCOUNT_DONE && Extends(Counted(old(trace), n, x, c2), trace)
        && (old(state).Idle? && state.Record? ==> rec.value.parent == n && rec.value.exitno == x && rec.value.start == a)
        && code == (if c != SNAPCOUNT_DONE && c2 > hotexit + tryside && x + 1 < |old(trace)[n].t.snap| then Disabled(old(code), RootOfTree(old(trace), n).start, RootOfTree(old(trace), n).startins) else old(code))
      ensures old(state).Idle? ==> var c := old(trace)[n].t.snap[x].count;
        state.Record? <==>
          && next == 0 && c != SNAPCOUNT_DONE && hotexit <= c + 1 <= hotexit + tryside && setup.None? && protoOf(a) !in old(nojit)
          && !Full(Counted(old(trace), n, x, c + 1)) && !Hopeless(Counted(old(trace), n, x, c + 1), n, x)
      ensures old(state).Record? ==> state == old(state) && rec == old(rec)
      ensures ExitDone(old(Now()), Now(), n, x, a, setup, rnd)
    {
      hide CodeOk, RootsOk, WfCode, PenaltyCache.Valid, TreeOk, RecOk, SetUp, GivenUp, Disabled;
      ExitFacts(trace, maxside, n, x);
      next := trace[n].t.snap[x].sidetrace;
      if next != 0 {
        return;
      }
      if x + 1 == |trace[n].t.snap| && trace[n].t.link != 0 {
        LinkLive(orig, stale, code, trace, n);
        next := trace[n].t.link;
        return;
      }
      var final, count := x + 1 >= |trace[n].t.snap|, trace[n].t.snap[x].count;
      CountedSame(trace, n, x);
      if count != SNAPCOUNT_DONE {
        count := (count + 1) % 0x100;
        CountedKeeps(orig, stale, code, trace, maxside, n, x, count);
        CountedRec(orig, code, trace, maxside, n, x, count, rec);
        trace := trace[n := Used(trace[n].t.(snap := trace[n].t.snap[x := trace[n].t.snap[x].(count := count)]))];
        if count >= hotexit {
          if count > hotexit + tryside && !final {
            TraceFlushBlacklist(n);
          } else if count <= hotexit + tryside {
            TraceHotSide(a, n, x, setup, rnd);
          }
        }
      }
    }

    /** What an event does. */
    ghost predicate Happens(e: Occurrence, b: Life, a: Life) {
      match e
      case Hot(at, setup, rnd) => HotDone(b, a, at, setup, rnd % 16)
      case Leave(n, x, at, setup, rnd) => ExitDone(b, a, n, x, at, setup, rnd % 16)
      case Complete(nsnap, at) => StopDone(b, a, nsnap + 1, at)
      case Failed(err, rnd) => if b.state.Record? && b.rec.Some? then var c := b.rec.value; a == GivenUp(b, err, c.startins, c.start, c.parent == 0, rnd % 16) else a == b
      case FlushAll => FlushDone(b, a)
      case DropAll => DropDone(b, a)
    }

    /** Each event happens, from the state before it to the one behind it. */
    ghost predicate History(events: seq<Occurrence>, h: seq<Life>) {
      0 < |h| <= |events| + 1 && forall i {:trigger h[i]} :: 0 <= i < |h| - 1 ==> Happens(events[i], h[i], h[i + 1])
    }

    lemma HistoryStart(events: seq<Occurrence>, x: Life)
      ensures History(events, [x])
    {
    }

    lemma HistoryMore(events: seq<Occurrence>, h: seq<Life>, x: Life)
      requires History(events, h) && |h| <= |events| && Happens(events[|h| - 1], h[|h| - 1], x)
      ensures History(events, h + [x])
    {
      hide Happens;
    }

    /** Runs a sequence of events, up to the end of a recording that has lost its
        parent, where the program stops. What cannot happen in the state at hand
        is skipped: the end of a recording without one; and with a recording,
        dropping the traces, or in a root recording flushing them, as the
        recorder gives up before it executes what does that. */
    method RunAll(events: seq<Occurrence>) returns (n: nat, ghost h: seq<Life>)
      requires Valid()
      modifies this, pen, pen.penalty
      ensures Valid() && n <= |events| && |h| == n + 1 && h[0] == old(Now()) && h[n] == Now() && History(events, h)
      ensures n < |events| ==> events[n].Complete? && state.Record? && Orphaned(trace, rec.value)
      ensures code.Keys == orig.Keys && forall a {:trigger code[a]} :: a in code ==> AsCompiled(orig, stale, code, trace, a)
      ensures old(drops) <= drops && (stale == {} <==> forall k {:trigger drops[k]} :: 0 <= k < |drops| ==> NoEntries(drops[k]))
      ensures (forall i {:trigger events[i]} :: 0 <= i < n ==> !events[i].DropAll?) ==> stale == old(stale) && drops == old(drops)
      ensures forall i {:trigger trace[i]} :: Live(trace, i) && trace[i].t.root == 0 ==> trace[i].t.nchild == Sum(trace, KidOf(i)) <= maxside
      ensures Sum(trace, SideOf()) == Sum(trace, ExitsOf())
      ensures old(code).Keys == orig.Keys && ((forall i {:trigger events[i]} :: 0 <= i < n ==> !events[i].FlushAll?) ==> UncountedKept(orig, old(code), code))
    {
      hide CodeOk, RootsOk, WfCode, PenaltyCache.Valid, TreeOk, RecOk, UncountedKept, Happens, History;
      n, h := 0, [Now()];
      HistoryStart(events, Now());
      KeysSame(orig, stale, code, trace);
      UncountedSelf(orig, code);
      while n < |events|
        invariant 0 <= n <= |events| && Valid() && old(code).Keys == code.Keys == orig.Keys && old(drops) <= drops
        invariant |h| == n + 1 && h[0] == old(Now()) && h[n] == Now() && History(events, h)
        invariant (forall i {:trigger events[i]} :: 0 <= i < n ==> !events[i].FlushAll?) ==> UncountedKept(orig, old(code), code)
        invariant (forall i {:trigger events[i]} :: 0 <= i < n ==> !events[i].DropAll?) ==> stale == old(stale) && drops == old(drops)
      {
        ghost var was := code;
        var ok := Occurs(events[n]);
        if !ok { break; }
        HistoryMore(events, h, Now());
        h := h + [Now()];
        if !events[n].FlushAll? { UncountedAll(orig, old(code), was, code); }
        n := n + 1;
      }
      Transparent(orig, stale, code, trace);
      ChildrenCounted(trace, maxside);
    }

    method Occurs(e: Occurrence) returns (ok: bool)
      requires Valid()
      modifies this, pen, pen.penalty
      ensures Valid() && old(code).Keys == code.Keys == orig.Keys && (e.FlushAll? || UncountedKept(orig, old(code), code))
      ensures old(drops) <= drops && (!e.DropAll? ==> drops == old(drops) && stale == old(stale))
      ensures !ok ==> e.Complete? && state.Record? && Orphaned(trace, rec.value) && Now() == old(Now())
      ensures Happens(e, old(Now()), Now())
    {
      hide CodeOk, RootsOk, WfCode, PenaltyCache.Valid, TreeOk, UncountedKept, SetUp, GivenUp, SideDone, FlushedTo, OnlyStale, WithSide, NewSide, After, Blacklists;
      ghost var was, r0 := code, trace;
      ok := true;
      KeysSame(orig, stale, code, trace);
      UncountedSelf(orig, code);
      match e
      case Hot(a, setup, rnd) =>
        if a in code && RootOp(code[a].op) {
          TraceHot(a, setup, rnd % 16);
          HotChanged(orig, stale, was, r0, a, was[a].(op := was[a].op + 1));
        }
      case Leave(n, x, a, setup, rnd) =>
        if Live(trace, n) && 0 <= x < |trace[n].t.snap| {
          RootLive(trace, maxside, n);
          RootStartOp(orig, trace, maxside, RootOf(trace, n));
          RootFresh(orig, stale, code, trace, RootOf(trace, n));
          DisabledKeeps(orig, stale, was, r0, RootOfTree(trace, n).start);
          var _ := TakeExit(n, x, a, setup, rnd % 16);
        }
      case Complete(nsnap, at) =>
        if state.Record? {
          if rec.value.parent == 0 { RecStarts(orig, code, trace, maxside, rec.value); EnteredKeeps(orig, stale, was, r0, rec.value.start, rec.value.traceno); }
          ok := TraceStop(nsnap + 1, at);
        }
      case Failed(err, rnd) =>
        if state.Record? {
          if rec.value.parent == 0 { RecStarts(orig, code, trace, maxside, rec.value); HotChanged(orig, stale, was, r0, rec.value.start, Blacklisted(was[rec.value.start])); }
          RecFail(err, rnd % 16);
        }
      case FlushAll =>
        if state.Idle? || rec.value.parent != 0 {
          TraceFlushAll();
          KeysSame(orig, stale, code, trace);
        }
      case DropAll =>
        if state.Idle? {
          TraceDrop();
        }
    }
  }

  lemma NotCompiled(op: int)
    requires HotOp(op)
    ensures !CompiledOp(op)
  {
  }

  /** The same root traces, and every trace links to the same one as before. */
  ghost predicate SameRoots(r: seq<Slot>, r2: seq<Slot>) {
    && |r| <= |r2|
    && (forall i {:trigger r[i]} {:trigger r2[i]} :: 0 < i < |r| && r[i].Used? ==> r2[i].Used? && r2[i].t == r[i].t.(snap := r2[i].t.snap, nchild := r2[i].t.nchild))
    && (forall i {:trigger r2[i]} :: Live(r2, i) && !Live(r, i) ==> r2[i].t.root != 0)
  }

  lemma RootsSame(orig: Code, z: set<int>, code: Code, r: seq<Slot>, r2: seq<Slot>)
    requires CodeOk(orig, z, code, r) && RootsOk(orig, r) && SameRoots(r, r2)
    requires z == {} ==> forall i {:trigger r2[i]} :: Live(r2, i) && !Live(r, i) && r2[i].t.link != 0 ==> Live(r, r2[i].t.link) && r[r2[i].t.link].t.root == 0
    ensures CodeOk(orig, z, code, r2) && RootsOk(orig, r2)
  {
    forall i {:trigger r2[i]} | Live(r2, i) && r2[i].t.root == 0
      ensures Live(r, i) && r[i].t.root == 0 && r2[i].t.start == r[i].t.start && r2[i].t.startins == r[i].t.startins
    {
      if Live(r, i) { assert r[i].Used?; }
    }
    LinksSame(z, r, r2);
    hide LinksOk;
    forall a | a in orig
      ensures PatchAt(orig, z, code, r2, a)
    {
      assert PatchAt(orig, z, code, r, a);
    }
  }

  lemma LinksSame(z: set<int>, r: seq<Slot>, r2: seq<Slot>)
    requires LinksOk(z, r) && SameRoots(r, r2)
    requires z == {} ==> forall i {:trigger r2[i]} :: Live(r2, i) && !Live(r, i) && r2[i].t.link != 0 ==> Live(r, r2[i].t.link) && r[r2[i].t.link].t.root == 0
    ensures LinksOk(z, r2)
  {
    if z == {} {
      forall i {:trigger r2[i]} | Live(r2, i) && r2[i].t.link != 0
        ensures Live(r2, r2[i].t.link) && r2[r2[i].t.link].t.root == 0
      {
        if Live(r, i) { assert r[i].t.link == r2[i].t.link; }
        assert r[r2[i].t.link].Used?;
      }
    }
  }

  lemma CodeGrown(orig: Code, z: set<int>, code: Code, r: seq<Slot>)
    requires CodeOk(orig, z, code, r) && RootsOk(orig, r)
    ensures CodeOk(orig, z, code, r + [Free]) && RootsOk(orig, r + [Free])
  {
    hide CodeOk, RootsOk;
    RootsSame(orig, z, code, r, r + [Free]);
  }

  /** At most a free slot was added. */
  predicate Extends(r: seq<Slot>, r2: seq<Slot>) { r2 == r || r2 == r + [Free] }

  function Counted(r: seq<Slot>, p: int, x: int, c: int): seq<Slot>
    requires Live(r, p) && 0 <= x < |r[p].t.snap|
  { r[p := Used(r[p].t.(snap := r[p].t.snap[x := Exit(c, r[p].t.snap[x].sidetrace)]))] }

  lemma CountedKeeps(orig: Code, z: set<int>, code: Code, r: seq<Slot>, maxside: int, p: int, x: int, c: int)
    requires CodeOk(orig, z, code, r) && RootsOk(orig, r) && TreeOk(r, maxside) && Live(r, p) && 0 <= x < |r[p].t.snap| && r[p].t.snap[x].sidetrace == 0 && 0 <= c <= SNAPCOUNT_DONE
    ensures var r2 := Counted(r, p, x, c); CodeOk(orig, z, code, r2) && RootsOk(orig, r2) && TreeOk(r2, maxside)
  {
    ExitCounted(r, maxside, p, x, c);
    hide TreeOk, CodeOk, RootsOk;
    RootsSame(orig, z, code, r, Counted(r, p, x, c));
  }

  lemma RecStarts(orig: Code, code: Code, r: seq<Slot>, maxside: int, c: Rec)
    requires RecOk(orig, code, r, maxside, c) && c.parent == 0
    ensures c.start in orig && c.start in code && code[c.start] == orig[c.start] && RootOp(orig[c.start].op)
  {
  }

  lemma UncountedSelf(orig: Code, code: Code)
    requires code.Keys == orig.Keys
    ensures UncountedKept(orig, code, code)
  {
  }

  /** The end of a trace that stops at a compiled loop goes on in its trace. */
  function LinkAt(code: Code, at: int): int { if at in code && CompiledOp(code[at].op) then code[at].d else 0 }

  /** Where an exit goes on: in its side trace, or at the end of the trace in the
      one it is linked to; 0 if it returns to the interpreter. */
  function Onwards(t: Trace, x: int): int
    requires 0 <= x < |t.snap|
  { if t.snap[x].sidetrace != 0 then t.snap[x].sidetrace else if x + 1 == |t.snap| then t.link else 0 }

  lemma LinkFound(orig: Code, z: set<int>, code: Code, r: seq<Slot>, at: int)
    requires WfCode(orig) && CodeOk(orig, z, code, r)
    ensures var l := LinkAt(code, at);
      z == {} && l != 0 ==> Live(r, l) && r[l].t.root == 0
  {
    if at in code { assert PatchAt(orig, z, code, r, at); }
  }

  lemma LinkLive(orig: Code, z: set<int>, code: Code, r: seq<Slot>, n: int)
    requires CodeOk(orig, z, code, r) && Live(r, n)
    ensures z == {} && r[n].t.link != 0 ==> Live(r, r[n].t.link)
  {
  }

  /** No entry leads into an empty registry. */
  lemma EntriesDead(code: Code, r: seq<Slot>)
    requires AllFree(r) && (NoEntries(code) <==> Entries(code) == {})
    ensures (forall a {:trigger code[a]} :: a in code && CompiledOp(code[a].op) ==> Starts(r, code[a].d, a)) <==> NoEntries(code)
  {
    hide NoEntries;
    EntriesEmpty(code);
    assert forall a {:trigger code[a]} :: a in code && CompiledOp(code[a].op) ==> !Starts(r, code[a].d, a);
  }

  lemma RootFresh(orig: Code, z: set<int>, code: Code, r: seq<Slot>, i: int)
    requires CodeOk(orig, z, code, r) && Live(r, i) && r[i].t.root == 0
    ensures r[i].t.start !in z
  {
  }

  lemma UncountedAll(orig: Code, a: Code, b: Code, c: Code)
    requires a.Keys == b.Keys == c.Keys == orig.Keys && UncountedKept(orig, b, c)
    ensures UncountedKept(orig, a, b) ==> UncountedKept(orig, a, c)
  {
    if UncountedKept(orig, a, b) {
      forall x | x in orig && UncountedAt(orig, a, x) ensures c[x] == a[x] { assert UncountedAt(orig, b, x); }
    }
  }

  ghost predicate Zeros(snap: seq<Exit>) { snap != [] && forall x {:trigger snap[x]} :: 0 <= x < |snap| ==> snap[x] == Exit(0, 0) }

  lemma HeadOf(orig: Code, a: int)
    requires WfCode(orig) && a in orig && orig[a].op == FORL
    ensures ForiOf(a, orig[a]) in orig && ForiOf(a, orig[a]) != a
  {
  }

  lemma KeysSame(orig: Code, z: set<int>, code: Code, r: seq<Slot>)
    requires CodeOk(orig, z, code, r)
    ensures code.Keys == orig.Keys
  {
  }

  lemma StopRoot(orig: Code, z: set<int>, code: Code, r: seq<Slot>, maxside: int, c: Rec, t: Trace)
    requires WfCode(orig) && CodeOk(orig, z, code, r) && RootsOk(orig, r) && TreeOk(r, maxside) && RecOk(orig, code, r, maxside, c) && c.parent == 0 && 0 <= maxside
    requires t.start == c.start && t.startins == c.startins && t.root == 0 && t.parent == 0 && t.nchild == 0 && Zeros(t.snap)
    requires z == {} && t.link != 0 ==> Live(r, t.link) && r[t.link].t.root == 0
    ensures c.start in code && 0 < c.traceno < |r|
    ensures var r2 := r[c.traceno := Used(t)]; CodeOk(orig, z, Entered(code, c.start, c.traceno), r2) && RootsOk(orig, r2) && TreeOk(r2, maxside)
  {
    RootAdded(r, maxside, c.traceno, t);
    hide TreeOk;
    EnteredOk(orig, z, code, r, c.start, c.traceno, t);
    var r2 := r[c.traceno := Used(t)];
    forall i {:trigger r2[i]} | Live(r2, i) && r2[i].t.root == 0 ensures r2[i].t.start in orig && r2[i].t.startins == orig[r2[i].t.start] {
      if i != c.traceno { assert r2[i] == r[i]; }
    }
  }

  lemma StopSide(orig: Code, z: set<int>, code: Code, r: seq<Slot>, maxside: int, c: Rec, t: Trace)
    requires CodeOk(orig, z, code, r) && RootsOk(orig, r) && TreeOk(r, maxside) && RecOk(orig, code, r, maxside, c) && c.parent != 0
    requires t.startins == c.startins && t.root == c.root && t.parent == c.parent && t.exitno == c.exitno && t.nchild == 0 && Zeros(t.snap)
    requires z == {} && t.link != 0 ==> Live(r, t.link) && r[t.link].t.root == 0
    ensures NewSide(r, maxside, c.traceno, t, c.parent, c.exitno)
    ensures var r2 := WithSide(r, c.traceno, t, c.parent, c.exitno); CodeOk(orig, z, code, r2) && RootsOk(orig, r2) && TreeOk(r2, maxside)
  {
    SideAdded(r, maxside, c.traceno, t, c.parent, c.exitno);
    RootLive(r, maxside, c.parent);
    hide TreeOk, CodeOk, RootsOk;
    RootsSame(orig, z, code, r, WithSide(r, c.traceno, t, c.parent, c.exitno));
  }

  // -- Flushing ------------------------------------------------------------------------

  ghost predicate RootStart(r: seq<Slot>, a: int) { exists i :: Starts(r, i, a) }

  ghost predicate Listed(l: seq<(int, Ins)>, a: int, n: int)
    requires 0 <= n <= |l|
  { exists k {:trigger l[k]} :: 0 <= k < n && l[k].0 == a }

  predicate IsRoot(r: seq<Slot>, i: int, a: int, ins: Ins) { Starts(r, i, a) && r[i].t.startins == ins }

  ghost predicate FromRoot(r: seq<Slot>, n: int, a: int, ins: Ins) { exists i :: i < n && IsRoot(r, i, a, ins) }

  /** The list of the first `n` slots' root traces. */
  ghost predicate ListsRoots(l: seq<(int, Ins)>, r: seq<Slot>, n: int) {
    && (forall k {:trigger l[k]} :: 0 <= k < |l| ==> FromRoot(r, n, l[k].0, l[k].1))
    && (forall i {:trigger r[i]} :: 0 <= i < n && Live(r, i) && r[i].t.root == 0 ==> Listed(l, r[i].t.start, |l|))
  }

  lemma RootsNone(r: seq<Slot>)
    ensures ListsRoots([], r, 0)
  {
  }

  lemma ListNext(l: seq<(int, Ins)>, l2: seq<(int, Ins)>, r: seq<Slot>, n: int)
    requires 0 <= n < |r| && r[0].Free? && ListsRoots(l, r, n)
    requires l2 == if r[n].Used? && r[n].t.root == 0 then l + [(r[n].t.start, r[n].t.startins)] else l
    ensures ListsRoots(l2, r, n + 1)
  {
    forall k | 0 <= k < |l2| ensures FromRoot(r, n + 1, l2[k].0, l2[k].1) {
      if k < |l| {
        assert l2[k] == l[k];
      } else {
        assert IsRoot(r, n, l2[k].0, l2[k].1);
      }
    }
    forall i | 0 <= i < n + 1 && Live(r, i) && r[i].t.root == 0 ensures Listed(l2, r[i].t.start, |l2|) {
      if i < n {
        var k :| 0 <= k < |l| && l[k].0 == r[i].t.start;
        assert l2[k] == l[k];
      } else {
        assert l2[|l|].0 == r[n].t.start;
      }
    }
  }

  /** What the registry says of the listed instructions. */
  ghost predicate ListOk(orig: Code, l: seq<(int, Ins)>, r: seq<Slot>) {
    && (forall k {:trigger l[k]} :: 0 <= k < |l| ==> l[k].0 in orig && l[k].1 == orig[l[k].0] && RootOp(l[k].1.op) && RootStart(r, l[k].0))
    && (forall i {:trigger r[i]} :: Live(r, i) && r[i].t.root == 0 ==> Listed(l, r[i].t.start, |l|))
  }

  lemma RootsList(orig: Code, l: seq<(int, Ins)>, r: seq<Slot>, maxside: int)
    requires ListsRoots(l, r, |r|) && RootsOk(orig, r) && TreeOk(r, maxside)
    ensures ListOk(orig, l, r)
  {
    forall i {:trigger r[i]} | Live(r, i) && r[i].t.root == 0 ensures Listed(l, r[i].t.start, |l|) { }
    forall k | 0 <= k < |l| ensures l[k].0 in orig && l[k].1 == orig[l[k].0] && RootOp(l[k].1.op) && RootStart(r, l[k].0) {
      var i :| i < |r| && IsRoot(r, i, l[k].0, l[k].1);
      assert TraceOk(r, maxside, i);
      assert Starts(r, i, l[k].0);
    }
  }

  /** The first `k` listed instructions are reverted, and the loop heads of
      listed loops; nothing else has changed. */
  ghost predicate Reverting(orig: Code, z: set<int>, code0: Code, code: Code, r: seq<Slot>, l: seq<(int, Ins)>, k: int) {
    && 0 <= k <= |l| && ListOk(orig, l, r) && code0.Keys == code.Keys == orig.Keys && CodeOk(orig, z, code0, r) && CodeOk(orig, z, code, r)
    && (forall j {:trigger l[j]} :: 0 <= j < k ==> code[l[j].0] == orig[l[j].0])
    && (forall b {:trigger code[b]} :: b in orig ==> code[b] == orig[b] || code[b] == code0[b])
    && (forall b {:trigger code[b]} :: b in orig && code0[b].op != JFORI && !Listed(l, b, k) ==> code[b] == code0[b])
  }

  lemma StartReverting(orig: Code, z: set<int>, code: Code, r: seq<Slot>, l: seq<(int, Ins)>)
    requires ListOk(orig, l, r) && CodeOk(orig, z, code, r)
    ensures Reverting(orig, z, code, code, r, l, 0)
  {
  }

  lemma RevertStep(orig: Code, z: set<int>, code0: Code, code: Code, r: seq<Slot>, l: seq<(int, Ins)>, k: int)
    requires WfCode(orig) && Reverting(orig, z, code0, code, r, l, k) && k < |l|
    ensures var a, i := l[k].0, l[k].1;
      && a in code && (i.op == FORL ==> ForiOf(a, i) in code)
      && Reverting(orig, z, code0, Reverted(code, a, i), r, l, k + 1)
  {
    var a, i := l[k].0, l[k].1;
    RevertedOk(orig, z, code, r, a);
    hide PairAt, StaleOk, LinksOk;
    var c2 := Reverted(code, a, i);
    if i.op == FORL { assert PatchAt(orig, z, code, r, ForiOf(a, i)); }
    forall b | b in orig && code0[b].op != JFORI && !Listed(l, b, k + 1) ensures c2[b] == code0[b] {
      assert l[k].0 != b;
      assert !Listed(l, b, k);
    }
  }

  /** What a full flush makes of the code. */
  ghost predicate FlushedTo(orig: Code, z: set<int>, code0: Code, code: Code, r: seq<Slot>) {
    code.Keys == code0.Keys == orig.Keys && forall a {:trigger code[a]} :: a in code ==>
      code[a] == if RootStart(r, a) || (code0[a].op == JFORI && a + JumpOf(code0[a]) !in z) then orig[a] else code0[a]
  }

  lemma RevertedAll(orig: Code, z: set<int>, code0: Code, code: Code, r: seq<Slot>, r2: seq<Slot>, l: seq<(int, Ins)>)
    requires WfCode(orig) && RootsOk(orig, r) && Reverting(orig, z, code0, code, r, l, |l|) && AllFree(r2)
    ensures OnlyStale(orig, z, code) && CodeOk(orig, z, code, r2) && RootsOk(orig, r2) && FlushedTo(orig, z, code0, code, r)
  {
    hide CodeOk, OnlyStale, FlushedTo, Reverting;
    RootsBack(orig, z, code0, code, r, l);
    Flushed(orig, z, code, r, r2);
    RevertedCode(orig, z, code0, code, r, l);
  }

  /** Root traces start at instructions that are as compiled. */
  ghost predicate BackAt(orig: Code, code: Code, r: seq<Slot>) {
    forall i {:trigger r[i]} :: Live(r, i) && r[i].t.root == 0 ==> r[i].t.start in code && r[i].t.start in orig && code[r[i].t.start] == orig[r[i].t.start]
  }

  lemma RevertedCode(orig: Code, z: set<int>, code0: Code, code: Code, r: seq<Slot>, l: seq<(int, Ins)>)
    requires WfCode(orig) && Reverting(orig, z, code0, code, r, l, |l|) && OnlyStale(orig, z, code) && BackAt(orig, code, r) && code.Keys == code0.Keys == orig.Keys
    ensures FlushedTo(orig, z, code0, code, r)
  {
    hide WfCode, CodeOk, OnlyStale, RootStart, BackAt, Reverting;
    forall a {:trigger code[a]} | a in code
      ensures code[a] == if RootStart(r, a) || (code0[a].op == JFORI && a + JumpOf(code0[a]) !in z) then orig[a] else code0[a]
    {
      RevertedAt(orig, z, code0, code, r, l, a);
    }
  }

  /** Every root trace's start is as compiled. */
  lemma RootsBack(orig: Code, z: set<int>, code0: Code, code: Code, r: seq<Slot>, l: seq<(int, Ins)>)
    requires RootsOk(orig, r) && Reverting(orig, z, code0, code, r, l, |l|)
    ensures CodeOk(orig, z, code, r) && code0.Keys == code.Keys == orig.Keys
    ensures BackAt(orig, code, r)
  {
    hide CodeOk;
    forall i {:trigger r[i]} | Live(r, i) && r[i].t.root == 0
      ensures code[r[i].t.start] == orig[r[i].t.start]
    {
      assert Listed(l, r[i].t.start, |l|);
    }
  }

  lemma RevertedAt(orig: Code, z: set<int>, code0: Code, code: Code, r: seq<Slot>, l: seq<(int, Ins)>, a: int)
    requires WfCode(orig) && Reverting(orig, z, code0, code, r, l, |l|) && OnlyStale(orig, z, code) && a in orig
    requires BackAt(orig, code, r) && a in code && a in code0
    ensures code[a] == if RootStart(r, a) || (code0[a].op == JFORI && a + JumpOf(code0[a]) !in z) then orig[a] else code0[a]
  {
    if RootStart(r, a) {
      var i :| Starts(r, i, a);
      assert r[i].t.start == a;
    } else if code0[a].op == JFORI {
      assert code[a] == orig[a] || code[a] == code0[a];
      assert PatchAt(orig, z, code0, r, a) && PairAt(orig, code0, a);
    } else {
      ListedRoot(orig, l, r, a);
    }
  }

  lemma ListedRoot(orig: Code, l: seq<(int, Ins)>, r: seq<Slot>, a: int)
    requires ListOk(orig, l, r)
    ensures Listed(l, a, |l|) ==> RootStart(r, a)
  {
  }

  lemma SlotZero(r: seq<Slot>, maxside: int)
    requires TreeOk(r, maxside)
    ensures r != [] && r[0].Free?
  {
  }

  /** What can happen: an instruction gets hot, a trace is left, the recording is
      completed or fails, all traces are flushed, or dropped without taking their
      patches back. */
  datatype Occurrence =
    | Hot(a: int, setup: Option<TraceError>, rnd: nat)
    | Leave(n: int, x: int, a: int, setup: Option<TraceError>, rnd: nat)
    | Complete(nsnap: nat, at: int)
    | Failed(err: TraceError, rnd: nat)
    | FlushAll
    | DropAll

  /** A root trace disabled: reverted, and its start does not count any more. */
  function Disabled(code: Code, a: int, i: Ins): Code { Reverted(code, a, i)[a := i.(op := i.op + 1)] }

  function RootOfTree(r: seq<Slot>, n: int): Trace
    requires Live(r, n)
  { if Live(r, RootOf(r, n)) then r[RootOf(r, n)].t else r[n].t }

  lemma RootStartOp(orig: Code, r: seq<Slot>, maxside: int, i: int)
    requires RootsOk(orig, r) && TreeOk(r, maxside) && Live(r, i) && r[i].t.root == 0
    ensures r[i].t.start in orig && r[i].t.startins == orig[r[i].t.start] && RootOp(r[i].t.startins.op)
  {
    assert TraceOk(r, maxside, i);
  }

  /** Disabling a trace leaves the start of a recording alone. */
  lemma RecElsewhere(orig: Code, z: set<int>, code: Code, r: seq<Slot>, maxside: int, a: int, i: Ins, rec: Option<Rec>)
    requires WfCode(orig) && CodeOk(orig, z, code, r) && RootStart(r, a) && a in orig && i == orig[a] && RootOp(i.op)
    ensures rec.Some? && RecOk(orig, code, r, maxside, rec.value) ==> RecOk(orig, Disabled(code, a, i), r, maxside, rec.value)
  {
    if rec.Some? && RecOk(orig, code, r, maxside, rec.value) && rec.value.parent == 0 {
      var j :| Starts(r, j, a);
      assert r[j].t.start != rec.value.start;
    }
  }

  lemma CountedSame(r: seq<Slot>, p: int, x: int)
    requires Live(r, p) && 0 <= x < |r[p].t.snap|
    ensures Counted(r, p, x, r[p].t.snap[x].count) == r
  {
    var t := r[p].t;
    assert t.snap[x := Exit(t.snap[x].count, t.snap[x].sidetrace)] == t.snap;
  }

  lemma ExitFacts(r: seq<Slot>, maxside: int, n: int, x: int)
    requires TreeOk(r, maxside) && Live(r, n) && 0 <= x < |r[n].t.snap|
    ensures 0 <= r[n].t.snap[x].count <= SNAPCOUNT_DONE && Live(r, RootOf(r, n))
    ensures r[n].t.snap[x].sidetrace != 0 ==> Live(r, r[n].t.snap[x].sidetrace)
  {
    assert TraceOk(r, maxside, n) && ExitOk(r, n, x);
    RootLive(r, maxside, n);
  }

  lemma CountedRec(orig: Code, code: Code, r: seq<Slot>, maxside: int, p: int, x: int, c: int, rec: Option<Rec>)
    requires Live(r, p) && 0 <= x < |r[p].t.snap|
    ensures rec.Some? && RecOk(orig, code, r, maxside, rec.value) ==> RecOk(orig, code, Counted(r, p, x, c), maxside, rec.value)
  {
    if rec.Some? && RecOk(orig, code, r, maxside, rec.value) {
      var r2 := Counted(r, p, x, c);
      forall i {:trigger r2[i]} | 0 < i < |r2| ensures r2[i].Used? <==> i < rec.value.traceno { assert r[i].Used? <==> i < rec.value.traceno; }
      if rec.value.parent == 0 {
        forall i {:trigger r2[i]} | Live(r2, i) && r2[i].t.root == 0 ensures r2[i].t.start != rec.value.start { assert Live(r, i) && r[i].t.root == 0; }
      }
    }
  }

  lemma ChildrenCounted(r: seq<Slot>, maxside: int)
    requires TreeOk(r, maxside)
    ensures forall i {:trigger r[i]} :: Live(r, i) && r[i].t.root == 0 ==> r[i].t.nchild == Sum(r, KidOf(i)) <= maxside
    ensures Sum(r, SideOf()) == Sum(r, ExitsOf())
  {
    hide Sum;
    forall i {:trigger r[i]} | Live(r, i) && r[i].t.root == 0 ensures r[i].t.nchild == Sum(r, KidOf(i)) <= maxside {
      assert TraceOk(r, maxside, i);
    }
  }

  /** Every instruction that does not count any more is as it was. */
  ghost predicate UncountedKept(orig: Code, code: Code, code2: Code)
    requires code.Keys == code2.Keys == orig.Keys
  {
    forall a {:trigger UncountedAt(orig, code, a)} :: a in orig && UncountedAt(orig, code, a) ==> code2[a] == code[a]
  }

  predicate UncountedAt(orig: Code, code: Code, a: int)
    requires a in orig && a in code
  { HotOp(orig[a].op) && code[a].op == orig[a].op + 1 }

  lemma UncountedIs(orig: Code, z: set<int>, code: Code, r: seq<Slot>, a: int)
    requires WfCode(orig) && CodeOk(orig, z, code, r) && a in orig
    ensures UncountedAt(orig, code, a) ==> code[a] == orig[a].(op := orig[a].op + 1) && !HotOp(code[a].op)
  {
    assert PatchAt(orig, z, code, r, a);
  }

  /** Changing a counting instruction, entering a trace and disabling one leave
      all others that do not count alone. */
  lemma HotChanged(orig: Code, z: set<int>, code: Code, r: seq<Slot>, a: int, i: Ins)
    requires WfCode(orig) && CodeOk(orig, z, code, r) && a in code && HotOp(code[a].op)
    ensures UncountedKept(orig, code, code[a := i])
  {
    forall b | b in orig && UncountedAt(orig, code, b) ensures code[a := i][b] == code[b] { UncountedIs(orig, z, code, r, b); }
  }

  lemma EnteredKeeps(orig: Code, z: set<int>, code: Code, r: seq<Slot>, a: int, n: int)
    requires WfCode(orig) && CodeOk(orig, z, code, r) && a in code && code[a] == orig[a] && RootOp(orig[a].op)
    ensures Entered(code, a, n).Keys == code.Keys && UncountedKept(orig, code, Entered(code, a, n))
  {
    forall b | b in orig && UncountedAt(orig, code, b) ensures Entered(code, a, n)[b] == code[b] { UncountedIs(orig, z, code, r, b); }
  }

  lemma DisabledKeeps(orig: Code, z: set<int>, code: Code, r: seq<Slot>, a: int)
    requires WfCode(orig) && CodeOk(orig, z, code, r) && a in code && RootOp(orig[a].op)
    ensures Disabled(code, a, orig[a]).Keys == code.Keys && UncountedKept(orig, code, Disabled(code, a, orig[a]))
  {
    forall b | b in orig && UncountedAt(orig, code, b) ensures Disabled(code, a, orig[a])[b] == code[b] { UncountedIs(orig, z, code, r, b); }
  }

  /** A flush of everything makes an instruction count again if and only if the
      registry still holds a root trace that starts there. */
  method UncountedThenFlushed(j: Jit, a: int)
    requires j.Valid() && j.state.Idle? && a in j.code && a in j.orig && UncountedAt(j.orig, j.code, a)
    modifies j
    ensures j.Valid() && a in j.code && (HotOp(j.code[a].op) <==> old(RootStart(j.trace, a))) && (!HotOp(j.code[a].op) ==> j.code[a] == old(j.code)[a])
  {
    UncountedIs(j.orig, j.stale, j.code, j.trace, a);
    j.TraceFlushAll();
  }

  /** Two loops. */
  function TwoLoops(): Code { map[1 := Ins(LOOP, 0, BIAS), 5 := Ins(LOOP, 0, BIAS)] }

  /** The first loop is compiled, and the traces are dropped. */
  method FirstDropped() returns (j: Jit)
    ensures fresh(j) && fresh(j.pen) && fresh(j.pen.penalty) && j.Valid() && j.state.Idle? && j.nojit == {} && j.stale == {1} && j.maxtrace == 10 && AllFree(j.trace)
    ensures j.code == TwoLoops()[1 := Ins(LOOP + 2, 0, 1)]
  {
    hide TwoLoops, WfCode, Entries, Jit.Valid, AllFree;
    TwoLoopsOk();
    j := new Jit(TwoLoops(), (_: int) => 0, 10, 10, 2, 2);
    OneFree();
    CompileLoop(j, 1);
    EntriesOfOne(j.code);
    j.TraceDrop();
  }

  /** The first loop is compiled, the traces are dropped, the second loop is
      compiled: its trace takes the number the entry of the first loop still
      names. In between, that entry names no trace. */
  method StaleEntry() returns (j: Jit, ghost between: seq<Slot>)
    ensures j.Valid() && 1 in j.code && 5 in j.code && j.code[1] == Ins(LOOP + 2, 0, 1) && !Live(between, 1)
    ensures Starts(j.trace, 1, 5) && j.stale == {1}
  {
    hide Jit.Valid, TwoLoops, AllFree;
    TwoLoopsOk();
    j := FirstDropped();
    NoneLive(j.trace);
    between := j.trace;
    CompileLoop(j, 5);
  }

  /** Compiles a loop when there are no traces. */
  method CompileLoop(j: Jit, a: int)
    requires j.Valid() && j.state.Idle? && a in j.code && j.code[a].op == LOOP && j.protoOf(a) !in j.nojit && AllFree(j.trace) && j.maxtrace >= 1
    modifies j, j.pen, j.pen.penalty
    ensures j.Valid() && j.state.Idle? && j.nojit == old(j.nojit) && j.stale == old(j.stale)
    ensures j.code == old(j.code)[a := old(j.code)[a].(op := LOOP + 2, d := 1)] && Starts(j.trace, 1, a)
  {
    hide PenaltyCache.Valid, CodeOk, RootsOk, TreeOk, DropsOk, WfCode;
    ghost var was := j.trace;
    NoRootStart(j.trace, a);
    NotFull(j);
    j.TraceHot(a, None, 0);
    FirstNumber(was, j.trace, j.rec.value.traceno);
    var ok := j.TraceStop(1, 0);
  }

  lemma NotFull(j: Jit)
    requires AllFree(j.trace) && j.maxtrace >= 1
    ensures !j.Full(j.trace)
  {
    if |j.trace| > j.maxtrace { assert j.trace[1].Free?; }
  }

  lemma FirstNumber(r: seq<Slot>, r2: seq<Slot>, n: int)
    requires AllFree(r) && Extends(r, r2) && IsNext(r2, n)
    ensures n == 1
  {
    assert r2[1].Free?;
  }

  lemma TwoLoopsOk()
    ensures WfCode(TwoLoops()) && TwoLoops().Keys == {1, 5} && TwoLoops()[1] == Ins(LOOP, 0, BIAS) && TwoLoops()[5] == Ins(LOOP, 0, BIAS)
  {
  }

  lemma OneFree()
    ensures AllFree([Free])
  {
  }

  lemma NoRootStart(r: seq<Slot>, a: int)
    requires AllFree(r)
    ensures !RootStart(r, a)
  {
  }

  lemma NoneLive(r: seq<Slot>)
    requires AllFree(r)
    ensures !Live(r, 1)
  {
  }

  lemma EntriesOfOne(code: Code)
    requires code == TwoLoops()[1 := Ins(LOOP + 2, 0, 1)]
    ensures Entries(code) == {1}
  {
  }
}
