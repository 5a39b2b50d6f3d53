/** Snapshots of inlined frames, and starting a side trace from one of them. */
module FrameReplay {
  import opened IrBuffer
  import opened Frames
  import BC = Bytecode

  /** A snapshot entry: slot, reference, whether it is a frame link, and whether
      an exit leaves the slot alone. */
  datatype FrameEntry = FrameEntry(slot: int, ref: int, frame: bool, norestore: bool)

  /** The entry that stands for the link of the outermost frame. */
  const ROOT_LINK := FrameEntry(1, REF_NIL, true, true)

  predicate Reloads(ir: seq<IRIns>, ref: int, i: int) {
    0 <= ref - REF_BIAS < |ir| && ir[ref - REF_BIAS].op == SLOAD && ir[ref - REF_BIAS].op1 == i
  }

  function EntryOf(slot: seq<Cell>, ir: seq<IRIns>, i: int): seq<FrameEntry>
    requires 0 <= i < |slot|
  {
    if i == 1 then (if slot[i].frame then [ROOT_LINK] else [])
    else if slot[i].tr.None? then []
    else if Reloads(ir, slot[i].tr.ref, i) then
      var mode := ir[slot[i].tr.ref - REF_BIAS].op2;
      if mode / MODE_INHERIT % 2 == 0 then [] else [FrameEntry(i, slot[i].tr.ref, slot[i].frame, mode / MODE_READONLY % 2 == 1)]
    else [FrameEntry(i, slot[i].tr.ref, slot[i].frame, false)]
  }

  /** The snapshot map of the first `n` slots. */
  function MapOf(slot: seq<Cell>, ir: seq<IRIns>, n: nat): seq<FrameEntry>
    requires n <= |slot|
  {
    if n == 0 then [] else MapOf(slot, ir, n - 1) + EntryOf(slot, ir, n - 1)
  }

  ghost predicate Ascending(e: seq<FrameEntry>, n: int) {
    && (forall j :: 0 <= j < |e| ==> 0 <= e[j].slot < n)
    && (forall i, j :: 0 <= i < j < |e| ==> e[i].slot < e[j].slot)
  }

  lemma {:induction false} MapAscends(slot: seq<Cell>, ir: seq<IRIns>, n: nat)
    requires n <= |slot|
    ensures Ascending(MapOf(slot, ir, n), n)
  {
    if n > 0 {
      MapAscends(slot, ir, n - 1);
      EntrySlot(slot, ir, n - 1);
      AscendsNext(MapOf(slot, ir, n - 1), EntryOf(slot, ir, n - 1), n - 1);
    }
  }

  lemma EntrySlot(slot: seq<Cell>, ir: seq<IRIns>, i: int)
    requires 0 <= i < |slot|
    ensures var x := EntryOf(slot, ir, i); |x| <= 1 && (x != [] ==> x[0].slot == i)
  {
  }

  lemma AscendsNext(a: seq<FrameEntry>, x: seq<FrameEntry>, n: nat)
    requires Ascending(a, n) && |x| <= 1 && (x != [] ==> x[0].slot == n)
    ensures Ascending(a + x, n + 1)
  {
  }

  // -- Decoding the frame chain -------------------------------------------------------

  /** What the entries so far say of the frames; not `ok` once one makes no sense. */
  datatype Chain = Chain(frames: seq<FrameInfo>, baseslot: int, fn: Fn, ok: bool)

  /** The call a link leads back behind, if it does. */
  function CallBehind(fn: Fn, link: int): int {
    var delta := link - fn.addr;
    if delta < 0 || delta % 4 != 0 || delta / 4 == 0 || delta / 4 >= |fn.bc| then -1
    else if fn.bc[delta / 4 - 1].op != BC.CALL || BC.BcB(fn.bc[delta / 4 - 1]) == 0 then -1
    else delta / 4 - 1
  }

  function FnConst(k: seq<KIns>, r: int): int {
    if 0 <= REF_NIL - r < |k| && k[REF_NIL - r].op == KGC && k[REF_NIL - r].val.KObject? && k[REF_NIL - r].val.v.Gc? && k[REF_NIL - r].val.v.t == IRT_FUNC
    then k[REF_NIL - r].val.v.id else -1
  }

  function LinkBits(k: seq<KIns>, r: int): int {
    if 0 <= REF_NIL - r < |k| && k[REF_NIL - r].op == KINT64 && k[REF_NIL - r].val.KInteger? then k[REF_NIL - r].val.i else -1
  }

  predicate HasFn(k: seq<KIns>, r: int) {
    0 <= REF_NIL - r < |k| && k[REF_NIL - r].op == KGC && k[REF_NIL - r].val.KObject? && k[REF_NIL - r].val.v.Gc? && k[REF_NIL - r].val.v.t == IRT_FUNC
  }

  predicate HasLink(k: seq<KIns>, r: int) { 0 <= REF_NIL - r < |k| && k[REF_NIL - r].op == KINT64 && k[REF_NIL - r].val.KInteger? }

  /** One entry, given the one before it. */
  function DecodeOne(heap: Heap, k: seq<KIns>, c: Chain, prev: seq<FrameEntry>, e: FrameEntry): Chain {
    if !c.ok || !e.frame || e.slot == 1 then c
    else if prev == [] || prev[|prev| - 1].slot != e.slot - 1 || !HasFn(k, prev[|prev| - 1].ref) || !HasLink(k, e.ref) || CallBehind(c.fn, LinkBits(k, e.ref)) < 0 then c.(ok := false)
    else
      var i := c.fn.bc[CallBehind(c.fn, LinkBits(k, e.ref))];
      var callee := heap(FnConst(k, prev[|prev| - 1].ref));
      Chain(c.frames + [FrameInfo(c.fn, callee, i.a, BC.BcB(i) - 1, c.baseslot)], e.slot + 1, callee, true)
  }

  function Decode(heap: Heap, start: Fn, k: seq<KIns>, e: seq<FrameEntry>): Chain {
    if e == [] then Chain([], 2, start, true)
    else DecodeOne(heap, k, Decode(heap, start, k, e[..|e| - 1]), e[..|e| - 1], e[|e| - 1])
  }

  lemma DecodeNext(heap: Heap, start: Fn, k: seq<KIns>, e: seq<FrameEntry>, x: FrameEntry)
    ensures Decode(heap, start, k, e + [x]) == DecodeOne(heap, k, Decode(heap, start, k, e), e, x)
  {
    assert (e + [x])[..|e|] == e;
  }

  /** Decoding the snapshot of a recorder up to slot `n` gives back exactly the
      frames whose links lie below `n`. */
  lemma {:induction false} DecodesTo(heap: Heap, start: Fn, fr: seq<FrameInfo>, pt: Fn, baseslot: int, slot: seq<Cell>, k: seq<KIns>, ir: seq<IRIns>, n: nat, c: nat)
    requires FramesOk(heap, start, fr, pt, baseslot, slot, k) && n <= |slot| && c <= |fr|
    requires (c > 0 ==> Base(fr, baseslot, c) <= n) && (c < |fr| ==> n < Base(fr, baseslot, c + 1))
    ensures Decode(heap, start, k, MapOf(slot, ir, n)) == Chain(fr[..c], Base(fr, baseslot, c), FnOf(fr, pt, c), true)
    decreases n
  {
    hide FramesOk, LinkAt, FrameAt, MapOf, Decode;
    ChainFacts(heap, start, fr, pt, baseslot, slot, k);
    if n == 0 {
      if c > 0 { BasesUp(fr, pt, baseslot, 0, c); }
      assert fr[..0] == [];
      MapNone(heap, start, k, slot, ir);
    } else if c > 0 && n == Base(fr, baseslot, c) {
      BasesUp(fr, pt, baseslot, c - 1, c);
      DecodesTo(heap, start, fr, pt, baseslot, slot, k, ir, n - 1, c - 1);
      DecodesLink(heap, start, fr, pt, baseslot, slot, k, ir, c - 1);
    } else {
      DecodesTo(heap, start, fr, pt, baseslot, slot, k, ir, n - 1, c);
      Unlinked(heap, start, fr, pt, baseslot, slot, k, n - 1, c);
      DecodesPlain(heap, start, k, slot, ir, n);
    }
  }

  lemma MapNone(heap: Heap, start: Fn, k: seq<KIns>, slot: seq<Cell>, ir: seq<IRIns>)
    ensures Decode(heap, start, k, MapOf(slot, ir, 0)) == Chain([], 2, start, true)
  {
  }

  lemma DecodesPlain(heap: Heap, start: Fn, k: seq<KIns>, slot: seq<Cell>, ir: seq<IRIns>, n: nat)
    requires 0 < n <= |slot| && !slot[n - 1].frame
    ensures Decode(heap, start, k, MapOf(slot, ir, n)) == Decode(heap, start, k, MapOf(slot, ir, n - 1))
  {
    hide Decode, EntryOf;
    var e, x := MapOf(slot, ir, n - 1), EntryOf(slot, ir, n - 1);
    EntryPlain(slot, ir, n - 1);
    if x != [] { PlainKeeps(heap, start, k, e, x[0]); assert e + x == e + [x[0]]; } else { assert e + x == e; }
  }

  lemma EntryPlain(slot: seq<Cell>, ir: seq<IRIns>, i: int)
    requires 0 <= i < |slot| && !slot[i].frame
    ensures var x := EntryOf(slot, ir, i); |x| <= 1 && (x != [] ==> !x[0].frame)
  {
  }

  lemma PlainKeeps(heap: Heap, start: Fn, k: seq<KIns>, e: seq<FrameEntry>, x: FrameEntry)
    requires !x.frame
    ensures Decode(heap, start, k, e + [x]) == Decode(heap, start, k, e)
  {
    DecodeNext(heap, start, k, e, x);
  }

  lemma ChainFacts(heap: Heap, start: Fn, fr: seq<FrameInfo>, pt: Fn, baseslot: int, slot: seq<Cell>, k: seq<KIns>)
    requires FramesOk(heap, start, fr, pt, baseslot, slot, k)
    ensures FnOf(fr, pt, 0) == start && Base(fr, baseslot, 0) == 2 && |slot| == MAX_JSLOTS
    ensures forall i {:trigger FrameAt(fr, pt, baseslot, i)} :: 0 <= i < |fr| ==> FrameAt(fr, pt, baseslot, i)
    ensures forall c :: 0 < c <= |fr| ==> 3 < Base(fr, baseslot, c) <= |slot|
  {
    forall c | 0 < c <= |fr| ensures 3 < Base(fr, baseslot, c) <= |slot| { assert LinkAt(heap, fr, baseslot, slot, k, c - 1); }
  }

  /** A slot strictly between two links is not flagged. */
  lemma Unlinked(heap: Heap, start: Fn, fr: seq<FrameInfo>, pt: Fn, baseslot: int, slot: seq<Cell>, k: seq<KIns>, s: int, c: nat)
    requires FramesOk(heap, start, fr, pt, baseslot, slot, k) && 0 <= s < |slot| && c <= |fr|
    requires (c > 0 ==> Base(fr, baseslot, c) <= s) && (c < |fr| ==> s + 1 < Base(fr, baseslot, c + 1))
    ensures !slot[s].frame
  {
    if slot[s].frame {
      var i :| 0 <= i < |fr| && s == Base(fr, baseslot, i + 1) - 1;
      if i + 1 <= c { BasesUp(fr, pt, baseslot, i + 1, c); } else { BasesUp(fr, pt, baseslot, c + 1, i + 1); }
    }
  }

  /** The entry of a link, behind the entry of its function. */
  lemma DecodesLink(heap: Heap, start: Fn, fr: seq<FrameInfo>, pt: Fn, baseslot: int, slot: seq<Cell>, k: seq<KIns>, ir: seq<IRIns>, i: nat)
    requires FramesOk(heap, start, fr, pt, baseslot, slot, k) && i < |fr| && 3 < Base(fr, baseslot, i + 1) <= |slot|
    requires Decode(heap, start, k, MapOf(slot, ir, Base(fr, baseslot, i + 1) - 1)) == Chain(fr[..i], Base(fr, baseslot, i), FnOf(fr, pt, i), true)
    ensures Decode(heap, start, k, MapOf(slot, ir, Base(fr, baseslot, i + 1))) == Chain(fr[..i + 1], Base(fr, baseslot, i + 1), FnOf(fr, pt, i + 1), true)
  {
    hide FramesOk, Decode;
    var b := Base(fr, baseslot, i + 1);
    LinkFacts(heap, start, fr, pt, baseslot, slot, k, i);
    var e, x := MapOf(slot, ir, b - 1), FrameEntry(b - 1, slot[b - 1].tr.ref, true, false);
    var f := FrameEntry(b - 2, slot[b - 2].tr.ref, false, false);
    assert EntryOf(slot, ir, b - 1) == [x] && EntryOf(slot, ir, b - 2) == [f];
    assert MapOf(slot, ir, b - 1) == MapOf(slot, ir, b - 2) + [f];
    DecodeNext(heap, start, k, e, x);
    CallFound(fr[i], k[REF_NIL - slot[b - 1].tr.ref]);
    assert fr[..i + 1] == fr[..i] + [fr[i]];
  }

  lemma LinkFacts(heap: Heap, start: Fn, fr: seq<FrameInfo>, pt: Fn, baseslot: int, slot: seq<Cell>, k: seq<KIns>, i: nat)
    requires FramesOk(heap, start, fr, pt, baseslot, slot, k) && i < |fr|
    ensures |slot| == MAX_JSLOTS && FrameAt(fr, pt, baseslot, i) && LinkAt(heap, fr, baseslot, slot, k, i)
  {
  }

  lemma CallFound(fi: FrameInfo, c: KIns)
    requires LeadsBack(fi, c) && 0 <= fi.want
    ensures c.op == KINT64 && c.val.KInteger? && CallBehind(fi.pt, c.val.i) >= 0
    ensures var i := fi.pt.bc[CallBehind(fi.pt, c.val.i)]; i.a == fi.cbase && BC.BcB(i) - 1 == fi.want
  {
    var pc :| CallsFrom(fi, pc) && c.val.i == BcAddr(fi.pt, pc + 1);
    assert (4 * (pc + 1)) / 4 == pc + 1;
  }
}
