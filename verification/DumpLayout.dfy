/** The bytes of the format themselves, and how files of its older form are
    read. */
module DumpLayout {
  import opened Wrappers
  import opened DumpFormat
  import opened DumpRoundTrip

  // -- Numbers -----------------------------------------------------------------------

  /** A number of two bytes has its low byte first. */
  lemma Two(v: int)
    ensures Le(v, 2) == [v % 256, v / 256 % 256]
  {
    assert Le(v / 256, 1) == [v / 256 % 256] + Le(v / 256 / 256, 0);
  }

  /** So has a number of four. */
  lemma Four(v: int)
    ensures Le(v, 4) == [v % 256, v / 256 % 256, v / 0x1_0000 % 256, v / 0x100_0000 % 256]
  {
    Two(v / 0x1_0000);
    assert v / 256 / 256 == v / 0x1_0000 && v / 0x1_0000 / 256 == v / 0x100_0000;
    assert Le(v / 256, 3) == [v / 256 % 256] + Le(v / 256 / 256, 2);
  }

  lemma Small(v: int)
    requires 0 <= v < 256
    ensures Le(v, 4) == [v, 0, 0, 0]
  {
    Four(v);
  }

  /** And one of eight. */
  lemma Eight(v: int)
    ensures Le(v, 8) == Le(v, 4) + Le(v / 0x1_0000_0000, 4)
  {
    Four(v);
    var a, b, c := v / 256, v / 0x1_0000, v / 0x100_0000;
    assert a / 256 == b && b / 256 == c && c / 256 == v / 0x1_0000_0000;
    assert Le(c, 5) == [c % 256] + Le(v / 0x1_0000_0000, 4);
    assert Le(b, 6) == [b % 256] + Le(c, 5);
    assert Le(a, 7) == [a % 256] + Le(b, 6);
    assert Le(v, 8) == [v % 256] + Le(a, 7);
  }

  // -- A file ------------------------------------------------------------------------

  /** A function without anything in it. */
  const INNER := Proto(0, 0, 2, [], [], [], [], [], [], 0, 0, None)

  /** A function with one of everything. */
  const OUTER := Proto(0x0102, 3, 4, [0x01020304], [7], [KStr(0), KProto(INNER), KTable(9), KCData(9)], [0x0102030405060708], [0xC001],
                       [[0x78]], 5, 6, Some(1))

  const NAMES: seq<Bytes> := [[0x61, 0x62], [0x40]]

  const ZERO: Bytes := [0, 0, 0, 0]

  /** The bytes of the inner function: no flags, no parameters, two registers,
      eight counts and lines that are zero; no source. */
  const INNER_HEAD: Bytes := [0, 0] + ([0] + ([2] + (ZERO + (ZERO + (ZERO + (ZERO + (ZERO + (ZERO + (ZERO + (ZERO + []))))))))))

  const INNER_BYTES: Bytes := INNER_HEAD + [0]

  /** The numbers at the front of the outer one: flags, parameters, registers;
      the counts of instructions, constants, number constants, string slots,
      upvalues and their names; two lines. */
  const OUTER_HEAD: Bytes :=
    [0x02, 0x01] + ([3] + ([4] + ([1, 0, 0, 0] + ([4, 0, 0, 0] + ([1, 0, 0, 0] + (ZERO
    + ([1, 0, 0, 0] + ([1, 0, 0, 0] + ([5, 0, 0, 0] + ([6, 0, 0, 0] + []))))))))))

  /** Its source. */
  const OUTER_SOURCE: Bytes := [1] + ([1, 0, 0, 0] + [0x40])

  /** Its instruction, line, number, upvalue and the upvalue's name. */
  const OUTER_VECTORS: Bytes := [4, 3, 2, 1] + [7, 0, 0, 0] + [8, 7, 6, 5, 4, 3, 2, 1] + [0x01, 0xC0] + ([1, 0] + [0x78])

  /** Its constants: a string, the inner function, a table, a C value. */
  const OUTER_CONSTANTS: Bytes := ([0] + ([2, 0, 0, 0] + [0x61, 0x62])) + (([1] + INNER_BYTES) + ([2] + ([3] + [])))

  lemma FieldsFrom(vs: seq<int>, ws: seq<nat>, i: nat)
    requires i < |vs| == |ws|
    ensures Fields(vs[i..], ws[i..]) == Le(vs[i], ws[i]) + Fields(vs[i + 1..], ws[i + 1..])
  {
    assert vs[i..][1..] == vs[i + 1..] && ws[i..][1..] == ws[i + 1..];
  }

  lemma Assoc(a: Bytes, b: Bytes, c: Bytes)
    ensures a + (b + c) == a + b + c
  {
  }

  /** The numbers from one place of the front on. */
  function From(h: seq<int>, i: nat): Bytes
    requires |h| == |HEAD_WIDTHS| && i <= |h|
  { Fields(h[i..], HEAD_WIDTHS[i..]) }

  lemma Step(h: seq<int>, i: nat)
    requires |h| == |HEAD_WIDTHS| && i < |h|
    ensures From(h, i) == Le(h[i], if i == 0 then 2 else if i < 3 then 1 else 4) + From(h, i + 1)
  {
    FieldsFrom(h, HEAD_WIDTHS, i);
  }

  lemma Ends(h: seq<int>)
    requires |h| == |HEAD_WIDTHS|
    ensures From(h, 0) == Fields(h, HEAD_WIDTHS) && From(h, 11) == []
  {
    assert h[0..] == h && HEAD_WIDTHS[0..] == HEAD_WIDTHS;
  }

  /** The eight numbers of four bytes. */
  lemma Counts(h: seq<int>)
    requires |h| == |HEAD_WIDTHS|
    ensures From(h, 3)
      == Le(h[3], 4) + (Le(h[4], 4) + (Le(h[5], 4) + (Le(h[6], 4) + (Le(h[7], 4) + (Le(h[8], 4) + (Le(h[9], 4) + (Le(h[10], 4) + [])))))))
  {
    Ends(h);
    Step(h, 3);
    Step(h, 4);
    Step(h, 5);
    Step(h, 6);
    Step(h, 7);
    Step(h, 8);
    Step(h, 9);
    Step(h, 10);
    hide Le, Fields, From;
  }

  /** The numbers at the front of a prototype: flags in two bytes, parameters
      and registers in one each, all others in four. */
  lemma HeadOf(p: Proto)
    ensures Fields(Head(p), HEAD_WIDTHS) == Le(p.flags, 2) + (Le(p.numparams, 1) + (Le(p.framesize, 1)
      + (Le(|p.bc|, 4) + (Le(|p.kgc|, 4) + (Le(|p.kn|, 4) + (Le(0, 4) + (Le(|p.uv|, 4) + (Le(|p.uvnames|, 4) + (Le(p.firstline, 4) + (Le(p.numline, 4) + []))))))))))
  {
    var h := Head(p);
    Ends(h);
    Step(h, 0);
    Step(h, 1);
    Step(h, 2);
    Counts(h);
    hide Le, Fields, From;
  }

  lemma One(v: int)
    ensures Le(v, 1) == [v % 256]
  {
  }

  lemma NoNumbers(w: nat)
    ensures Fields([], Same(w, 0)) == []
  {
  }

  lemma OneNumber(v: int, w: nat)
    ensures Fields([v], Same(w, 1)) == Le(v, w)
  {
    assert [v][1..] == [] && Same(w, 1)[1..] == [];
  }

  /** A prototype is its parts, one behind the other. */
  lemma PartsOf(p: Proto, tab: seq<Bytes>)
    ensures ProtoBytes(p, tab) == Fields(Head(p), HEAD_WIDTHS) + SourceBytes(p.source, tab) + Vectors(p) + KgcBytes(p.kgc, tab)
  {
    hide Fields, KgcBytes, SourceBytes, Vectors, Head;
    var a, b, c, d := Fields(Head(p), HEAD_WIDTHS), SourceBytes(p.source, tab), Vectors(p), KgcBytes(p.kgc, tab);
    Assoc(a, b, c + d);
    Assoc(a + b, c, d);
  }

  lemma InnerParts(tab: seq<Bytes>)
    ensures Vectors(INNER) == [] && KgcBytes(INNER.kgc, tab) == [] && SourceBytes(INNER.source, tab) == [0]
  {
    NoNumbers(4);
    NoNumbers(8);
    NoNumbers(2);
    hide Fields;
  }

  lemma InnerHead()
    ensures Fields(Head(INNER), HEAD_WIDTHS) == INNER_HEAD
  {
    HeadOf(INNER);
    Two(0);
    One(0);
    One(2);
    Small(0);
    hide Fields, Le, Head;
  }

  lemma InnerIs(tab: seq<Bytes>)
    ensures ProtoBytes(INNER, tab) == INNER_BYTES
  {
    PartsOf(INNER, tab);
    InnerParts(tab);
    InnerHead();
    hide Fields, ProtoBytes, KgcBytes, SourceBytes, Vectors, Head;
  }

  lemma OuterHead()
    ensures Fields(Head(OUTER), HEAD_WIDTHS) == OUTER_HEAD
  {
    HeadOf(OUTER);
    Two(0x0102);
    One(3);
    One(4);
    Small(0);
    Small(1);
    Small(4);
    Small(5);
    Small(6);
    hide Fields, Le, Head;
  }

  lemma OuterSource()
    ensures SourceBytes(OUTER.source, NAMES) == OUTER_SOURCE
  {
    Small(1);
    hide Le;
  }

  lemma OuterName()
    ensures Names(OUTER.uvnames) == [1, 0] + [0x78]
  {
    Two(1);
    assert OUTER.uvnames[1..] == [] && Names([]) == [];
    hide Le;
  }

  lemma OuterNumbers()
    ensures Fields(OUTER.bc, Same(4, 1)) == [4, 3, 2, 1] && Fields(OUTER.lines, Same(4, 1)) == [7, 0, 0, 0]
    ensures Fields(OUTER.kn, Same(8, 1)) == [8, 7, 6, 5, 4, 3, 2, 1] && Fields(OUTER.uv, Same(2, 1)) == [0x01, 0xC0]
  {
    OneNumber(0x01020304, 4);
    OneNumber(7, 4);
    OneNumber(0x0102030405060708, 8);
    OneNumber(0xC001, 2);
    Four(0x01020304);
    Small(7);
    NumberBytes();
    Two(0xC001);
    hide Fields, Le, Same;
  }

  lemma OuterVectors()
    ensures Vectors(OUTER) == OUTER_VECTORS
  {
    OuterNumbers();
    OuterName();
    hide Fields, Le, Names, Same;
  }

  lemma NumberBytes()
    ensures Le(0x0102030405060708, 8) == [8, 7, 6, 5, 4, 3, 2, 1]
  {
    Eight(0x0102030405060708);
    Four(0x0102030405060708);
    Four(0x01020304);
    hide Le;
  }

  lemma ConstantsFrom(ks: seq<KGc>, tab: seq<Bytes>, i: nat)
    requires i < |ks|
    ensures KgcBytes(ks[i..], tab) == OneKgc(ks[i], tab) + KgcBytes(ks[i + 1..], tab)
  {
    hide OneKgc;
    assert ks[i..][1..] == ks[i + 1..];
  }

  /** The tags of the constants. */
  lemma Tags()
    ensures OneKgc(KStr(0), NAMES) == [0] + ([2, 0, 0, 0] + [0x61, 0x62]) && OneKgc(KProto(INNER), NAMES) == [1] + INNER_BYTES
    ensures OneKgc(KTable(9), NAMES) == [2] && OneKgc(KCData(9), NAMES) == [3]
  {
    InnerIs(NAMES);
    Small(2);
    hide ProtoBytes, Le;
  }

  lemma OuterConstants()
    ensures KgcBytes(OUTER.kgc, NAMES) == OUTER_CONSTANTS
  {
    Tags();
    var ks := OUTER.kgc;
    assert ks[0..] == ks && KgcBytes(ks[4..], NAMES) == [];
    ConstantsFrom(ks, NAMES, 0);
    ConstantsFrom(ks, NAMES, 1);
    ConstantsFrom(ks, NAMES, 2);
    ConstantsFrom(ks, NAMES, 3);
    hide OneKgc, KgcBytes;
  }

  /** The whole file of a function with one of everything, byte by byte: the
      magic number and the version, the numbers lowest byte first, the strings
      by their contents, the constants by their tags. */
  lemma FileIs()
    ensures DumpBytes(OUTER, NAMES) == [0x1b, 0x4c, 0x4a, 1, 0] + (OUTER_HEAD + OUTER_SOURCE + OUTER_VECTORS + OUTER_CONSTANTS)
  {
    PartsOf(OUTER, NAMES);
    OuterHead();
    OuterSource();
    OuterVectors();
    OuterConstants();
    hide Fields, KgcBytes, Vectors, SourceBytes, Head, ProtoBytes;
  }

  // -- Older files ---------------------------------------------------------------------

  /** The vectors as an older file has them: string slots of four bytes each
      stand behind the number constants. */
  function OldVectors(p: Proto, slots: Bytes): Bytes {
    Fields(p.bc, Same(4, |p.bc|)) + Fields(p.lines, Same(4, |p.lines|)) + Fields(p.kn, Same(8, |p.kn|)) + slots
    + (Fields(p.uv, Same(2, |p.uv|)) + Names(p.uvnames))
  }

  /** And a prototype: the seventh number is that of the string slots. */
  function OldBytes(p: Proto, tab: seq<Bytes>, n: nat, slots: Bytes): Bytes
  { Fields(Head(p)[6 := n], HEAD_WIDTHS) + (SourceBytes(p.source, tab) + (OldVectors(p, slots) + KgcBytes(p.kgc, tab))) }

  lemma {:induction false} SlotsRead(d: Bytes, pos: nat, n: nat)
    requires pos + 4 * n <= |d|
    ensures ReadFields(d, pos, Same(4, n)).Some? && ReadFields(d, pos, Same(4, n)).value.1 == pos + 4 * n
    decreases n
  {
    if n > 0 {
      hide LeVal;
      SlotsRead(d, pos + 4, n - 1);
      assert Same(4, n)[1..] == Same(4, n - 1);
    }
  }

  ghost predicate OldVectorsAreBack(p: Proto, d: Bytes, pos: nat, n: nat, slots: Bytes)
  { pos <= |d| && ReadVectors(d, pos, Head(p)[6 := n]) == Some(((p.bc, p.lines, p.kn, p.uv, p.uvnames), pos + |OldVectors(p, slots)|)) }

  /** The slots are passed over, whatever is in them. */
  lemma OldVectorsBack(p: Proto, tab: seq<Bytes>, d: Bytes, pos: nat, n: nat, slots: Bytes)
    requires Wf(p, tab) && |slots| == 4 * n && At(d, pos, OldVectors(p, slots))
    ensures OldVectorsAreBack(p, d, pos, n, slots)
  {
    hide Fields, ReadFields, Names, ReadNames, WfKgcs, Below, At, Pow256;
    var a, b, c, e, f := Fields(p.bc, Same(4, |p.bc|)), Fields(p.lines, Same(4, |p.lines|)), Fields(p.kn, Same(8, |p.kn|)), Fields(p.uv, Same(2, |p.uv|)), Names(p.uvnames);
    AtParts(d, pos, a + b + c + slots, e + f);
    AtParts(d, pos, a + b + c, slots);
    AtParts(d, pos, a + b, c);
    AtParts(d, pos, a, b);
    var p3 := pos + |a| + |b| + |c|;
    AtParts(d, p3 + |slots|, e, f);
    SameBack(d, pos, p.bc, 4);
    SameBack(d, pos + |a|, p.lines, 4);
    SameBack(d, pos + |a| + |b|, p.kn, 8);
    Inside(d, p3, slots);
    SlotsRead(d, p3, n);
    SameBack(d, p3 + |slots|, p.uv, 2);
    NamesBack(d, p3 + |slots| + |e|, p.uvnames);
  }

  lemma Inside(d: Bytes, pos: nat, b: Bytes)
    requires At(d, pos, b)
    ensures pos + |b| <= |d|
  {
  }

  lemma OldHeadFits(p: Proto, tab: seq<Bytes>, n: nat)
    requires Wf(p, tab) && n < Pow256(4)
    ensures Fit(Head(p)[6 := n], HEAD_WIDTHS)
  {
    hide Pow256, Below, WfKgcs;
    HeadFits(p, tab);
  }

  ghost predicate OldProtoIsBack(p: Proto, tab: seq<Bytes>, n: nat, slots: Bytes, d: Bytes, pos: nat, t: seq<Bytes>) {
    pos <= |d| && var r := ReadProto(d, pos, t);
      r.Some? && r.value.pos == pos + |OldBytes(p, tab, n, slots)| && t <= r.value.tab && SameProto(p, tab, r.value.v, r.value.tab)
  }

  /** Where an older prototype stands, the same one is read as from a newer file. */
  lemma OldProtoBack(p: Proto, tab: seq<Bytes>, n: nat, slots: Bytes, d: Bytes, pos: nat, t: seq<Bytes>)
    requires Wf(p, tab) && Plain(p.kgc) && n < Pow256(4) && |slots| == 4 * n && At(d, pos, OldBytes(p, tab, n, slots))
    ensures OldProtoIsBack(p, tab, n, slots, d, pos, t)
  {
    hide Fields, ReadFields, OldVectors, ReadVectors, ReadSource, KgcBytes, ReadKgcs, SameKgcs, WfKgcs, Plain, Pow256, Below, At, SourceBytes, Head, SameSource;
    var g := Head(p)[6 := n];
    var h, s, v, k := Fields(g, HEAD_WIDTHS), SourceBytes(p.source, tab), OldVectors(p, slots), KgcBytes(p.kgc, tab);
    AtParts(d, pos, h, s + (v + k));
    AtParts(d, pos + |h|, s, v + k);
    AtParts(d, pos + |h| + |s|, v, k);
    OldHeadFits(p, tab, n);
    FieldsBack(d, pos, g, HEAD_WIDTHS);
    SourceBack(p.source, tab, d, pos + |h|, t);
    OldVectorsBack(p, tab, d, pos + |h| + |s|, n, slots);
    KgcsBack(p.kgc, tab, d, pos + |h| + |s| + |v|, ReadSource(d, pos + |h|, t).value.tab);
    ProtoJoins(p, tab, d, pos, t, g, pos + |h|, pos + |h| + |s|, pos + |h| + |s| + |v|);
  }

  /** A file of the older form is read to its last byte, and gives the prototype
      a newer file gives: the string slots move everything behind them, and change
      nothing else. */
  lemma SlotsSkipped(p: Proto, tab: seq<Bytes>, n: nat, slots: Bytes, t: seq<Bytes>)
    requires Wf(p, tab) && n < Pow256(4) && |slots| == 4 * n
    ensures var d := [0x1b, 0x4c, 0x4a, 1, 0] + OldBytes(p, tab, n, slots);
      var r := ReadDump(d, t);
      r.Loaded? && r.got.pos == |d| && t <= r.got.tab && SameProto(p.(kgc := Emptied(p.kgc)), tab, r.got.v, r.got.tab)
  {
    hide ProtoBytes, ReadProto, SameProto, Wf, Plain, Fields, KgcBytes, OldVectors, Pow256, SourceBytes;
    var e := p.(kgc := Emptied(p.kgc));
    var d := [0x1b, 0x4c, 0x4a, 1, 0] + OldBytes(p, tab, n, slots);
    EmptiedProtoFits(p, tab);
    EmptiedFits(p.kgc, tab);
    SameVectors(p, e, slots);
    assert OldBytes(e, tab, n, slots) == OldBytes(p, tab, n, slots);
    assert d[..3] == MAGIC && d[5..] == OldBytes(p, tab, n, slots);
    OldProtoBack(e, tab, n, slots, d, 5, t);
  }

  lemma SameVectors(p: Proto, e: Proto, slots: Bytes)
    requires e == p.(kgc := e.kgc)
    ensures OldVectors(e, slots) == OldVectors(p, slots)
  {
    hide Fields, Names;
  }
}
