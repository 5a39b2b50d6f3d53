/** Reading back a dumped prototype, into any interner. */
module DumpRoundTrip {
  import opened Wrappers
  import opened DumpFormat

  // -- The same prototype in another interner ------------------------------------------

  predicate SameSource(s: Option<int>, tab: seq<Bytes>, s2: Option<int>, tab2: seq<Bytes>) {
    s.Some? == s2.Some? && (s2.Some? ==> 0 <= s.value < |tab| && 0 <= s2.value < |tab2| && tab2[s2.value] == tab[s.value])
  }

  /** Equal in everything, where strings are equal in contents. */
  predicate SameProto(p: Proto, tab: seq<Bytes>, q: Proto, tab2: seq<Bytes>)
    decreases p
  {
    && q == p.(kgc := q.kgc, source := q.source)
    && SameSource(p.source, tab, q.source, tab2) && SameKgcs(p.kgc, tab, q.kgc, tab2)
  }

  predicate SameKgcs(ks: seq<KGc>, tab: seq<Bytes>, qs: seq<KGc>, tab2: seq<Bytes>)
    decreases ks
  { |ks| == |qs| && (ks != [] ==> SameKgc(ks[0], tab, qs[0], tab2) && SameKgcs(ks[1..], tab, qs[1..], tab2)) }

  predicate SameKgc(k: KGc, tab: seq<Bytes>, q: KGc, tab2: seq<Bytes>)
    decreases k
  {
    match k
    case KStr(sid) => q.KStr? && 0 <= sid < |tab| && 0 <= q.sid < |tab2| && tab2[q.sid] == tab[sid]
    case KProto(p) => q.KProto? && SameProto(p, tab, q.p, tab2)
    case KTable(_) => q == k
    case KCData(_) => q == k
  }

  lemma {:induction false} SameGrows(ks: seq<KGc>, tab: seq<Bytes>, qs: seq<KGc>, t: seq<Bytes>, t2: seq<Bytes>)
    requires SameKgcs(ks, tab, qs, t) && t <= t2
    ensures SameKgcs(ks, tab, qs, t2)
    decreases ks
  {
    if ks != [] {
      SameKgcGrows(ks[0], tab, qs[0], t, t2);
      SameGrows(ks[1..], tab, qs[1..], t, t2);
    }
  }

  lemma {:induction false} SameKgcGrows(k: KGc, tab: seq<Bytes>, q: KGc, t: seq<Bytes>, t2: seq<Bytes>)
    requires SameKgc(k, tab, q, t) && t <= t2
    ensures SameKgc(k, tab, q, t2)
    decreases k
  {
    if k.KProto? { SameGrows(k.p.kgc, tab, q.p.kgc, t, t2); }
  }

  // -- What the format holds -----------------------------------------------------------

  predicate Below(vs: seq<int>, w: nat) { forall i {:trigger vs[i]} :: 0 <= i < |vs| ==> 0 <= vs[i] < Pow256(w) }

  predicate StrFits(tab: seq<Bytes>, sid: int) { 0 <= sid < |tab| && |tab[sid]| < Pow256(4) }

  /** Every number fits its field, and there is one line for each instruction,
      and the strings are interned. */
  predicate Wf(p: Proto, tab: seq<Bytes>)
    decreases p
  {
    && 0 <= p.flags < Pow256(2) && 0 <= p.numparams < Pow256(1) && 0 <= p.framesize < Pow256(1) && 0 <= p.firstline < Pow256(4) && 0 <= p.numline < Pow256(4)
    && |p.bc| == |p.lines| < Pow256(4) && |p.kgc| < Pow256(4) && |p.kn| < Pow256(4) && |p.uv| < Pow256(4) && |p.uvnames| < Pow256(4)
    && Below(p.bc, 4) && Below(p.lines, 4) && Below(p.kn, 8) && Below(p.uv, 2)
    && (forall i {:trigger p.uvnames[i]} :: 0 <= i < |p.uvnames| ==> |p.uvnames[i]| < Pow256(2))
    && (p.source.Some? ==> StrFits(tab, p.source.value)) && WfKgcs(p.kgc, tab)
  }

  predicate WfKgcs(ks: seq<KGc>, tab: seq<Bytes>)
    decreases ks
  { ks != [] ==> WfKgc(ks[0], tab) && WfKgcs(ks[1..], tab) }

  predicate WfKgc(k: KGc, tab: seq<Bytes>)
    decreases k
  { match k case KStr(sid) => StrFits(tab, sid) case KProto(p) => Wf(p, tab) case _ => true }

  lemma {:induction false} WfGrows(ks: seq<KGc>, t: seq<Bytes>, t2: seq<Bytes>)
    requires WfKgcs(ks, t) && t <= t2
    ensures WfKgcs(ks, t2)
    decreases ks
  {
    if ks != [] {
      WfKgcGrows(ks[0], t, t2);
      WfGrows(ks[1..], t, t2);
    }
  }

  lemma {:induction false} WfKgcGrows(k: KGc, t: seq<Bytes>, t2: seq<Bytes>)
    requires WfKgc(k, t) && t <= t2
    ensures WfKgc(k, t2)
    decreases k
  {
    if k.KProto? { WfProtoGrows(k.p, t, t2); }
  }

  lemma {:induction false} WfProtoGrows(p: Proto, t: seq<Bytes>, t2: seq<Bytes>)
    requires Wf(p, t) && t <= t2
    ensures Wf(p, t2)
    decreases p
  {
    hide Below, Pow256;
    WfGrows(p.kgc, t, t2);
  }

  /** No table constant has contents, no C value has bytes, at any depth. */
  predicate Plain(ks: seq<KGc>)
    decreases ks
  { ks != [] ==> PlainKgc(ks[0]) && Plain(ks[1..]) }

  predicate PlainKgc(k: KGc)
    decreases k
  { match k case KStr(_) => true case KProto(p) => Plain(p.kgc) case KTable(t) => t == NOTHING case KCData(c) => c == NOTHING }

  // -- Reading back ------------------------------------------------------------------------

  predicate At(d: Bytes, pos: nat, b: Bytes) { pos + |b| <= |d| && d[pos..pos + |b|] == b }

  lemma AtParts(d: Bytes, pos: nat, a: Bytes, b: Bytes)
    requires At(d, pos, a + b)
    ensures At(d, pos, a) && At(d, pos + |a|, b)
  {
    assert d[pos..pos + |a|] == (a + b)[..|a|] == a;
    assert d[pos + |a|..pos + |a| + |b|] == (a + b)[|a|..] == b;
  }

  predicate Fit(vs: seq<int>, ws: seq<nat>)
    requires |vs| == |ws|
  { forall i {:trigger vs[i]} :: 0 <= i < |vs| ==> 0 <= vs[i] < Pow256(ws[i]) }

  lemma {:induction false} FieldsBack(d: Bytes, pos: nat, vs: seq<int>, ws: seq<nat>)
    requires |vs| == |ws| && At(d, pos, Fields(vs, ws)) && Fit(vs, ws)
    ensures ReadFields(d, pos, ws) == Some((vs, pos + |Fields(vs, ws)|))
    decreases vs
  {
    if vs != [] {
      hide Le, LeVal, Pow256;
      AtParts(d, pos, Le(vs[0], ws[0]), Fields(vs[1..], ws[1..]));
      LeBack(vs[0], ws[0]);
      FieldsBack(d, pos + ws[0], vs[1..], ws[1..]);
      assert [vs[0]] + vs[1..] == vs;
    }
  }

  lemma SameBack(d: Bytes, pos: nat, vs: seq<int>, w: nat)
    requires At(d, pos, Fields(vs, Same(w, |vs|))) && Below(vs, w)
    ensures ReadFields(d, pos, Same(w, |vs|)) == Some((vs, pos + |Fields(vs, Same(w, |vs|))|))
  {
    hide Fields, ReadFields, Pow256, At;
    FieldsBack(d, pos, vs, Same(w, |vs|));
  }

  lemma StrBack(d: Bytes, pos: nat, b: Bytes, w: nat)
    requires At(d, pos, StrBytes(b, w)) && |b| < Pow256(w)
    ensures ReadStr(d, pos, w) == Some((b, pos + w + |b|))
  {
    AtParts(d, pos, Le(|b|, w), b);
    LeBack(|b|, w);
  }

  lemma {:induction false} NamesBack(d: Bytes, pos: nat, ns: seq<Bytes>)
    requires At(d, pos, Names(ns)) && forall i {:trigger ns[i]} :: 0 <= i < |ns| ==> |ns[i]| < Pow256(2)
    ensures ReadNames(d, pos, |ns|) == Some((ns, pos + |Names(ns)|))
    decreases ns
  {
    if ns != [] {
      AtParts(d, pos, StrBytes(ns[0], 2), Names(ns[1..]));
      StrBack(d, pos, ns[0], 2);
      NamesBack(d, pos + |StrBytes(ns[0], 2)|, ns[1..]);
      assert [ns[0]] + ns[1..] == ns;
    }
  }

  lemma HeadFits(p: Proto, tab: seq<Bytes>)
    requires Wf(p, tab)
    ensures Fit(Head(p), HEAD_WIDTHS)
  {
  }

  ghost predicate VectorsAreBack(p: Proto, d: Bytes, pos: nat) {
    pos <= |d| && ReadVectors(d, pos, Head(p)) == Some(((p.bc, p.lines, p.kn, p.uv, p.uvnames), pos + |Vectors(p)|))
  }

  lemma VectorsBack(p: Proto, tab: seq<Bytes>, d: Bytes, pos: nat)
    requires Wf(p, tab) && At(d, pos, Vectors(p))
    ensures VectorsAreBack(p, d, pos)
  {
    hide Fields, ReadFields, Names, ReadNames, WfKgcs, Below, At, Pow256;
    var a, b, c, e, f := Fields(p.bc, Same(4, |p.bc|)), Fields(p.lines, Same(4, |p.lines|)), Fields(p.kn, Same(8, |p.kn|)), Fields(p.uv, Same(2, |p.uv|)), Names(p.uvnames);
    AtParts(d, pos, a + b + c + e, f);
    AtParts(d, pos, a + b + c, e);
    AtParts(d, pos, a + b, c);
    AtParts(d, pos, a, b);
    SameBack(d, pos, p.bc, 4);
    SameBack(d, pos + |a|, p.lines, 4);
    SameBack(d, pos + |a| + |b|, p.kn, 8);
    NoFields(d, pos + |a| + |b| + |c|);
    SameBack(d, pos + |a| + |b| + |c|, p.uv, 2);
    NamesBack(d, pos + |a| + |b| + |c| + |e|, p.uvnames);
  }

  lemma NoFields(d: Bytes, pos: nat)
    ensures pos <= |d| ==> ReadFields(d, pos, Same(4, 0)) == Some(([], pos))
  {
  }

  ghost predicate SourceIsBack(s: Option<int>, tab: seq<Bytes>, d: Bytes, pos: nat, t: seq<Bytes>, end: nat) {
    pos <= |d| && var r := ReadSource(d, pos, t);
      r.Some? && r.value.pos == end && t <= r.value.tab && SameSource(s, tab, r.value.v, r.value.tab)
  }

  lemma SourceBack(s: Option<int>, tab: seq<Bytes>, d: Bytes, pos: nat, t: seq<Bytes>)
    requires At(d, pos, SourceBytes(s, tab)) && (s.Some? ==> StrFits(tab, s.value))
    ensures SourceIsBack(s, tab, d, pos, t, pos + |SourceBytes(s, tab)|)
  {
    hide LeVal, Le, Pow256;
    assert d[pos] == d[pos..pos + |SourceBytes(s, tab)|][0];
    if s.Some? {
      AtParts(d, pos, [1], StrBytes(Get(tab, s.value), 4));
      StrBack(d, pos + 1, Get(tab, s.value), 4);
    }
  }

  ghost predicate ProtoIsBack(p: Proto, tab: seq<Bytes>, d: Bytes, pos: nat, t: seq<Bytes>) {
    pos <= |d| && var r := ReadProto(d, pos, t);
      r.Some? && r.value.pos == pos + |ProtoBytes(p, tab)| && t <= r.value.tab && SameProto(p, tab, r.value.v, r.value.tab)
  }

  ghost predicate KgcsAreBack(ks: seq<KGc>, tab: seq<Bytes>, d: Bytes, pos: nat, t: seq<Bytes>) {
    pos <= |d| && var r := ReadKgcs(d, pos, t, |ks|);
      r.Some? && r.value.pos == pos + |KgcBytes(ks, tab)| && t <= r.value.tab && SameKgcs(ks, tab, r.value.v, r.value.tab)
  }

  ghost predicate KgcIsBack(k: KGc, tab: seq<Bytes>, d: Bytes, pos: nat, t: seq<Bytes>) {
    pos <= |d| && var r := ReadKgc(d, pos, t);
      r.Some? && r.value.pos == pos + |OneKgc(k, tab)| && t <= r.value.tab && SameKgc(k, tab, r.value.v, r.value.tab)
  }

  /** Where the bytes of a prototype stand, reading gives the same prototype back,
      at any depth of functions inside functions, and ends where they end. */
  lemma {:induction false} ProtoBack(p: Proto, tab: seq<Bytes>, d: Bytes, pos: nat, t: seq<Bytes>)
    requires Wf(p, tab) && Plain(p.kgc) && At(d, pos, ProtoBytes(p, tab))
    ensures ProtoIsBack(p, tab, d, pos, t)
    decreases p
  {
    hide Fields, ReadFields, Vectors, ReadVectors, ReadSource, KgcBytes, ReadKgcs, SameKgcs, WfKgcs, Plain, Pow256, Below, At, SourceBytes, Head, SameSource;
    var h, s, v, k := Fields(Head(p), HEAD_WIDTHS), SourceBytes(p.source, tab), Vectors(p), KgcBytes(p.kgc, tab);
    AtParts(d, pos, h, s + (v + k));
    AtParts(d, pos + |h|, s, v + k);
    AtParts(d, pos + |h| + |s|, v, k);
    HeadFits(p, tab);
    FieldsBack(d, pos, Head(p), HEAD_WIDTHS);
    SourceBack(p.source, tab, d, pos + |h|, t);
    VectorsBack(p, tab, d, pos + |h| + |s|);
    var t2 := ReadSource(d, pos + |h|, t).value.tab;
    KgcsBack(p.kgc, tab, d, pos + |h| + |s| + |v|, t2);
    ProtoJoins(p, tab, d, pos, t, Head(p), pos + |h|, pos + |h| + |s|, pos + |h| + |s| + |v|);
  }

  /** The parts of a prototype, read one behind the other: the numbers at its
      front, where any number of string slots may stand, the source, the vectors
      and the constants. */
  lemma ProtoJoins(p: Proto, tab: seq<Bytes>, d: Bytes, pos: nat, t: seq<Bytes>, h: seq<int>, p1: nat, p2: nat, p3: nat)
    requires pos <= p1 <= p2 <= p3 <= |d|
    requires |h| == |HEAD_WIDTHS| && h[6] >= 0 && h == Head(p)[6 := h[6]]
    requires ReadFields(d, pos, HEAD_WIDTHS) == Some((h, p1))
    requires SourceIsBack(p.source, tab, d, p1, t, p2)
    requires ReadVectors(d, p2, h) == Some(((p.bc, p.lines, p.kn, p.uv, p.uvnames), p3))
    requires KgcsAreBack(p.kgc, tab, d, p3, ReadSource(d, p1, t).value.tab)
    ensures var r := ReadProto(d, pos, t);
      r.Some? && r.value.pos == p3 + |KgcBytes(p.kgc, tab)| && t <= r.value.tab && SameProto(p, tab, r.value.v, r.value.tab)
  {
    hide Fields, ReadFields, Vectors, ReadVectors, ReadSource, KgcBytes, ReadKgcs, SameKgcs, SourceBytes;
    var r := ReadSource(d, p1, t).value;
    var k := ReadKgcs(d, p3, r.tab, |p.kgc|).value;
    var q := Proto(p.flags, p.numparams, p.framesize, p.bc, p.lines, k.v, p.kn, p.uv, p.uvnames, p.firstline, p.numline, r.v);
    assert ReadProto(d, pos, t) == Some(Got(q, k.pos, k.tab));
    assert SameSource(p.source, tab, q.source, k.tab);
  }

  lemma {:induction false} KgcsBack(ks: seq<KGc>, tab: seq<Bytes>, d: Bytes, pos: nat, t: seq<Bytes>)
    requires WfKgcs(ks, tab) && Plain(ks) && At(d, pos, KgcBytes(ks, tab))
    ensures KgcsAreBack(ks, tab, d, pos, t)
    decreases ks
  {
    if ks != [] {
      hide ReadKgc, OneKgc, SameKgc, WfKgc, PlainKgc;
      AtParts(d, pos, OneKgc(ks[0], tab), KgcBytes(ks[1..], tab));
      KgcBack(ks[0], tab, d, pos, t);
      var r := ReadKgc(d, pos, t).value;
      KgcsBack(ks[1..], tab, d, r.pos, r.tab);
      var r2 := ReadKgcs(d, r.pos, r.tab, |ks| - 1).value;
      SameKgcGrows(ks[0], tab, r.v, r.tab, r2.tab);
    }
  }

  lemma {:induction false} KgcBack(k: KGc, tab: seq<Bytes>, d: Bytes, pos: nat, t: seq<Bytes>)
    requires WfKgc(k, tab) && PlainKgc(k) && At(d, pos, OneKgc(k, tab))
    ensures KgcIsBack(k, tab, d, pos, t)
    decreases k
  {
    hide ReadProto, ProtoBytes, SameProto, Wf, Plain, Pow256, Le, LeVal;
    assert d[pos] == d[pos..pos + |OneKgc(k, tab)|][0];
    match k
    case KStr(sid) =>
      AtParts(d, pos, [0], StrBytes(Get(tab, sid), 4));
      StrBack(d, pos + 1, Get(tab, sid), 4);
    case KProto(p) =>
      AtParts(d, pos, [1], ProtoBytes(p, tab));
      ProtoBack(p, tab, d, pos + 1, t);
    case _ =>
  }

  // -- Emptied constants ---------------------------------------------------------------------

  /** The constants without the contents of tables and the bytes of C values. */
  function Emptied(ks: seq<KGc>): (es: seq<KGc>)
    ensures |es| == |ks|
    decreases ks
  { if ks == [] then [] else [EmptiedKgc(ks[0])] + Emptied(ks[1..]) }

  function EmptiedKgc(k: KGc): KGc
    decreases k
  { match k case KStr(_) => k case KProto(p) => KProto(p.(kgc := Emptied(p.kgc))) case KTable(_) => KTable(NOTHING) case KCData(_) => KCData(NOTHING) }

  /** Emptying changes neither the bytes nor what fits. */
  lemma {:induction false} EmptiedFits(ks: seq<KGc>, tab: seq<Bytes>)
    ensures Plain(Emptied(ks)) && KgcBytes(Emptied(ks), tab) == KgcBytes(ks, tab) && (WfKgcs(ks, tab) ==> WfKgcs(Emptied(ks), tab))
    decreases ks
  {
    if ks != [] {
      EmptiedKgcFits(ks[0], tab);
      EmptiedFits(ks[1..], tab);
      assert Emptied(ks)[1..] == Emptied(ks[1..]);
    }
  }

  lemma {:induction false} EmptiedKgcFits(k: KGc, tab: seq<Bytes>)
    ensures PlainKgc(EmptiedKgc(k)) && OneKgc(EmptiedKgc(k), tab) == OneKgc(k, tab) && (WfKgc(k, tab) ==> WfKgc(EmptiedKgc(k), tab))
    decreases k
  {
    if k.KProto? { EmptiedProtoFits(k.p, tab); }
  }

  lemma {:induction false} EmptiedProtoFits(p: Proto, tab: seq<Bytes>)
    ensures var e := p.(kgc := Emptied(p.kgc));
      Plain(e.kgc) && ProtoBytes(e, tab) == ProtoBytes(p, tab) && (Wf(p, tab) ==> Wf(e, tab))
    decreases p
  {
    hide Fields, Names, Below, Pow256;
    EmptiedFits(p.kgc, tab);
  }

  lemma {:induction false} PlainKept(ks: seq<KGc>)
    requires Plain(ks)
    ensures Emptied(ks) == ks
    decreases ks
  {
    if ks != [] {
      PlainKgcKept(ks[0]);
      PlainKept(ks[1..]);
      assert [ks[0]] + ks[1..] == ks;
    }
  }

  lemma {:induction false} PlainKgcKept(k: KGc)
    requires PlainKgc(k)
    ensures EmptiedKgc(k) == k
    decreases k
  {
    if k.KProto? {
      PlainKept(k.p.kgc);
      assert k.p.(kgc := k.p.kgc) == k.p;
    }
  }

  /** Equal constants are plain together, and fit together. */
  lemma {:induction false} SamePlain(ks: seq<KGc>, tab: seq<Bytes>, qs: seq<KGc>, t: seq<Bytes>)
    requires SameKgcs(ks, tab, qs, t)
    ensures Plain(ks) == Plain(qs) && WfKgcs(ks, tab) == WfKgcs(qs, t)
    decreases ks
  {
    if ks != [] {
      SamePlainKgc(ks[0], tab, qs[0], t);
      SamePlain(ks[1..], tab, qs[1..], t);
    }
  }

  lemma {:induction false} SamePlainKgc(k: KGc, tab: seq<Bytes>, q: KGc, t: seq<Bytes>)
    requires SameKgc(k, tab, q, t)
    ensures PlainKgc(k) == PlainKgc(q) && WfKgc(k, tab) == WfKgc(q, t)
    decreases k
  {
    if k.KProto? { SamePlainProto(k.p, tab, q.p, t); }
  }

  lemma {:induction false} SamePlainProto(p: Proto, tab: seq<Bytes>, q: Proto, t: seq<Bytes>)
    requires SameProto(p, tab, q, t)
    ensures Plain(p.kgc) == Plain(q.kgc) && Wf(p, tab) == Wf(q, t)
    decreases p
  {
    hide Below, Pow256;
    SamePlain(p.kgc, tab, q.kgc, t);
  }

  // -- What is read fits ------------------------------------------------------------------------

  lemma {:induction false} LeValFits(b: Bytes)
    ensures LeVal(b) < Pow256(|b|)
  {
    if b != [] { LeValFits(b[1..]); }
  }

  lemma {:induction false} FieldsFit(d: Bytes, pos: nat, ws: seq<nat>)
    requires pos <= |d| && ReadFields(d, pos, ws).Some?
    ensures Fit(ReadFields(d, pos, ws).value.0, ws)
    decreases |ws|
  {
    if ws != [] {
      hide LeVal, Pow256;
      LeValFits(d[pos..pos + ws[0]]);
      FieldsFit(d, pos + ws[0], ws[1..]);
      var vs, us := ReadFields(d, pos, ws).value.0, ReadFields(d, pos + ws[0], ws[1..]).value.0;
      assert vs == [LeVal(d[pos..pos + ws[0]])] + us;
    }
  }

  lemma StrReadFits(d: Bytes, pos: nat, w: nat)
    requires pos <= |d| && ReadStr(d, pos, w).Some?
    ensures |ReadStr(d, pos, w).value.0| < Pow256(w)
  {
    LeValFits(d[pos..pos + w]);
  }

  lemma {:induction false} NamesFit(d: Bytes, pos: nat, n: nat)
    requires pos <= |d| && ReadNames(d, pos, n).Some?
    ensures var ns := ReadNames(d, pos, n).value.0;
      |ns| == n && forall i {:trigger ns[i]} :: 0 <= i < n ==> |ns[i]| < Pow256(2)
    decreases n
  {
    hide Pow256;
    if n > 0 {
      StrReadFits(d, pos, 2);
      NamesFit(d, ReadStr(d, pos, 2).value.1, n - 1);
    }
  }

  /** The fields of a vector of one width. */
  lemma SameFits(d: Bytes, pos: nat, w: nat, n: nat)
    requires pos <= |d| && ReadFields(d, pos, Same(w, n)).Some?
    ensures Below(ReadFields(d, pos, Same(w, n)).value.0, w)
  {
    hide ReadFields, Pow256;
    FieldsFit(d, pos, Same(w, n));
  }

  ghost predicate VectorsFit(v: (seq<int>, seq<int>, seq<int>, seq<int>, seq<Bytes>), h: seq<int>)
    requires |h| == |HEAD_WIDTHS|
  {
    && |v.0| == |v.1| == h[3] && |v.2| == h[5] && |v.3| == h[7] && |v.4| == h[8]
    && Below(v.0, 4) && Below(v.1, 4) && Below(v.2, 8) && Below(v.3, 2)
    && forall i {:trigger v.4[i]} :: 0 <= i < |v.4| ==> |v.4[i]| < Pow256(2)
  }

  lemma VectorsReadFit(d: Bytes, pos: nat, h: seq<int>)
    requires pos <= |d| && |h| == |HEAD_WIDTHS| && h[3] >= 0 && h[5] >= 0 && h[6] >= 0 && h[7] >= 0 && h[8] >= 0 && ReadVectors(d, pos, h).Some?
    ensures VectorsFit(ReadVectors(d, pos, h).value.0, h)
  {
    hide ReadFields, ReadNames, Below, Pow256;
    SameFits(d, pos, 4, h[3]);
    var p1 := ReadFields(d, pos, Same(4, h[3])).value.1;
    SameFits(d, p1, 4, h[3]);
    var p2 := ReadFields(d, p1, Same(4, h[3])).value.1;
    SameFits(d, p2, 8, h[5]);
    var p4 := ReadFields(d, ReadFields(d, p2, Same(8, h[5])).value.1, Same(4, h[6])).value.1;
    SameFits(d, p4, 2, h[7]);
    NamesFit(d, ReadFields(d, p4, Same(2, h[7])).value.1, h[8]);
  }

  /** Whatever the bytes are: a prototype that was read fits the format, and its
      table constants are empty. */
  lemma {:induction false} ReadFits(d: Bytes, pos: nat, t: seq<Bytes>)
    requires pos <= |d| && ReadProto(d, pos, t).Some?
    ensures var g := ReadProto(d, pos, t).value;
      t <= g.tab && Wf(g.v, g.tab) && Plain(g.v.kgc)
    decreases |d| - pos, 1, 0
  {
    hide Fields, ReadFields, ReadVectors, ReadSource, ReadKgcs, WfKgcs, Plain, Pow256, Below;
    var (h, p1) := ReadFields(d, pos, HEAD_WIDTHS).value;
    FieldsFit(d, pos, HEAD_WIDTHS);
    HeadReadFits(h);
    var g1 := ReadSource(d, p1, t).value;
    SourceReadFits(d, p1, t);
    var (v, p3) := ReadVectors(d, g1.pos, h).value;
    VectorsReadFit(d, g1.pos, h);
    KgcsReadFit(d, p3, g1.tab, h[4]);
  }

  lemma HeadReadFits(h: seq<int>)
    requires |h| == |HEAD_WIDTHS| && Fit(h, HEAD_WIDTHS)
    ensures 0 <= h[0] < Pow256(2) && 0 <= h[1] < Pow256(1) && 0 <= h[2] < Pow256(1) && 0 <= h[9] < Pow256(4) && 0 <= h[10] < Pow256(4)
    ensures 0 <= h[3] < Pow256(4) && 0 <= h[4] < Pow256(4) && 0 <= h[5] < Pow256(4) && 0 <= h[7] < Pow256(4) && 0 <= h[8] < Pow256(4)
  {
    hide Pow256;
  }

  lemma SourceReadFits(d: Bytes, pos: nat, t: seq<Bytes>)
    requires pos <= |d| && ReadSource(d, pos, t).Some?
    ensures var g := ReadSource(d, pos, t).value;
      t <= g.tab && (g.v.Some? ==> StrFits(g.tab, g.v.value))
  {
    hide Pow256;
    if d[pos] != 0 { StrReadFits(d, pos + 1, 4); }
  }

  lemma {:induction false} KgcsReadFit(d: Bytes, pos: nat, t: seq<Bytes>, n: nat)
    requires pos <= |d| && ReadKgcs(d, pos, t, n).Some?
    ensures var g := ReadKgcs(d, pos, t, n).value;
      |g.v| == n && t <= g.tab && WfKgcs(g.v, g.tab) && Plain(g.v)
    decreases |d| - pos, 0, n
  {
    if n > 0 {
      hide ReadKgc, WfKgc, PlainKgc;
      KgcReadFits(d, pos, t);
      var g := ReadKgc(d, pos, t).value;
      KgcsReadFit(d, g.pos, g.tab, n - 1);
      var g2 := ReadKgcs(d, g.pos, g.tab, n - 1).value;
      WfKgcGrows(g.v, g.tab, g2.tab);
    }
  }

  lemma {:induction false} KgcReadFits(d: Bytes, pos: nat, t: seq<Bytes>)
    requires pos <= |d| && ReadKgc(d, pos, t).Some?
    ensures var g := ReadKgc(d, pos, t).value;
      t <= g.tab && WfKgc(g.v, g.tab) && PlainKgc(g.v)
    decreases |d| - pos, 0, 0
  {
    hide Pow256;
    if d[pos] == 0 {
      StrReadFits(d, pos + 1, 4);
    } else if d[pos] == 1 {
      ReadFits(d, pos + 1, t);
    }
  }

  // -- The round trip -------------------------------------------------------------------------

  /** The same prototype comes back, whatever is in the reader's interner. */
  predicate SameAgain(p: Proto, tab: seq<Bytes>, t: seq<Bytes>) {
    var r := ReadDump(DumpBytes(p, tab), t);
    r.Loaded? && SameProto(p, tab, r.got.v, r.got.tab)
  }

  lemma DumpStarts(p: Proto, tab: seq<Bytes>)
    ensures var d := DumpBytes(p, tab);
      |d| >= 5 && d[..3] == MAGIC && d[3] == VERSION && At(d, 5, ProtoBytes(p, tab)) && |d| == 5 + |ProtoBytes(p, tab)|
  {
    hide ProtoBytes;
    var d := DumpBytes(p, tab);
    assert d[5..] == ProtoBytes(p, tab);
  }

  /** A dump is read to its last byte, and gives the prototype with its table
      constants emptied; the strings already interned keep their numbers. */
  lemma DumpReads(p: Proto, tab: seq<Bytes>, t: seq<Bytes>)
    requires Wf(p, tab)
    ensures var r := ReadDump(DumpBytes(p, tab), t);
      r.Loaded? && r.got.pos == |DumpBytes(p, tab)| && t <= r.got.tab && SameProto(p.(kgc := Emptied(p.kgc)), tab, r.got.v, r.got.tab)
  {
    hide ProtoBytes, ReadProto, SameProto, Wf, Plain;
    DumpStarts(p, tab);
    EmptiedProtoFits(p, tab);
    ProtoBack(p.(kgc := Emptied(p.kgc)), tab, DumpBytes(p, tab), 5, t);
  }

  /** The same prototype comes back if and only if its numbers fit their fields,
      it has one line for each instruction, and no table constant has contents. */
  lemma RoundTrips(p: Proto, tab: seq<Bytes>, t: seq<Bytes>)
    ensures SameAgain(p, tab, t) <==> Wf(p, tab) && Plain(p.kgc)
  {
    hide ProtoBytes, ReadProto, SameProto, Wf, Plain;
    if Wf(p, tab) && Plain(p.kgc) {
      DumpReads(p, tab, t);
      PlainKept(p.kgc);
    }
    if SameAgain(p, tab, t) {
      DumpStarts(p, tab);
      ReadFits(DumpBytes(p, tab), 5, t);
      var g := ReadDump(DumpBytes(p, tab), t).got;
      SamePlainProto(p, tab, g.v, g.tab);
    }
  }
}
