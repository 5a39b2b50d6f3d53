/** Writing a prototype to bytes and reading it from bytes, as the writer's
    buffer grows and the reader's position moves. */
module Dumper {
  import opened Wrappers
  import opened DumpFormat
  import opened DumpRoundTrip

  // -- Interned strings ----------------------------------------------------------------

  class Interner {
    var byId: seq<Bytes>
    var ids: map<Bytes, nat>

    ghost predicate Valid()
      reads this
    {
      && (forall b :: b in ids ==> ids[b] < |byId| && byId[ids[b]] == b)
      && (forall i {:trigger byId[i]} :: 0 <= i < |byId| ==> byId[i] in ids && ids[byId[i]] == i)
    }

    constructor ()
      ensures Valid() && byId == []
    {
      byId, ids := [], map[];
    }

    method Intern(b: Bytes) returns (sid: nat)
      requires Valid()
      modifies this
      ensures Valid() && (sid, byId) == DumpFormat.Intern(old(byId), b)
    {
      if b in ids {
        FindFirst(b);
        sid := ids[b];
      } else {
        FindNone(b);
        sid := |byId|;
        byId, ids := byId + [b], ids[b := |byId|];
      }
    }

    lemma FindFirst(b: Bytes)
      requires Valid() && b in ids
      ensures Find(byId, b) == ids[b]
    {
      FindAt(byId, b, ids[b]);
      assert byId[Find(byId, b)] == b;
    }

    lemma FindNone(b: Bytes)
      requires Valid() && b !in ids
      ensures Find(byId, b) == |byId|
    {
    }
  }

  lemma {:induction false} FindAt(tab: seq<Bytes>, b: Bytes, i: nat)
    requires i < |tab| && tab[i] == b
    ensures Find(tab, b) <= i
  {
    if tab[0] != b { FindAt(tab[1..], b, i - 1); }
  }

  // -- Writing ---------------------------------------------------------------------------

  class Writer {
    var out: Bytes

    constructor ()
      ensures out == []
    {
      out := [];
    }

    /** A number of `w` bytes, lowest byte first. */
    method WNum(v: int, w: nat)
      modifies this
      ensures out == old(out) + Le(v, w)
    {
      var v', i := v, 0;
      while i < w
        invariant i <= w && out + Le(v', w - i) == old(out) + Le(v, w)
      {
        out := out + [v' % 256];
        v', i := v' / 256, i + 1;
      }
    }

    method WBytes(b: Bytes)
      modifies this
      ensures out == old(out) + b
    {
      out := out + b;
    }

    method WVector(vs: seq<int>, w: nat)
      modifies this
      ensures out == old(out) + Fields(vs, Same(w, |vs|))
    {
      hide Le;
      var i := 0;
      while i < |vs|
        invariant i <= |vs| && out + Fields(vs[i..], Same(w, |vs| - i)) == old(out) + Fields(vs, Same(w, |vs|))
      {
        FieldsSplit(vs, w, i);
        ghost var was := out;
        WNum(vs[i], w);
        assert out + Fields(vs[i + 1..], Same(w, |vs| - i - 1)) == was + Fields(vs[i..], Same(w, |vs| - i));
        i := i + 1;
      }
    }

    method WNames(ns: seq<Bytes>)
      modifies this
      ensures out == old(out) + Names(ns)
    {
      hide Le;
      var i := 0;
      while i < |ns|
        invariant i <= |ns| && out + Names(ns[i..]) == old(out) + Names(ns)
      {
        ghost var was := out;
        WNum(|ns[i]|, 2);
        WBytes(ns[i]);
        assert ns[i..][1..] == ns[i + 1..];
        assert out + Names(ns[i + 1..]) == was + Names(ns[i..]);
        i := i + 1;
      }
    }

    method WStr(sid: int, strs: Interner)
      modifies this
      ensures out == old(out) + StrBytes(Get(strs.byId, sid), 4)
    {
      hide Le, Get;
      var b := Get(strs.byId, sid);
      WNum(|b|, 4);
      WBytes(b);
    }

    method WriteKgc(k: KGc, strs: Interner)
      modifies this
      ensures out == old(out) + OneKgc(k, strs.byId)
      decreases k
    {
      hide ProtoBytes, StrBytes;
      match k
      case KStr(sid) =>
        WBytes([0]);
        WStr(sid, strs);
      case KProto(p) =>
        WBytes([1]);
        WriteProto(p, strs);
      case KTable(_) =>
        WBytes([2]);
      case KCData(_) =>
        WBytes([3]);
    }

    method WriteHead(pt: Proto)
      modifies this
      ensures out == old(out) + Fields(Head(pt), HEAD_WIDTHS)
    {
      hide Le;
      WNum(pt.flags, 2);
      WNum(pt.numparams, 1);
      WNum(pt.framesize, 1);
      WNum(|pt.bc|, 4);
      WNum(|pt.kgc|, 4);
      WNum(|pt.kn|, 4);
      WNum(0, 4);
      WNum(|pt.uv|, 4);
      WNum(|pt.uvnames|, 4);
      WNum(pt.firstline, 4);
      WNum(pt.numline, 4);
      HeadFields(pt);
    }

    method WriteSource(source: Option<int>, strs: Interner)
      modifies this
      ensures out == old(out) + SourceBytes(source, strs.byId)
    {
      hide StrBytes, Get;
      if source.Some? {
        WBytes([1]);
        WStr(source.value, strs);
      } else {
        WBytes([0]);
      }
    }

    method WriteVectors(pt: Proto)
      modifies this
      ensures out == old(out) + Vectors(pt)
    {
      hide Fields, Names;
      WVector(pt.bc, 4);
      WVector(pt.lines, 4);
      WVector(pt.kn, 8);
      WVector(pt.uv, 2);
      WNames(pt.uvnames);
    }

    method WriteProto(pt: Proto, strs: Interner)
      modifies this
      ensures out == old(out) + ProtoBytes(pt, strs.byId)
      decreases pt
    {
      hide Fields, Vectors, SourceBytes, OneKgc, Head;
      WriteHead(pt);
      WriteSource(pt.source, strs);
      WriteVectors(pt);
      ghost var before := out;
      var i := 0;
      while i < |pt.kgc|
        invariant i <= |pt.kgc| && out + KgcBytes(pt.kgc[i..], strs.byId) == before + KgcBytes(pt.kgc, strs.byId)
      {
        ghost var was := out;
        WriteKgc(pt.kgc[i], strs);
        assert pt.kgc[i..][1..] == pt.kgc[i + 1..];
        assert out + KgcBytes(pt.kgc[i + 1..], strs.byId) == was + KgcBytes(pt.kgc[i..], strs.byId);
        i := i + 1;
      }
      assert out == before + KgcBytes(pt.kgc, strs.byId);
      assert out == old(out) + (Fields(Head(pt), HEAD_WIDTHS) + (SourceBytes(pt.source, strs.byId) + (Vectors(pt) + KgcBytes(pt.kgc, strs.byId))));
    }
  }

  lemma FieldsSplit(vs: seq<int>, w: nat, i: nat)
    requires i < |vs|
    ensures Fields(vs[i..], Same(w, |vs| - i)) == Le(vs[i], w) + Fields(vs[i + 1..], Same(w, |vs| - i - 1))
  {
    assert vs[i..][1..] == vs[i + 1..];
    assert Same(w, |vs| - i)[1..] == Same(w, |vs| - i - 1);
  }

  lemma HeadFields(p: Proto)
    ensures Fields(Head(p), HEAD_WIDTHS)
      == Le(p.flags, 2) + Le(p.numparams, 1) + Le(p.framesize, 1) + Le(|p.bc|, 4) + Le(|p.kgc|, 4) + Le(|p.kn|, 4) + Le(0, 4)
        + Le(|p.uv|, 4) + Le(|p.uvnames|, 4) + Le(p.firstline, 4) + Le(p.numline, 4)
  {
    hide Le;
    var v, w := Head(p), HEAD_WIDTHS;
    assert Fields(v[11..], w[11..]) == [];
    FieldsStep(v, w, 10);
    FieldsStep(v, w, 9);
    FieldsStep(v, w, 8);
    FieldsStep(v, w, 7);
    FieldsStep(v, w, 6);
    FieldsStep(v, w, 5);
    FieldsStep(v, w, 4);
    FieldsStep(v, w, 3);
    FieldsStep(v, w, 2);
    FieldsStep(v, w, 1);
    FieldsStep(v, w, 0);
    assert v[0..] == v && w[0..] == w;
  }

  lemma FieldsStep(vs: seq<int>, ws: seq<nat>, i: nat)
    requires i < |vs| == |ws|
    ensures Fields(vs[i..], ws[i..]) == Le(vs[i], ws[i]) + Fields(vs[i + 1..], ws[i + 1..])
  {
    assert vs[i..][1..] == vs[i + 1..] && ws[i..][1..] == ws[i + 1..];
  }

  method Dump(pt: Proto, strs: Interner) returns (out: Bytes)
    ensures out == DumpBytes(pt, strs.byId)
  {
    hide ProtoBytes;
    var w := new Writer();
    w.WBytes(MAGIC);
    w.WBytes([VERSION]);
    w.WBytes([0]);
    w.WriteProto(pt, strs);
    out := w.out;
    assert MAGIC + [VERSION] + [0] == MAGIC + [VERSION, 0];
  }

  // -- Reading -----------------------------------------------------------------------------

  /** The value read by a function of the format at the reader's position: where
      it fails the source stops with a panic. */
  class Reader {
    const data: Bytes
    var pos: nat

    ghost predicate Valid()
      reads this
    { pos <= |data| }

    constructor (data: Bytes)
      ensures this.data == data && pos == 0
    {
      this.data, pos := data, 0;
    }

    method ReadBytes(len: nat) returns (b: Option<Bytes>)
      requires Valid()
      modifies this
      ensures Valid() && b == if old(pos) + len <= |data| then Some(data[old(pos)..old(pos) + len]) else None
      ensures pos == if b.Some? then old(pos) + len else old(pos)
    {
      if pos + len > |data| { return None; }
      b := Some(data[pos..pos + len]);
      pos := pos + len;
    }

    method ReadNum(w: nat) returns (v: Option<nat>)
      requires Valid()
      modifies this
      ensures Valid() && v == if old(pos) + w <= |data| then Some(LeVal(data[old(pos)..old(pos) + w])) else None
      ensures pos == if v.Some? then old(pos) + w else old(pos)
    {
      var b := ReadBytes(w);
      if b.None? { return None; }
      var bs := b.value;
      var n: nat, i := 0, |bs|;
      while i > 0
        invariant 0 <= i <= |bs| && n == LeVal(bs[i..])
      {
        i := i - 1;
        assert bs[i..][1..] == bs[i + 1..];
        n := bs[i] + 256 * n;
      }
      assert bs[0..] == bs;
      v := Some(n);
    }

    /** Numbers of the given widths. */
    method ReadWidths(ws: seq<nat>) returns (r: Option<seq<int>>)
      requires Valid()
      modifies this
      ensures Valid() && r.Some? == ReadFields(data, old(pos), ws).Some?
      ensures r.Some? ==> (r.value, pos) == ReadFields(data, old(pos), ws).value
    {
      hide LeVal;
      var vs, i := [], 0;
      RestStart(ReadFields(data, pos, ws));
      assert ws[0..] == ws;
      while i < |ws|
        invariant Valid() && i <= |ws|
        invariant Rest(ReadFields(data, old(pos), ws), vs, ReadFields(data, pos, ws[i..]))
      {
        hide ReadFields;
        ghost var p := pos;
        FieldStep(data, pos, ws, i);
        var v := ReadNum(ws[i]);
        if v.None? { return None; }
        RestStep(ReadFields(data, old(pos), ws), vs, ReadFields(data, p, ws[i..]), v.value, ReadFields(data, pos, ws[i + 1..]));
        vs, i := vs + [v.value], i + 1;
      }
      assert vs + [] == vs;
      r := Some(vs);
    }

    method ReadVector(n: nat, w: nat) returns (r: Option<seq<int>>)
      requires Valid()
      modifies this
      ensures Valid() && r.Some? == ReadFields(data, old(pos), Same(w, n)).Some?
      ensures r.Some? ==> (r.value, pos) == ReadFields(data, old(pos), Same(w, n)).value
    {
      r := ReadWidths(Same(w, n));
    }

    method ReadString(w: nat) returns (b: Option<Bytes>)
      requires Valid()
      modifies this
      ensures Valid() && b.Some? == ReadStr(data, old(pos), w).Some?
      ensures b.Some? ==> (b.value, pos) == ReadStr(data, old(pos), w).value
    {
      hide LeVal;
      var len := ReadNum(w);
      if len.None? { return None; }
      b := ReadBytes(len.value);
    }

    method ReadUvNames(n: nat) returns (r: Option<seq<Bytes>>)
      requires Valid()
      modifies this
      ensures Valid() && r.Some? == ReadNames(data, old(pos), n).Some?
      ensures r.Some? ==> (r.value, pos) == ReadNames(data, old(pos), n).value
    {
      hide ReadStr;
      var ns, i := [], 0;
      RestStart(ReadNames(data, pos, n));
      while i < n
        invariant Valid() && i <= n
        invariant Rest(ReadNames(data, old(pos), n), ns, ReadNames(data, pos, n - i))
      {
        ghost var p := pos;
        var b := ReadString(2);
        if b.None? { return None; }
        RestStep(ReadNames(data, old(pos), n), ns, ReadNames(data, p, n - i), b.value, ReadNames(data, pos, n - i - 1));
        ns, i := ns + [b.value], i + 1;
      }
      assert ns + [] == ns;
      r := Some(ns);
    }

    /** The flag and the name of the source. */
    method ReadSourceName(strs: Interner) returns (r: Option<Option<int>>)
      requires Valid() && strs.Valid()
      modifies this, strs
      ensures Valid() && strs.Valid() && r.Some? == ReadSource(data, old(pos), old(strs.byId)).Some?
      ensures r.Some? ==> Got(r.value, pos, strs.byId) == ReadSource(data, old(pos), old(strs.byId)).value
    {
      hide ReadStr, LeVal;
      var has := ReadBytes(1);
      if has.None? { return None; }
      if has.value[0] == 0 { return Some(None); }
      var b := ReadString(4);
      if b.None? { return None; }
      var sid := strs.Intern(b.value);
      r := Some(Option.Some(sid));
    }

    method ReadVecs(h: seq<int>) returns (r: Option<(seq<int>, seq<int>, seq<int>, seq<int>, seq<Bytes>)>)
      requires Valid() && |h| == |HEAD_WIDTHS| && h[3] >= 0 && h[5] >= 0 && h[6] >= 0 && h[7] >= 0 && h[8] >= 0
      modifies this
      ensures Valid() && r.Some? == ReadVectors(data, old(pos), h).Some?
      ensures r.Some? ==> (r.value, pos) == ReadVectors(data, old(pos), h).value
    {
      hide ReadFields, ReadNames;
      var bc := ReadVector(h[3], 4);
      if bc.None? { return None; }
      var lines := ReadVector(h[3], 4);
      if lines.None? { return None; }
      var kn := ReadVector(h[5], 8);
      if kn.None? { return None; }
      var kstrv := ReadVector(h[6], 4);
      if kstrv.None? { return None; }
      var uv := ReadVector(h[7], 2);
      if uv.None? { return None; }
      var names := ReadUvNames(h[8]);
      if names.None? { return None; }
      r := Some((bc.value, lines.value, kn.value, uv.value, names.value));
    }

    method ReadConst(strs: Interner) returns (r: Option<KGc>)
      requires Valid() && strs.Valid()
      modifies this, strs
      ensures Valid() && strs.Valid() && r.Some? == ReadKgc(data, old(pos), old(strs.byId)).Some?
      ensures r.Some? ==> Got(r.value, pos, strs.byId) == ReadKgc(data, old(pos), old(strs.byId)).value
      decreases |data| - pos, 0, 0
    {
      hide ReadStr, ReadProto;
      var tag := ReadBytes(1);
      if tag.None? { return None; }
      if tag.value[0] == 0 {
        var b := ReadString(4);
        if b.None? { return None; }
        var sid := strs.Intern(b.value);
        r := Some(KStr(sid));
      } else if tag.value[0] == 1 {
        var p := ReadPrototype(strs);
        if p.None? { return None; }
        r := Some(KProto(p.value));
      } else if tag.value[0] == 2 {
        r := Some(KTable(NOTHING));
      } else if tag.value[0] == 3 {
        r := Some(KCData(NOTHING));
      } else {
        r := None;
      }
    }

    method ReadConsts(n: nat, strs: Interner) returns (r: Option<seq<KGc>>)
      requires Valid() && strs.Valid()
      modifies this, strs
      ensures Valid() && strs.Valid() && r.Some? == ReadKgcs(data, old(pos), old(strs.byId), n).Some?
      ensures r.Some? ==> Got(r.value, pos, strs.byId) == ReadKgcs(data, old(pos), old(strs.byId), n).value
      decreases |data| - pos, 0, n
    {
      hide ReadKgc;
      var ks, i := [], 0;
      KgcRestStart(ReadKgcs(data, pos, strs.byId, n));
      while i < n
        invariant Valid() && strs.Valid() && i <= n && old(pos) <= pos && (i > 0 ==> old(pos) < pos)
        invariant KgcRest(ReadKgcs(data, old(pos), old(strs.byId), n), ks, ReadKgcs(data, pos, strs.byId, n - i))
      {
        ghost var p, t := pos, strs.byId;
        var k := ReadConst(strs);
        if k.None? { return None; }
        KgcRestStep(ReadKgcs(data, old(pos), old(strs.byId), n), ks, ReadKgcs(data, p, t, n - i), k.value, ReadKgcs(data, pos, strs.byId, n - i - 1));
        ks, i := ks + [k.value], i + 1;
      }
      assert ks + [] == ks;
      r := Some(ks);
    }

    method ReadPrototype(strs: Interner) returns (r: Option<Proto>)
      requires Valid() && strs.Valid()
      modifies this, strs
      ensures Valid() && strs.Valid() && r.Some? == ReadProto(data, old(pos), old(strs.byId)).Some?
      ensures r.Some? ==> Got(r.value, pos, strs.byId) == ReadProto(data, old(pos), old(strs.byId)).value
      decreases |data| - pos, 1, 0
    {
      hide ReadFields, ReadSource, ReadVectors, ReadKgcs;
      var h := ReadWidths(HEAD_WIDTHS);
      if h.None? { return None; }
      var source := ReadSourceName(strs);
      if source.None? { return None; }
      var v := ReadVecs(h.value);
      if v.None? { return None; }
      var kgc := ReadConsts(h.value[4], strs);
      if kgc.None? { return None; }
      r := Some(Proto(h.value[0], h.value[1], h.value[2], v.value.0, v.value.1, kgc.value, v.value.2, v.value.3, v.value.4, h.value[9], h.value[10], source.value));
    }
  }

  /** All of a list is what was read of it and the rest. */
  ghost predicate Rest<T>(all: Option<(seq<T>, nat)>, vs: seq<T>, rest: Option<(seq<T>, nat)>) {
    all == match rest case None => None case Some((us, p)) => Some((vs + us, p))
  }

  lemma RestStart<T>(all: Option<(seq<T>, nat)>)
    ensures Rest(all, [], all)
  {
    if all.Some? { assert [] + all.value.0 == all.value.0; }
  }

  lemma RestStep<T>(all: Option<(seq<T>, nat)>, vs: seq<T>, rest: Option<(seq<T>, nat)>, v: T, rest2: Option<(seq<T>, nat)>)
    requires Rest(all, vs, rest) && Rest(rest, [v], rest2)
    ensures Rest(all, vs + [v], rest2)
  {
    if rest2.Some? { assert vs + ([v] + rest2.value.0) == vs + [v] + rest2.value.0; }
  }

  ghost predicate KgcRest(all: Option<Got<seq<KGc>>>, ks: seq<KGc>, rest: Option<Got<seq<KGc>>>) {
    all == match rest case None => None case Some(Got(us, p, t)) => Some(Got(ks + us, p, t))
  }

  lemma KgcRestStart(all: Option<Got<seq<KGc>>>)
    ensures KgcRest(all, [], all)
  {
    if all.Some? { assert [] + all.value.v == all.value.v; }
  }

  lemma KgcRestStep(all: Option<Got<seq<KGc>>>, ks: seq<KGc>, rest: Option<Got<seq<KGc>>>, k: KGc, rest2: Option<Got<seq<KGc>>>)
    requires KgcRest(all, ks, rest) && KgcRest(rest, [k], rest2)
    ensures KgcRest(all, ks + [k], rest2)
  {
    if rest2.Some? { assert ks + ([k] + rest2.value.v) == ks + [k] + rest2.value.v; }
  }

  lemma FieldStep(d: Bytes, pos: nat, ws: seq<nat>, i: nat)
    requires pos <= |d| && i < |ws|
    ensures var w := ws[i];
      if pos + w > |d| then ReadFields(d, pos, ws[i..]).None?
      else Rest(ReadFields(d, pos, ws[i..]), [LeVal(d[pos..pos + w])], ReadFields(d, pos + w, ws[i + 1..]))
  {
    assert ws[i..][1..] == ws[i + 1..];
  }

  datatype Undumped = Ok(p: Proto) | NotBytecode | OtherVersion(v: int) | CutShort

  ghost predicate Reads(r: Undumped, o: Outcome, tab: seq<Bytes>) {
    match o
    case Loaded(g) => r == Ok(g.v) && tab == g.tab
    case NotBytecode => r == Undumped.NotBytecode
    case OtherVersion(v) => r == Undumped.OtherVersion(v)
    case CutShort => r == Undumped.CutShort
  }

  method Undump(data: Bytes, strs: Interner) returns (r: Undumped)
    requires strs.Valid()
    modifies strs
    ensures strs.Valid() && Reads(r, ReadDump(data, old(strs.byId)), strs.byId)
  {
    hide ReadProto, LeVal;
    if |data| < 5 || data[..3] != MAGIC { return Undumped.NotBytecode; }
    var rd := new Reader(data);
    rd.pos := 3;
    var version := rd.ReadBytes(1);
    if version.value[0] as int != VERSION { return Undumped.OtherVersion(version.value[0]); }
    var _ := rd.ReadBytes(1);
    var p := rd.ReadPrototype(strs);
    if p.None? { return Undumped.CutShort; }
    r := Ok(p.value);
  }

  /** From one interner to another: what comes back is the same prototype exactly
      when its numbers fit, it has a line for each instruction and its table
      constants are empty. */
  method Transfer(p: Proto, from: Interner, to: Interner) returns (r: Undumped)
    requires from.Valid() && to.Valid() && from != to
    modifies to
    ensures to.Valid() && (Wf(p, from.byId) ==> r.Ok? && old(to.byId) <= to.byId)
    ensures (r.Ok? && SameProto(p, from.byId, r.p, to.byId)) <==> Wf(p, from.byId) && Plain(p.kgc)
  {
    hide DumpBytes, ReadDump, Wf, Plain, SameProto;
    var d := Dump(p, from);
    RoundTrips(p, from.byId, to.byId);
    if Wf(p, from.byId) { DumpReads(p, from.byId, to.byId); }
    r := Undump(d, to);
  }
}
