/** The binary format of function prototypes: what is written for a prototype,
    and what is read from bytes. */
module DumpFormat {
  import opened Wrappers

  type Byte = x: int | 0 <= x < 256
  type Bytes = seq<Byte>

  /** A collectable constant: an interned string, a function, or a table or C
      value, of which the format keeps only that it is one. */
  datatype KGc = KStr(sid: int) | KProto(p: Proto) | KTable(content: int) | KCData(content: int)

  datatype Proto = Proto(flags: int, numparams: int, framesize: int, bc: seq<int>, lines: seq<int>, kgc: seq<KGc>, kn: seq<int>,
                         uv: seq<int>, uvnames: seq<Bytes>, firstline: int, numline: int, source: Option<int>)

  const MAGIC: Bytes := [0x1b, 0x4c, 0x4a]
  const VERSION := 1

  /** The content of an empty table, and of a C value without bytes. */
  const NOTHING := 0

  // -- Numbers ---------------------------------------------------------------------

  /** The low `w` bytes of a number, lowest first. */
  function Le(v: int, w: nat): (b: Bytes)
    ensures |b| == w
    decreases w
  { if w == 0 then [] else [v % 256] + Le(v / 256, w - 1) }

  function LeVal(b: Bytes): nat { if b == [] then 0 else b[0] + 256 * LeVal(b[1..]) }

  function Pow256(w: nat): int { if w == 0 then 1 else 256 * Pow256(w - 1) }

  lemma {:induction false} LeBack(v: int, w: nat)
    requires 0 <= v < Pow256(w)
    ensures LeVal(Le(v, w)) == v
  {
    if w > 0 {
      assert Le(v, w)[1..] == Le(v / 256, w - 1);
      LeBack(v / 256, w - 1);
    }
  }

  /** Numbers of the given widths, one behind the other. */
  function Fields(vs: seq<int>, ws: seq<nat>): Bytes
    requires |vs| == |ws|
  { if vs == [] then [] else Le(vs[0], ws[0]) + Fields(vs[1..], ws[1..]) }

  function ReadFields(d: Bytes, pos: nat, ws: seq<nat>): (r: Option<(seq<int>, nat)>)
    requires pos <= |d|
    ensures r.Some? ==> pos <= r.value.1 <= |d| && |r.value.0| == |ws| && forall i {:trigger r.value.0[i]} :: 0 <= i < |ws| ==> r.value.0[i] >= 0
    decreases |ws|
  {
    if ws == [] then Some(([], pos))
    else if pos + ws[0] > |d| then None
    else
      match ReadFields(d, pos + ws[0], ws[1..])
      case None => None
      case Some((vs, p)) => Some(([LeVal(d[pos..pos + ws[0]])] + vs, p))
  }

  function Same(w: nat, n: nat): (ws: seq<nat>)
    ensures |ws| == n
  { seq(n, _ => w) }

  // -- Strings, constants, prototypes ------------------------------------------------

  function StrBytes(b: Bytes, w: nat): Bytes { Le(|b|, w) + b }

  function ReadStr(d: Bytes, pos: nat, w: nat): (r: Option<(Bytes, nat)>)
    requires pos <= |d|
    ensures r.Some? ==> pos <= r.value.1 <= |d|
  {
    if pos + w > |d| then None
    else
      var n := LeVal(d[pos..pos + w]);
      if pos + w + n > |d| then None else Some((d[pos + w..pos + w + n], pos + w + n))
  }

  function Names(ns: seq<Bytes>): Bytes { if ns == [] then [] else StrBytes(ns[0], 2) + Names(ns[1..]) }

  function ReadNames(d: Bytes, pos: nat, n: nat): (r: Option<(seq<Bytes>, nat)>)
    requires pos <= |d|
    ensures r.Some? ==> pos <= r.value.1 <= |d|
    decreases n
  {
    if n == 0 then Some(([], pos))
    else
      match ReadStr(d, pos, 2)
      case None => None
      case Some((b, p)) =>
        match ReadNames(d, p, n - 1)
        case None => None
        case Some((bs, q)) => Some(([b] + bs, q))
  }

  /** The contents of an interned string. */
  function Get(tab: seq<Bytes>, sid: int): Bytes { if 0 <= sid < |tab| then tab[sid] else [] }

  /** Where a string is in the table. */
  function Find(tab: seq<Bytes>, b: Bytes): (i: int)
    ensures 0 <= i <= |tab| && (i < |tab| ==> tab[i] == b)
  { if tab == [] then 0 else if tab[0] == b then 0 else 1 + Find(tab[1..], b) }

  /** Interning: the number of the string, and the table with it. */
  function Intern(tab: seq<Bytes>, b: Bytes): (r: (int, seq<Bytes>))
    ensures tab <= r.1 && 0 <= r.0 < |r.1| && r.1[r.0] == b
  {
    var i := Find(tab, b);
    if i < |tab| then (i, tab) else (|tab|, tab + [b])
  }

  const HEAD_WIDTHS: seq<nat> := [2, 1, 1, 4, 4, 4, 4, 4, 4, 4, 4]

  /** Flags, parameters, frame size; numbers of instructions, constants, number
      constants, string slots (none), upvalues, their names; lines. */
  function Head(p: Proto): (vs: seq<int>)
    ensures |vs| == |HEAD_WIDTHS|
  { [p.flags, p.numparams, p.framesize, |p.bc|, |p.kgc|, |p.kn|, 0, |p.uv|, |p.uvnames|, p.firstline, p.numline] }

  function SourceBytes(s: Option<int>, tab: seq<Bytes>): Bytes
  { if s.Some? then [1] + StrBytes(Get(tab, s.value), 4) else [0] }

  function Vectors(p: Proto): Bytes
  { Fields(p.bc, Same(4, |p.bc|)) + Fields(p.lines, Same(4, |p.lines|)) + Fields(p.kn, Same(8, |p.kn|)) + Fields(p.uv, Same(2, |p.uv|)) + Names(p.uvnames) }

  function ProtoBytes(p: Proto, tab: seq<Bytes>): Bytes
    decreases p
  { Fields(Head(p), HEAD_WIDTHS) + (SourceBytes(p.source, tab) + (Vectors(p) + KgcBytes(p.kgc, tab))) }

  function KgcBytes(ks: seq<KGc>, tab: seq<Bytes>): Bytes
    decreases ks
  { if ks == [] then [] else OneKgc(ks[0], tab) + KgcBytes(ks[1..], tab) }

  function OneKgc(k: KGc, tab: seq<Bytes>): (b: Bytes)
    ensures b != []
    decreases k
  {
    match k
    case KStr(sid) => [0] + StrBytes(Get(tab, sid), 4)
    case KProto(p) => [1] + ProtoBytes(p, tab)
    case KTable(_) => [2]
    case KCData(_) => [3]
  }

  function DumpBytes(p: Proto, tab: seq<Bytes>): Bytes { MAGIC + [VERSION, 0] + ProtoBytes(p, tab) }

  // -- Reading ------------------------------------------------------------------------

  /** What was read, where it ends, and the interner afterwards. */
  datatype Got<T> = Got(v: T, pos: nat, tab: seq<Bytes>)

  function ReadSource(d: Bytes, pos: nat, tab: seq<Bytes>): (r: Option<Got<Option<int>>>)
    requires pos <= |d|
    ensures r.Some? ==> pos < r.value.pos <= |d|
  {
    if pos == |d| then None
    else if d[pos] == 0 then Some(Got(None, pos + 1, tab))
    else
      match ReadStr(d, pos + 1, 4)
      case None => None
      case Some((b, p)) => var (sid, tab2) := Intern(tab, b); Some(Got(Option.Some(sid), p, tab2))
  }

  /** The vectors of the given lengths; old dumps may hold string slots, which
      are skipped. */
  function ReadVectors(d: Bytes, pos: nat, h: seq<int>): (r: Option<((seq<int>, seq<int>, seq<int>, seq<int>, seq<Bytes>), nat)>)
    requires pos <= |d| && |h| == |HEAD_WIDTHS| && h[3] >= 0 && h[5] >= 0 && h[6] >= 0 && h[7] >= 0 && h[8] >= 0
    ensures r.Some? ==> pos <= r.value.1 <= |d|
  {
    match ReadFields(d, pos, Same(4, h[3]))
    case None => None
    case Some((bc, p1)) =>
      match ReadFields(d, p1, Same(4, h[3]))
      case None => None
      case Some((lines, p2)) =>
        match ReadFields(d, p2, Same(8, h[5]))
        case None => None
        case Some((kn, p3)) =>
          match ReadFields(d, p3, Same(4, h[6]))
          case None => None
          case Some((_, p4)) =>
            match ReadFields(d, p4, Same(2, h[7]))
            case None => None
            case Some((uv, p5)) =>
              match ReadNames(d, p5, h[8])
              case None => None
              case Some((names, p6)) => Some(((bc, lines, kn, uv, names), p6))
  }

  function ReadProto(d: Bytes, pos: nat, tab: seq<Bytes>): (r: Option<Got<Proto>>)
    requires pos <= |d|
    ensures r.Some? ==> pos < r.value.pos <= |d|
    decreases |d| - pos, 1, 0
  {
    match ReadFields(d, pos, HEAD_WIDTHS)
    case None => None
    case Some((h, p1)) =>
      match ReadSource(d, p1, tab)
      case None => None
      case Some(Got(source, p2, tab2)) =>
        match ReadVectors(d, p2, h)
        case None => None
        case Some((vecs, p3)) =>
          match ReadKgcs(d, p3, tab2, h[4])
          case None => None
          case Some(Got(kgc, p4, tab3)) =>
            Some(Got(Proto(h[0], h[1], h[2], vecs.0, vecs.1, kgc, vecs.2, vecs.3, vecs.4, h[9], h[10], source), p4, tab3))
  }

  function ReadKgcs(d: Bytes, pos: nat, tab: seq<Bytes>, n: nat): (r: Option<Got<seq<KGc>>>)
    requires pos <= |d|
    ensures r.Some? ==> pos <= r.value.pos <= |d|
    decreases |d| - pos, 0, n
  {
    if n == 0 then Some(Got([], pos, tab))
    else
      match ReadKgc(d, pos, tab)
      case None => None
      case Some(Got(k, p, tab2)) =>
        match ReadKgcs(d, p, tab2, n - 1)
        case None => None
        case Some(Got(ks, q, tab3)) => Some(Got([k] + ks, q, tab3))
  }

  function ReadKgc(d: Bytes, pos: nat, tab: seq<Bytes>): (r: Option<Got<KGc>>)
    requires pos <= |d|
    ensures r.Some? ==> pos < r.value.pos <= |d|
    decreases |d| - pos, 0, 0
  {
    if pos == |d| then None
    else if d[pos] == 0 then
      match ReadStr(d, pos + 1, 4)
      case None => None
      case Some((b, p)) => var (sid, tab2) := Intern(tab, b); Some(Got(KStr(sid), p, tab2))
    else if d[pos] == 1 then
      match ReadProto(d, pos + 1, tab)
      case None => None
      case Some(Got(p, q, tab2)) => Some(Got(KProto(p), q, tab2))
    else if d[pos] == 2 then Some(Got(KTable(NOTHING), pos + 1, tab))
    else if d[pos] == 3 then Some(Got(KCData(NOTHING), pos + 1, tab))
    else None
  }

  /** A whole chunk: the magic number and the version are checked, the flags are
      not looked at. */
  datatype Outcome = Loaded(got: Got<Proto>) | NotBytecode | OtherVersion(v: int) | CutShort

  function ReadDump(d: Bytes, tab: seq<Bytes>): Outcome
  {
    if |d| < 5 || d[..3] != MAGIC then NotBytecode
    else if d[3] as int != VERSION then OtherVersion(d[3])
    else
      match ReadProto(d, 5, tab)
      case None => CutShort
      case Some(g) => Loaded(g)
  }
}
