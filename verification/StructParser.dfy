/** The body of a struct or union declaration, as it becomes entries of the type
    table: array types for the fields that are arrays, a chain of fields, and the
    struct itself. */
module StructParser {
  import opened Wrappers
  import opened StructLayout

  datatype Kind = Array | Field | Struct | Other

  /** A table entry; a field's size is its offset, `cid` is the type it is built
      on, or a struct's first field. */
  datatype Entry = Entry(kind: Kind, cid: int, align: nat, flags: int, size: int, sib: int)

  /** A field as the walk along the chain finds it. */
  datatype Info = Info(cid: int, offset: int)

  datatype Dim = Count(n: nat) | Unknown

  /** A field with the type before its brackets. */
  datatype FieldDecl = FieldDecl(base: int, dims: seq<Dim>)

  datatype Outcome = Built(id: int) | TooManyFields | VlaNotLast | VlaInUnion

  const UNION := 1
  const VLA := 2
  /** Identifiers in the table have sixteen bits. */
  const MAX_TYPES := 0x10000

  ghost predicate EntryOk(e: Entry) { 0 <= e.size <= U32_MAX && e.align <= 15 && Multiple(e.size, e.align) }

  ghost predicate TabOk(tab: seq<Entry>) { forall i {:trigger tab[i]} :: 0 <= i < |tab| ==> EntryOk(tab[i]) }

  // -- What a field takes ----------------------------------------------------------------

  function SatMul(a: nat, b: nat): nat { if a * b > U32_MAX then U32_MAX else a * b }

  function DimCount(d: Dim): nat { if d.Unknown? then U32_MAX else if d.n < 1 then 1 else d.n }

  /** The number of elements, stopping at the maximum. */
  function NumElems(acc: nat, dims: seq<Dim>): nat
    decreases |dims|
  { if dims == [] then acc else NumElems(SatMul(acc, DimCount(dims[0])), dims[1..]) }

  predicate IsVla(f: FieldDecl) { Unknown in f.dims }

  /** Array types have no alignment, and an array of unknown length no size. */
  function ItemOf(tab: seq<Entry>, f: FieldDecl): Item
    requires 0 <= f.base < |tab| && tab[f.base].size >= 0
  {
    if IsVla(f) then Item(0, 0)
    else if f.dims == [] then Item(tab[f.base].size, tab[f.base].align)
    else Item(SatMul(tab[f.base].size, NumElems(1, f.dims)), 0)
  }

  function Items(tab: seq<Entry>, fs: seq<FieldDecl>): (r: seq<Item>)
    requires forall i {:trigger fs[i]} :: 0 <= i < |fs| ==> 0 <= fs[i].base < |tab| && tab[fs[i].base].size >= 0
    ensures |r| == |fs| && forall i {:trigger r[i]} :: 0 <= i < |fs| ==> r[i] == ItemOf(tab, fs[i])
  { seq(|fs|, i requires 0 <= i < |fs| => ItemOf(tab, fs[i])) }

  /** Struct and union fields from a running size on. */
  function Offsets(u: bool, items: seq<Item>, total: int): (offs: seq<int>)
    ensures |offs| == |items|
  { if u then seq(|items|, _ => 0) else Place(items, total) }

  function Total(u: bool, items: seq<Item>, total: int): int
    decreases |items|
  { if !u then End(items, total) else if items == [] then total else Total(u, items[1..], if items[0].size > total then items[0].size else total) }

  function FullSize(u: bool, items: seq<Item>): int { Up(Total(u, items, 0), MaxAlign(items)) }

  lemma {:induction false} UnionHolds(items: seq<Item>, total: int)
    ensures total <= Total(true, items, total) && forall i {:trigger items[i]} :: 0 <= i < |items| ==> items[i].size <= Total(true, items, total)
    ensures Total(true, items, total) == total || exists i :: 0 <= i < |items| && items[i].size == Total(true, items, total)
    decreases |items|
  {
    if items != [] {
      var next := if items[0].size > total then items[0].size else total;
      UnionHolds(items[1..], next);
      assert forall i {:trigger items[i]} :: 0 < i < |items| ==> items[i] == items[1..][i - 1];
      if Total(true, items, total) != next {
        var i :| 0 <= i < |items[1..]| && items[1..][i].size == Total(true, items[1..], next);
        assert items[i + 1].size == Total(true, items, total);
      }
    }
  }

  /** All fields of a union stand at its start; it is as large as the largest,
      rounded to the largest alignment. */
  lemma UnionLayout(items: seq<Item>)
    ensures forall i {:trigger items[i]} :: 0 <= i < |items| ==> items[i].size <= FullSize(true, items)
    ensures Multiple(FullSize(true, items), MaxAlign(items))
    ensures items == [] || exists i :: 0 <= i < |items| && FullSize(true, items) == Up(items[i].size, MaxAlign(items))
  {
    hide Up, Multiple, MaxAlign;
    UnionHolds(items, 0);
    UpIs(Total(true, items, 0), MaxAlign(items));
    if items != [] && Total(true, items, 0) == 0 { assert items[0].size == 0; }
  }

  /** What makes the parser refuse: too many fields, an array of unknown length
      before another field, or in a union; in the order of the checks. */
  function Refused(fs: seq<FieldDecl>, u: bool, i: nat, seen: bool): Option<Outcome>
    requires i <= |fs|
    decreases |fs| - i
  {
    if i == |fs| then None
    else if i >= MAX_FIELDS then Some(TooManyFields)
    else if seen then Some(VlaNotLast)
    else if IsVla(fs[i]) && u then Some(VlaInUnion)
    else Refused(fs, u, i + 1, IsVla(fs[i]))
  }

  lemma {:induction false} RefusedWhen(fs: seq<FieldDecl>, u: bool, i: nat, seen: bool)
    requires i <= |fs|
    ensures Refused(fs, u, i, seen).None? <==>
      && (i == |fs| || (|fs| <= MAX_FIELDS && !seen))
      && forall j {:trigger fs[j]} :: i <= j < |fs| && IsVla(fs[j]) ==> j == |fs| - 1 && !u
    decreases |fs| - i
  {
    if i < |fs| { RefusedWhen(fs, u, i + 1, IsVla(fs[i])); }
  }

  // -- The chain of fields -------------------------------------------------------------------

  /** Following the siblings from `cur` visits these entries and ends. */
  ghost predicate Chain(tab: seq<Entry>, cur: int, ids: seq<int>)
    decreases |ids|
  { if ids == [] then cur == 0 else cur == ids[0] && 0 < cur < |tab| && Chain(tab, tab[cur].sib, ids[1..]) }

  lemma ChainStep(tab: seq<Entry>, cur: int, ids: seq<int>, n: nat)
    requires n <= |ids| && Chain(tab, cur, ids[n..]) && cur != 0
    ensures n < |ids| && cur == ids[n] && 0 < cur < |tab| && Chain(tab, tab[cur].sib, ids[n + 1..])
  {
    if n < |ids| { assert ids[n..][1..] == ids[n + 1..]; }
  }

  /** Entries in increasing order, linked to the next and the last to none. */
  ghost predicate Linked(tab: seq<Entry>, ids: seq<int>) {
    && (forall i {:trigger ids[i]} :: 0 <= i < |ids| ==> 0 < ids[i] < |tab|)
    && (forall i {:trigger ids[i]} :: 0 <= i < |ids| ==> tab[ids[i]].sib == if i + 1 < |ids| then ids[i + 1] else 0)
  }

  lemma {:induction false} LinkedChain(tab: seq<Entry>, ids: seq<int>)
    requires Linked(tab, ids)
    ensures Chain(tab, if ids == [] then 0 else ids[0], ids)
    decreases |ids|
  {
    if ids != [] {
      var r := ids[1..];
      assert forall i {:trigger r[i]} :: 0 <= i < |r| ==> r[i] == ids[i + 1];
      LinkedChain(tab, r);
    }
  }

  /** The entry of a field: its offset, and its type, which for an array is an
      array of the declared elements. */
  ghost predicate FieldAt(tab: seq<Entry>, e: Entry, f: FieldDecl, off: int) {
    && e.kind == Field && e.size == off % U32 && 0 <= e.cid < |tab| && 0 <= f.base < |tab|
    && if f.dims == [] then e.cid == f.base else IsArray(tab, tab[e.cid], f)
  }

  ghost predicate IsArray(tab: seq<Entry>, t: Entry, f: FieldDecl)
    requires 0 <= f.base < |tab|
  {
    && t.kind == Array && t.cid == f.base && t.align == 0 && t.flags == 0 && tab[f.base].size >= 0
    && t.size == SatMul(tab[f.base].size, NumElems(1, f.dims))
  }

  ghost predicate Fields(tab: seq<Entry>, ids: seq<int>, fs: seq<FieldDecl>, offs: seq<int>) {
    && |ids| == |fs| == |offs|
    && (forall i {:trigger ids[i]} :: 0 <= i < |ids| ==> 0 < ids[i] < |tab| && FieldAt(tab, tab[ids[i]], fs[i], offs[i]))
    && (forall i, j {:trigger ids[i], ids[j]} :: 0 <= i < j < |ids| ==> ids[i] < ids[j])
  }

  /** The table from another one, entries only added. */
  lemma FieldsGrow(tab: seq<Entry>, tab2: seq<Entry>, ids: seq<int>, fs: seq<FieldDecl>, offs: seq<int>)
    requires Fields(tab, ids, fs, offs) && tab <= tab2
    ensures Fields(tab2, ids, fs, offs)
  {
    forall i {:trigger ids[i]} | 0 <= i < |ids|
      ensures 0 < ids[i] < |tab2| && FieldAt(tab2, tab2[ids[i]], fs[i], offs[i])
    {
      assert tab2[ids[i]] == tab[ids[i]];
    }
  }

  class CTab {
    var tab: seq<Entry>

    ghost predicate Valid()
      reads this
    { |tab| > 0 && TabOk(tab) }

    constructor (types: seq<Entry>)
      requires |types| > 0 && TabOk(types)
      ensures Valid() && tab == types
    {
      tab := types;
    }

    method Push(e: Entry) returns (id: int)
      requires Valid() && EntryOk(e)
      modifies this
      ensures Valid() && tab == old(tab) + [e] && id == |old(tab)|
    {
      id := |tab|;
      tab := tab + [e];
    }

    /** The number of elements of an array declarator. */
    method Multiplier(dims: seq<Dim>) returns (m: nat, vla: bool)
      ensures m == NumElems(1, dims) && (vla <==> Unknown in dims)
    {
      m, vla := 1, false;
      var i := 0;
      while i < |dims|
        invariant i <= |dims| && NumElems(m, dims[i..]) == NumElems(1, dims)
        invariant vla <==> Unknown in dims[..i]
      {
        assert dims[i..][1..] == dims[i + 1..];
        assert dims[..i + 1] == dims[..i] + [dims[i]];
        if dims[i].Unknown? { vla := true; }
        m, i := SatMul(m, DimCount(dims[i])), i + 1;
      }
      assert dims[..|dims|] == dims;
    }

    /** The type of a field: an array type is looked up, and added if new. */
    method FieldType(f: FieldDecl) returns (id: int, vla: bool)
      requires Valid() && 0 <= f.base < |tab|
      modifies this
      ensures Valid() && old(tab) <= tab && |tab| <= |old(tab)| + 1 && 0 <= id < |tab| && vla == IsVla(f)
      ensures if f.dims == [] then id == f.base else IsArray(tab, tab[id], f)
    {
      var m, v := Multiplier(f.dims);
      vla := v;
      if f.dims == [] {
        id := f.base;
        return;
      }
      var size := SatMul(tab[f.base].size, m);
      id := 0;
      while id < |tab|
        invariant 0 <= id <= |tab|
      {
        var t := tab[id];
        if t.kind == Array && t.cid == f.base && t.align == 0 && t.flags == 0 && t.size == size { return; }
        id := id + 1;
      }
      WholeByte(size);
      id := Push(Entry(Array, f.base, 0, 0, size, 0));
    }

    /** One field: its type, its place, its entry. */
    method AddField(f: FieldDecl, u: bool, was: int, largest: nat) returns (vla: bool, id: int, total: int, align: nat)
      requires Valid() && 0 <= f.base < |tab| && largest <= 15
      modifies this
      ensures Valid() && old(tab) <= tab && |tab| <= |old(tab)| + 2 && vla == IsVla(f)
      ensures !(vla && u) ==> var it := ItemOf(old(tab), f);
        && id == |tab| - 1 >= |old(tab)| && FieldAt(tab, tab[id], f, OffsetAt(u, it, was))
        && total == After(u, it, was) && align == Larger(largest, it.align) && align <= 15
    {
      hide Up, Multiple, EntryOk;
      var t, v := FieldType(f);
      vla, id, total, align := v, 0, was, largest;
      if vla && u { return; }
      assert EntryOk(old(tab)[f.base]) && EntryOk(tab[t]);
      Bounds(tab, t);
      var size := if vla then 0 else tab[t].size;
      var a := tab[t].align;
      if a > align { align := a; }
      var off := if u then 0 else Up(was, a);
      total := if u then (if off + size > was then off + size else was) else Up(off, a);
      EntryIsOk(off);
      id := Push(Entry(Field, t, 0, 0, off % U32, 0));
      if !u { UpTwice(was, a); }
      total := if u then (if off + size > total then off + size else total) else Up(off + size, a);
    }

    /** The fields, one after the other: their entries, the running size and the
        largest alignment; or the reason to refuse them. */
    method ParseFields(fs: seq<FieldDecl>, u: bool) returns (err: Option<Outcome>, ids: seq<int>, total: int, align: nat, vla: bool)
      requires Valid() && Bases(tab, fs)
      modifies this
      ensures Valid() && old(tab) <= tab && |tab| <= |old(tab)| + 2 * |fs| && err == Refused(fs, u, 0, false)
      ensures err.None? ==> Gathered(old(tab), tab, fs, u, ids, total, align, vla)
    {
      ghost var items := Items(tab, fs);
      ghost var offs: seq<int> := [];
      err, ids, total, align, vla := None, [], 0, 0, false;
      var i := 0;
      Begins(tab, fs, u, items);
      hide Gathered, Underway, ItemOf, FieldAt, Fields, Fresh, OffsetAt, After, IsVla, HasVla, TabOk, OnlyLast, Refused, Bases, Offsets, Total, MaxAlign, Place, End;
      RefusedEnd(fs, u);
      while i < |fs|
        invariant Valid() && old(tab) <= tab && i <= |fs| && |tab| <= |old(tab)| + 2 * i
        invariant Refused(fs, u, i, vla) == Refused(fs, u, 0, false) && OnlyLast(fs, i, vla)
        invariant Underway(old(tab), tab, fs, u, items, i, ids, offs, total, align)
      {
        RefusedStep(fs, u, i, vla);
        BaseOk(old(tab), tab, fs, i);
        if i >= MAX_FIELDS { return Some(TooManyFields), [], 0, 0, false; }
        if vla { return Some(VlaNotLast), [], 0, 0, false; }
        ghost var was, tab0 := total, tab;
        var v, id, t, a := AddField(fs[i], u, total, align);
        if v && u { return Some(VlaInUnion), [], 0, 0, false; }
        OneMore(old(tab), tab0, tab, fs, u, items, i, ids, offs, id, total, align);
        VlaStep(fs, i, v);
        ids, offs := ids + [id], offs + [OffsetAt(u, items[i], was)];
        vla, total, align, i := v, t, a, i + 1;
      }
      Ends(old(tab), tab, fs, u, items, ids, offs, total, align, vla);
    }

    /** Each field is linked to the next one, and the last to none. */
    method LinkFields(ids: seq<int>)
      requires Valid() && |tab| <= MAX_TYPES && InOrder(ids, |tab|)
      modifies this
      ensures Valid() && |tab| == |old(tab)| && Relinked(old(tab), tab) && Linked(tab, ids)
      ensures forall k {:trigger tab[k]} :: 0 <= k < |tab| && k !in ids ==> tab[k] == old(tab)[k]
    {
      var i := 0;
      while i < |ids|
        invariant Valid() && i <= |ids| && LinkedTo(old(tab), tab, ids, i)
      {
        hide LinkedTo, TabOk, EntryOk, InOrder;
        var next := NextOf(ids, i);
        NextFits(ids, i, |tab|);
        LinkOne(old(tab), tab, ids, i);
        tab := tab[ids[i] := tab[ids[i]].(sib := next % MAX_TYPES)];
        i := i + 1;
      }
    }

    /** The struct or union: its fields, and its entry, which completes the one of
        a forward declaration if there is one. `mid` is the table before that. */
    method ParseBody(fs: seq<FieldDecl>, u: bool, fwd: Option<int>) returns (r: Outcome, ghost ids: seq<int>, ghost mid: seq<Entry>)
      requires Valid() && Bases(tab, fs) && |tab| + 2 * |fs| + 1 <= MAX_TYPES && (fwd.Some? ==> 0 <= fwd.value < |tab|)
      modifies this
      ensures Valid() && var refused := Refused(fs, u, 0, false);
        if refused.Some? then r == refused.value else r.Built?
      ensures r.Built? ==> Declared(old(tab), mid, tab, fs, u, fwd, r.id, ids)
    {
      hide Fields, Fresh, InOrder, Relinked, Linked, TabOk, EntryOk, Refused, Up, MaxAlign, Total, Offsets, Place;
      ids, mid := [], tab;
      ghost var items := Items(tab, fs);
      ghost var offs := Offsets(u, items, 0);
      var err, fields, total, align, vla := ParseFields(fs, u);
      RefusedIsNot(fs, u, 0, false);
      if err.Some? { return err.value, ids, mid; }
      ids := fields;
      ghost var before := tab;
      FreshInOrder(tab, ids, fs, offs, |old(tab)|);
      LinkFields(fields);
      mid := tab;
      RelinkedFields(before, mid, ids, fs, offs);
      RelinkedPrefix(old(tab), before, mid, ids);
      var id := Define(Entry(Struct, if fields == [] then 0 else fields[0], align, (if u then UNION else 0) + (if vla then VLA else 0), Up(total, align) % U32, 0), total, fwd);
      StillLinked(mid, tab, ids, |old(tab)|);
      r := Built(id);
    }

    /** The entry of a struct: a new one, or in place of its forward declaration. */
    method Define(e: Entry, total: int, fwd: Option<int>) returns (id: int)
      requires Valid() && e.align <= 15 && e.size == Up(total, e.align) % U32 && (fwd.Some? ==> 0 <= fwd.value < |tab|)
      modifies this
      ensures Valid() && tab == SetEntry(old(tab), e, fwd) && id == (if fwd.Some? then fwd.value else |old(tab)|)
    {
      hide Up, Multiple;
      SizeOk(total, e.align);
      if fwd.Some? {
        tab := tab[fwd.value := e];
        id := fwd.value;
      } else {
        id := Push(e);
      }
    }

    /** The types and offsets of a struct's fields, along the chain. */
    method FieldList(id: int, ghost ids: seq<int>) returns (fields: seq<Info>)
      requires Valid() && 0 <= id < |tab| && Chain(tab, tab[id].cid, ids)
      ensures |fields| == |ids| && Listed(tab, ids, fields)
    {
      hide Chain, TabOk;
      var cur := tab[id].cid;
      fields := [];
      assert ids[0..] == ids;
      while cur != 0
        invariant |fields| <= |ids| && Chain(tab, cur, ids[|fields|..]) && Listed(tab, ids, fields)
        decreases |ids| - |fields|
      {
        ChainStep(tab, cur, ids, |fields|);
        ghost var was := fields;
        fields := fields + [Info(tab[cur].cid, tab[cur].size)];
        ListMore(tab, ids, was, fields);
        cur := tab[cur].sib;
      }
      ChainEnd(tab, ids, |fields|);
    }
  }

  /** The types and offsets of these fields. */
  ghost predicate Listed(tab: seq<Entry>, ids: seq<int>, fields: seq<Info>) {
    |fields| <= |ids| && forall k {:trigger fields[k]} :: 0 <= k < |fields| ==> 0 < ids[k] < |tab| && fields[k] == Info(tab[ids[k]].cid, tab[ids[k]].size)
  }

  lemma ListMore(tab: seq<Entry>, ids: seq<int>, fields: seq<Info>, more: seq<Info>)
    requires Listed(tab, ids, fields) && |more| == |fields| + 1 <= |ids| && more[..|fields|] == fields
    requires 0 < ids[|fields|] < |tab| && more[|fields|] == Info(tab[ids[|fields|]].cid, tab[ids[|fields|]].size)
    ensures Listed(tab, ids, more)
  {
    forall k {:trigger ids[k]} {:trigger more[k]} | 0 <= k < |more|
      ensures 0 < ids[k] < |tab| && more[k] == Info(tab[ids[k]].cid, tab[ids[k]].size)
    {
      if k < |fields| { assert more[..|fields|][k] == fields[k]; }
    }
  }

  lemma ChainEnd(tab: seq<Entry>, ids: seq<int>, n: nat)
    requires n <= |ids| && Chain(tab, 0, ids[n..])
    ensures n == |ids|
  {
    var rest := ids[n..];
    assert Chain(tab, 0, rest) ==> rest == [];
  }

  function SetEntry(tab: seq<Entry>, e: Entry, fwd: Option<int>): seq<Entry>
    requires fwd.Some? ==> 0 <= fwd.value < |tab|
  { if fwd.Some? then tab[fwd.value := e] else tab + [e] }

  /** What a declaration makes of a table: field entries with their types and
      offsets, linked to each other, and the entry of the struct. */
  ghost predicate Declared(was: seq<Entry>, mid: seq<Entry>, tab: seq<Entry>, fs: seq<FieldDecl>, u: bool, fwd: Option<int>, id: int, ids: seq<int>)
    requires Bases(was, fs) && (fwd.Some? ==> 0 <= fwd.value < |was|)
  {
    var items := Items(was, fs);
    && was <= mid && Fields(mid, ids, fs, Offsets(u, items, 0)) && Fresh(ids, |was|) && Linked(tab, ids)
    && tab == SetEntry(mid, StructEntry(fs, u, items, ids), fwd) && id == (if fwd.Some? then fwd.value else |mid|)
  }

  /** A struct's entry: its first field, its largest alignment, its size. */
  function StructEntry(fs: seq<FieldDecl>, u: bool, items: seq<Item>, ids: seq<int>): Entry {
    Entry(Struct, if ids == [] then 0 else ids[0], MaxAlign(items), (if u then UNION else 0) + (if HasVla(fs) then VLA else 0),
          FullSize(u, items) % U32, 0)
  }

  function NextOf(ids: seq<int>, i: nat): int { if i + 1 < |ids| then ids[i + 1] else 0 }

  lemma NextFits(ids: seq<int>, i: nat, n: int)
    requires InOrder(ids, n) && n <= MAX_TYPES && i < |ids|
    ensures 0 < ids[i] < n && NextOf(ids, i) % MAX_TYPES == NextOf(ids, i)
  {
  }

  /** The first fields are linked, and nothing else has changed. */
  ghost predicate LinkedTo(tab: seq<Entry>, tab2: seq<Entry>, ids: seq<int>, i: nat) {
    && Relinked(tab, tab2) && i <= |ids|
    && (forall k {:trigger ids[k]} :: 0 <= k < i ==> 0 <= ids[k] < |tab| && tab2[ids[k]].sib == NextOf(ids, k))
    && (forall k {:trigger tab2[k]} :: 0 <= k < |tab| && k !in ids ==> tab2[k] == tab[k])
  }

  lemma OkLinked(tab: seq<Entry>, id: int, sib: int)
    requires TabOk(tab) && 0 <= id < |tab|
    ensures TabOk(tab[id := tab[id].(sib := sib)])
  {
    hide Multiple;
    assert EntryOk(tab[id]);
  }

  lemma LinkOne(tab: seq<Entry>, tab2: seq<Entry>, ids: seq<int>, i: nat)
    requires LinkedTo(tab, tab2, ids, i) && TabOk(tab2) && InOrder(ids, |tab|) && i < |ids|
    ensures 0 < ids[i] < |tab2|
    ensures var tab3 := tab2[ids[i] := tab2[ids[i]].(sib := NextOf(ids, i))];
      LinkedTo(tab, tab3, ids, i + 1) && TabOk(tab3)
  {
    hide TabOk, EntryOk;
    var tab3 := tab2[ids[i] := tab2[ids[i]].(sib := NextOf(ids, i))];
    OkLinked(tab2, ids[i], NextOf(ids, i));
    assert forall k {:trigger tab3[k]} :: 0 <= k < |tab3| && k != ids[i] ==> tab3[k] == tab2[k];
  }

  ghost predicate InOrder(ids: seq<int>, n: int) {
    (forall i {:trigger ids[i]} :: 0 <= i < |ids| ==> 0 < ids[i] < n) && forall i, j {:trigger ids[i], ids[j]} :: 0 <= i < j < |ids| ==> ids[i] < ids[j]
  }

  /** The same entries but for the links. */
  ghost predicate Relinked(tab: seq<Entry>, tab2: seq<Entry>) {
    |tab| == |tab2| && forall i {:trigger tab[i]} {:trigger tab2[i]} :: 0 <= i < |tab| ==> tab2[i] == tab[i].(sib := tab2[i].sib)
  }

  lemma FreshInOrder(tab: seq<Entry>, ids: seq<int>, fs: seq<FieldDecl>, offs: seq<int>, n: nat)
    requires Fields(tab, ids, fs, offs) && Fresh(ids, n)
    ensures InOrder(ids, |tab|)
  {
    hide FieldAt;
  }

  lemma RelinkedFields(tab: seq<Entry>, tab2: seq<Entry>, ids: seq<int>, fs: seq<FieldDecl>, offs: seq<int>)
    requires Relinked(tab, tab2) && Fields(tab, ids, fs, offs)
    ensures Fields(tab2, ids, fs, offs)
  {
    forall i {:trigger ids[i]} | 0 <= i < |ids|
      ensures 0 < ids[i] < |tab2| && FieldAt(tab2, tab2[ids[i]], fs[i], offs[i])
    {
      var e := tab[ids[i]];
      assert FieldAt(tab, e, fs[i], offs[i]);
      assert tab2[ids[i]] == e.(sib := tab2[ids[i]].sib);
      assert tab2[e.cid] == tab[e.cid].(sib := tab2[e.cid].sib) && tab2[fs[i].base] == tab[fs[i].base].(sib := tab2[fs[i].base].sib);
    }
  }

  lemma RelinkedPrefix(was: seq<Entry>, tab: seq<Entry>, tab2: seq<Entry>, ids: seq<int>)
    requires was <= tab && |tab2| == |tab| && Fresh(ids, |was|) && forall k {:trigger tab2[k]} :: 0 <= k < |tab| && k !in ids ==> tab2[k] == tab[k]
    ensures was <= tab2
  {
    forall k {:trigger was[k]} | 0 <= k < |was|
      ensures was[k] == tab2[k]
    {
      assert k !in ids;
    }
  }

  lemma StillLinked(mid: seq<Entry>, tab: seq<Entry>, ids: seq<int>, n: nat)
    requires Linked(mid, ids) && Fresh(ids, n) && |mid| <= |tab| && forall k {:trigger tab[k]} :: n <= k < |mid| ==> tab[k] == mid[k]
    ensures Linked(tab, ids)
  {
  }

  lemma SizeOk(total: int, align: nat)
    requires align <= 15
    ensures 0 <= Up(total, align) % U32 <= U32_MAX && Multiple(Up(total, align) % U32, align)
  {
    hide Up, Multiple;
    UpIs(total, align);
    Truncated(Up(total, align), align);
  }

  /** Cutting a size to 32 bits keeps it a multiple of its alignment. */
  lemma Truncated(x: int, k: nat)
    requires k <= 15 && Multiple(x, k)
    ensures Multiple(x % U32, k)
  {
    hide Multiple, Pow2;
    var q := x / U32;
    WholePart(q, k);
    assert x == U32 * q + x % U32;
    Sum(x, U32 * q, k);
  }

  lemma WholePart(q: int, k: nat)
    requires k <= 15
    ensures Multiple(U32 * q, k)
  {
    hide Multiple, Pow2;
    PowerOfTwo();
    IsMultiple(q);
    Coarser(U32 * q, k, 32);
  }

  lemma IsMultiple(q: int)
    requires Pow2(32) == U32
    ensures Multiple(U32 * q, 32)
  {
    StructLayout.Times(U32, q);
  }

  lemma PowerOfTwo()
    ensures Pow2(32) == U32
  {
    assert Pow2(8) == 256;
    assert Pow2(16) == 65536;
    assert Pow2(24) == 16777216;
  }

  lemma {:induction false} RefusedIsNot(fs: seq<FieldDecl>, u: bool, i: nat, seen: bool)
    requires i <= |fs|
    ensures Refused(fs, u, i, seen).Some? ==> !Refused(fs, u, i, seen).value.Built?
    decreases |fs| - i
  {
    if i < |fs| { RefusedIsNot(fs, u, i + 1, IsVla(fs[i])); }
  }

  predicate HasVla(fs: seq<FieldDecl>) { exists i :: 0 <= i < |fs| && IsVla(fs[i]) }

  /** Of the first fields, none but the last can be an array of unknown length. */
  ghost predicate OnlyLast(fs: seq<FieldDecl>, i: nat, vla: bool) {
    i <= |fs| && (vla <==> i > 0 && IsVla(fs[i - 1])) && forall k {:trigger fs[k]} :: 0 <= k < i - 1 ==> !IsVla(fs[k])
  }

  lemma VlaStep(fs: seq<FieldDecl>, i: nat, v: bool)
    requires i < |fs| && OnlyLast(fs, i, false) && v == IsVla(fs[i])
    ensures OnlyLast(fs, i + 1, v)
  {
  }

  lemma RefusedStep(fs: seq<FieldDecl>, u: bool, i: nat, seen: bool)
    requires i < |fs|
    ensures Refused(fs, u, i, seen) ==
      if i >= MAX_FIELDS then Some(TooManyFields)
      else if seen then Some(VlaNotLast)
      else if IsVla(fs[i]) && u then Some(VlaInUnion)
      else Refused(fs, u, i + 1, IsVla(fs[i]))
  {
  }

  lemma BaseOk(tab: seq<Entry>, tab2: seq<Entry>, fs: seq<FieldDecl>, i: nat)
    requires Bases(tab, fs) && tab <= tab2 && i < |fs|
    ensures 0 <= fs[i].base < |tab2| && 0 <= fs[i].base < |tab| && tab[fs[i].base].size >= 0
  {
  }

  function OffsetAt(u: bool, it: Item, total: int): int { if u then 0 else Up(total, it.align) }

  function After(u: bool, it: Item, total: int): int {
    if u then (if it.size > total then it.size else total) else Up(Up(total, it.align) + it.size, it.align)
  }

  ghost predicate Fresh(ids: seq<int>, n: nat) { forall i {:trigger ids[i]} :: 0 <= i < |ids| ==> ids[i] >= n }

  /** After `i` fields: the offsets so far, and what remains. */
  ghost predicate Remains(u: bool, items: seq<Item>, offs: seq<int>, i: nat, total: int, align: nat) {
    && i <= |items| && offs + Offsets(u, items[i..], total) == Offsets(u, items, 0) && Total(u, items[i..], total) == Total(u, items, 0)
    && Larger(align, MaxAlign(items[i..])) == MaxAlign(items) && align <= 15
  }

  lemma Advance(u: bool, items: seq<Item>, offs: seq<int>, i: nat, total: int, align: nat)
    requires i < |items| && Remains(u, items, offs, i, total, align) && items[i].align <= 15
    ensures Remains(u, items, offs + [OffsetAt(u, items[i], total)], i + 1, After(u, items[i], total), Larger(align, items[i].align))
  {
    var r, it := items[i..], items[i];
    assert r[1..] == items[i + 1..] && r[0] == it;
    hide Up;
    assert Offsets(u, r, total) == [OffsetAt(u, it, total)] + Offsets(u, r[1..], After(u, it, total));
    assert offs + ([OffsetAt(u, it, total)] + Offsets(u, r[1..], After(u, it, total))) == offs + [OffsetAt(u, it, total)] + Offsets(u, r[1..], After(u, it, total));
  }

  lemma SameItem(tab: seq<Entry>, tab2: seq<Entry>, f: FieldDecl)
    requires tab <= tab2 && 0 <= f.base < |tab| && tab[f.base].size >= 0
    ensures tab2[f.base] == tab[f.base] && ItemOf(tab2, f) == ItemOf(tab, f)
  {
  }

  lemma MoreFields(tab: seq<Entry>, tab2: seq<Entry>, ids: seq<int>, fs: seq<FieldDecl>, i: nat, offs: seq<int>, id: int, off: int, n: nat)
    requires i < |fs| && tab <= tab2 && Fields(tab, ids, fs[..i], offs) && Fresh(ids, n)
    requires |tab| <= id < |tab2| && id >= n && id > 0 && FieldAt(tab2, tab2[id], fs[i], off)
    ensures Fields(tab2, ids + [id], fs[..i + 1], offs + [off]) && Fresh(ids + [id], n)
  {
    hide FieldAt;
    FieldsGrow(tab, tab2, ids, fs[..i], offs);
    assert fs[..i + 1] == fs[..i] + [fs[i]];
  }

  /** The fields so far, and what remains of the layout. */
  ghost predicate Underway(was: seq<Entry>, tab: seq<Entry>, fs: seq<FieldDecl>, u: bool, items: seq<Item>, i: nat, ids: seq<int>, offs: seq<int>, total: int, align: nat) {
    i <= |fs| && Fields(tab, ids, fs[..i], offs) && Fresh(ids, |was|) && Remains(u, items, offs, i, total, align)
  }

  /** All fields have their entries, the running size and the largest alignment
      are those of the layout. */
  ghost predicate Gathered(was: seq<Entry>, tab: seq<Entry>, fs: seq<FieldDecl>, u: bool, ids: seq<int>, total: int, align: nat, vla: bool)
    requires Bases(was, fs)
  {
    var items := Items(was, fs);
    && Fields(tab, ids, fs, Offsets(u, items, 0)) && Fresh(ids, |was|)
    && total == Total(u, items, 0) && align == MaxAlign(items) && align <= 15 && vla == HasVla(fs)
  }

  lemma Done(u: bool, items: seq<Item>, offs: seq<int>, total: int, align: nat)
    requires Remains(u, items, offs, |items|, total, align)
    ensures offs == Offsets(u, items, 0) && total == Total(u, items, 0) && align == MaxAlign(items)
  {
    assert items[|items|..] == [] && offs + [] == offs;
  }

  lemma Begins(tab: seq<Entry>, fs: seq<FieldDecl>, u: bool, items: seq<Item>)
    requires Bases(tab, fs) && items == Items(tab, fs)
    ensures Underway(tab, tab, fs, u, items, 0, [], [], 0, 0) && OnlyLast(fs, 0, false)
  {
    assert fs[..0] == [] && items[0..] == items;
    assert [] + Offsets(u, items, 0) == Offsets(u, items, 0);
  }

  lemma Ends(was: seq<Entry>, tab: seq<Entry>, fs: seq<FieldDecl>, u: bool, items: seq<Item>, ids: seq<int>, offs: seq<int>, total: int, align: nat, vla: bool)
    requires Bases(was, fs) && items == Items(was, fs) && Underway(was, tab, fs, u, items, |fs|, ids, offs, total, align) && OnlyLast(fs, |fs|, vla)
    ensures Gathered(was, tab, fs, u, ids, total, align, vla)
  {
    hide FieldAt, IsVla;
    assert fs[..|fs|] == fs;
    Done(u, items, offs, total, align);
    if HasVla(fs) {
      var k :| 0 <= k < |fs| && IsVla(fs[k]);
      assert k == |fs| - 1;
    }
  }

  lemma RefusedEnd(fs: seq<FieldDecl>, u: bool)
    ensures forall seen :: Refused(fs, u, |fs|, seen) == None
  {
  }

  lemma OneMore(was: seq<Entry>, tab: seq<Entry>, tab2: seq<Entry>, fs: seq<FieldDecl>, u: bool, items: seq<Item>, i: nat, ids: seq<int>, offs: seq<int>, id: int, total: int, align: nat)
    requires Bases(was, fs) && i < |fs| && was <= tab <= tab2 && items == Items(was, fs) && Underway(was, tab, fs, u, items, i, ids, offs, total, align)
    requires |tab| <= id < |tab2| && id > 0
    requires var f := fs[i];
      0 <= f.base < |tab| && tab[f.base].size >= 0 && ItemOf(tab, f).align <= 15 && FieldAt(tab2, tab2[id], f, OffsetAt(u, ItemOf(tab, f), total))
    ensures items[i] == ItemOf(tab, fs[i])
    ensures Underway(was, tab2, fs, u, items, i + 1, ids + [id], offs + [OffsetAt(u, items[i], total)], After(u, items[i], total), Larger(align, items[i].align))
  {
    hide Fields, Fresh, Remains, ItemOf, FieldAt, OffsetAt, After;
    SameItem(was, tab, fs[i]);
    Advance(u, items, offs, i, total, align);
    MoreFields(tab, tab2, ids, fs, i, offs, id, OffsetAt(u, items[i], total), |was|);
  }

  lemma Bounds(tab: seq<Entry>, t: int)
    requires TabOk(tab) && 0 <= t < |tab|
    ensures 0 <= tab[t].size <= U32_MAX && tab[t].align <= 15
  {
    assert EntryOk(tab[t]);
  }

  lemma UpTwice(x: int, k: nat)
    ensures Up(Up(x, k), k) == Up(x, k)
  {
    UpIs(x, k);
    UpKeeps(Up(x, k), k);
  }

  lemma EntryIsOk(off: int)
    ensures 0 <= off % U32 <= U32_MAX && Multiple(off % U32, 0)
  {
    WholeByte(off % U32);
  }

  ghost predicate Bases(tab: seq<Entry>, fs: seq<FieldDecl>) {
    forall i {:trigger fs[i]} :: 0 <= i < |fs| ==> 0 <= fs[i].base < |tab| && tab[fs[i].base].size >= 0
  }

  function Larger(a: nat, b: nat): nat { if a > b then a else b }

  lemma WholeByte(x: int)
    ensures Multiple(x, 0)
  {
  }

  /** In every table the parser can make, sizes are multiples of alignments, and
      rounding behind each field changes nothing. */
  lemma TableAsInC(tab: seq<Entry>, fs: seq<FieldDecl>)
    requires TabOk(tab) && Bases(tab, fs)
    ensures var items := Items(tab, fs);
      Place(items, 0) == CPlace(items, 0) && End(items, 0) == CEnd(items, 0)
  {
    hide Multiple, Place, CPlace;
    var items := Items(tab, fs);
    forall i {:trigger items[i]} | 0 <= i < |items|
      ensures Multiple(items[i].size, items[i].align)
    {
      assert items[i] == ItemOf(tab, fs[i]) && EntryOk(tab[fs[i].base]);
      WholeByte(items[i].size);
    }
    AsInC(items, 0);
  }

  /** Fields of the declared types, at these offsets. */
  ghost predicate FieldsAt(fs: seq<FieldDecl>, offs: seq<int>, fields: seq<Info>) {
    && |fields| == |fs| == |offs|
    && forall k {:trigger fields[k]} :: 0 <= k < |fs| ==> fields[k].offset == offs[k] % U32 && (fs[k].dims == [] ==> fields[k].cid == fs[k].base)
  }

  lemma EntryIs(was: seq<Entry>, mid: seq<Entry>, tab: seq<Entry>, fs: seq<FieldDecl>, u: bool, fwd: Option<int>, id: int, ids: seq<int>)
    requires Bases(was, fs) && (fwd.Some? ==> 0 <= fwd.value < |was|) && Declared(was, mid, tab, fs, u, fwd, id, ids)
    ensures 0 <= id < |tab| && tab[id] == StructEntry(fs, u, Items(was, fs), ids) && Chain(tab, tab[id].cid, ids)
  {
    hide Up, MaxAlign, Total, Offsets, Fields;
    LinkedChain(tab, ids);
  }

  /** A declared struct, and its fields as a walk along the chain finds them: in
      the order of the declaration, at the places of the layout. */
  method Declare(ct: CTab, fs: seq<FieldDecl>, u: bool, fwd: Option<int>) returns (r: Outcome, fields: seq<Info>)
    requires ct.Valid() && Bases(ct.tab, fs) && |ct.tab| + 2 * |fs| + 1 <= MAX_TYPES && (fwd.Some? ==> 0 <= fwd.value < |ct.tab|)
    modifies ct
    ensures ct.Valid() && (r.Built? <==> Refused(fs, u, 0, false).None?)
    ensures r.Built? ==> var items := Items(old(ct.tab), fs);
      && 0 <= r.id < |ct.tab| && ct.tab[r.id].size == FullSize(u, items) % U32 && ct.tab[r.id].align == MaxAlign(items)
      && FieldsAt(fs, Offsets(u, items, 0), fields)
  {
    hide Place, Up, MaxAlign, Total, Offsets, Refused, TabOk, Declared, Chain, Listed, FieldsAt;
    ghost var was := ct.tab;
    ghost var ids, mid;
    fields := [];
    r, ids, mid := ct.ParseBody(fs, u, fwd);
    RefusedIsNot(fs, u, 0, false);
    if r.Built? {
      EntryIs(was, mid, ct.tab, fs, u, fwd, r.id, ids);
      fields := ct.FieldList(r.id, ids);
      ListedFields(was, mid, ct.tab, fs, u, fwd, r.id, ids, fields);
    }
  }

  lemma ListedFields(was: seq<Entry>, mid: seq<Entry>, tab: seq<Entry>, fs: seq<FieldDecl>, u: bool, fwd: Option<int>, id: int, ids: seq<int>, fields: seq<Info>)
    requires Bases(was, fs) && (fwd.Some? ==> 0 <= fwd.value < |was|) && Declared(was, mid, tab, fs, u, fwd, id, ids)
    requires |fields| == |ids| && Listed(tab, ids, fields)
    ensures FieldsAt(fs, Offsets(u, Items(was, fs), 0), fields)
  {
    hide Place, Up, MaxAlign, Total, Offsets, Linked;
    forall k {:trigger fields[k]} | 0 <= k < |fs|
      ensures fields[k].offset == Offsets(u, Items(was, fs), 0)[k] % U32 && (fs[k].dims == [] ==> fields[k].cid == fs[k].base)
    {
      assert ids[k] >= |was| && tab[ids[k]] == mid[ids[k]];
    }
  }
}
