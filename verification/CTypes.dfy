/** The table of C types: building types from declarators, printing a type as a
    declarator, and reading printed names back. */
module CTypes {
  import opened DeclSyntax
  import opened DeclParser

  datatype Kind = KPtr | KArray | KFunc | KOther

  /** A table entry: its kind, the entry it is built on, qualifiers and size. */
  datatype CType = CType(kind: Kind, cid: int, isconst: bool, isvolatile: bool, size: int)

  /** One level of a type above its base. */
  datatype Level = LPtr(isconst: bool, isvolatile: bool) | LArray(size: int) | LFunc

  const POINTER_SIZE := 8
  /** How many entries the printer visits before it gives up. */
  const GUARD := 64

  /** Multiplication that stops at the 32-bit maximum. */
  function SatMul(a: int, n: int): int { if a * n > U32_MAX then U32_MAX else a * n }

  /** A type is built on an older one; the size of an array is its elements'
      size times some count, up to the maximum. */
  ghost predicate EntryOk(tab: seq<CType>, i: int)
    requires 0 <= i < |tab|
  {
    var t := tab[i];
    && 0 <= t.size <= U32_MAX && (t.kind.KOther? || 0 <= t.cid < i)
    && (t.kind.KPtr? ==> t.size == POINTER_SIZE) && (t.kind.KFunc? ==> t.size == 0)
    && (t.kind.KArray? ==> exists n: nat {:trigger SatMul(tab[t.cid].size, n)} :: t.size == SatMul(tab[t.cid].size, n))
  }

  ghost predicate TabOk(tab: seq<CType>) { forall i {:trigger EntryOk(tab, i)} :: 0 <= i < |tab| ==> EntryOk(tab, i) }

  function LevelOf(t: CType): Level
    requires !t.kind.KOther?
  { if t.kind.KPtr? then LPtr(t.isconst, t.isvolatile) else if t.kind.KArray? then LArray(t.size) else LFunc }

  /** The levels of a type, outermost first, and its base. */
  ghost function Levels(tab: seq<CType>, id: int): seq<Level>
    requires TabOk(tab) && 0 <= id < |tab|
    decreases id
  {
    assert EntryOk(tab, id);
    if tab[id].kind.KOther? then [] else [LevelOf(tab[id])] + Levels(tab, tab[id].cid)
  }

  ghost function BaseOf(tab: seq<CType>, id: int): (b: int)
    requires TabOk(tab) && 0 <= id < |tab|
    ensures 0 <= b <= id && tab[b].kind.KOther?
    decreases id
  {
    assert EntryOk(tab, id);
    if tab[id].kind.KOther? then id else BaseOf(tab, tab[id].cid)
  }

  function SizeOf(ls: seq<Level>, basesize: int): int {
    if ls == [] then basesize else match ls[0] case LPtr(_, _) => POINTER_SIZE case LArray(s) => s case LFunc => 0
  }

  lemma {:induction false} SizeIs(tab: seq<CType>, id: int)
    requires TabOk(tab) && 0 <= id < |tab|
    ensures tab[id].size == SizeOf(Levels(tab, id), tab[BaseOf(tab, id)].size)
  {
    assert EntryOk(tab, id);
  }

  // -- Making types -----------------------------------------------------------------------

  /** The entry an element makes on top of `cid`. */
  function EntryFor(tab: seq<CType>, e: Elem, cid: int): CType
    requires 0 <= cid < |tab|
  {
    match e
    case Ptr(c, v) => CType(KPtr, cid, c, v, POINTER_SIZE)
    case Array(n) => CType(KArray, cid, false, false, SatMul(tab[cid].size, n))
    case Func => CType(KFunc, cid, false, false, 0)
    case Base(_) => tab[cid]
  }

  /** Type `id` is `base` with the elements around it. */
  ghost predicate Builds(tab: seq<CType>, id: int, base: int, es: seq<Elem>)
    decreases |es|
  {
    if es == [] then id == base
    else
      && 0 <= id < |tab| && 0 <= tab[id].cid < |tab| && tab[id] == EntryFor(tab, es[|es| - 1], tab[id].cid)
      && !es[|es| - 1].Base? && Builds(tab, tab[id].cid, base, es[..|es| - 1])
  }

  predicate IsPlain(t: CType, kind: Kind, cid: int) { t.kind == kind && t.cid == cid && !t.isconst && !t.isvolatile }

  /** The first entry that is `t`, or the length of the table. */
  function First(tab: seq<CType>, t: CType): (i: int)
    ensures 0 <= i <= |tab| && (i < |tab| ==> tab[i] == t)
    ensures forall j {:trigger tab[j]} :: 0 <= j < i ==> tab[j] != t
  {
    if tab == [] then 0
    else
      var i := First(tab[..|tab| - 1], t);
      if i < |tab| - 1 || tab[|tab| - 1] == t then i else |tab|
  }

  predicate Qualified(e: Elem) { e.Ptr? && (e.isconst || e.isvolatile) }

  function Bare(e: Elem): Elem { if e.Ptr? then Ptr(false, false) else e }

  /** The entry an element on top of `id` goes to: a like one without qualifiers,
      or the next; a function type is always new. */
  function Step(tab: seq<CType>, e: Elem, id: int): (n: int)
    requires 0 <= id < |tab|
    ensures 0 <= n <= |tab|
  { if e.Func? then |tab| else First(tab, EntryFor(tab, Bare(e), id)) }

  /** The table with it: qualifiers are written into the entry. */
  function Applied(tab: seq<CType>, e: Elem, id: int): (tab2: seq<CType>)
    requires 0 <= id < |tab|
    ensures |tab| <= |tab2| && Step(tab, e, id) < |tab2|
  {
    var n := Step(tab, e, id);
    if n < |tab| then tab[n := EntryFor(tab, e, id)] else tab + [EntryFor(tab, e, id)]
  }

  datatype Made = Made(tab: seq<CType>, id: int)

  /** The elements put around `id`, one after the other. */
  function Make(tab: seq<CType>, id: int, es: seq<Elem>): (m: Made)
    requires 0 <= id < |tab|
    ensures |tab| <= |m.tab| && 0 <= m.id < |m.tab|
    decreases |es|
  {
    if es == [] then Made(tab, id)
    else
      var m, e := Make(tab, id, es[..|es| - 1]), es[|es| - 1];
      Made(Applied(m.tab, e, m.id), Step(m.tab, e, m.id))
  }

  predicate Unqualified(es: seq<Elem>) { forall i {:trigger es[i]} :: 0 <= i < |es| ==> !es[i].Base? && (es[i].Ptr? ==> !es[i].isconst && !es[i].isvolatile) }

  class CTState {
    var tab: seq<CType>
    /** The names of base types. */
    const names: map<string, int>

    ghost predicate Valid()
      reads this
    {
      TabOk(tab) && forall n {:trigger names[n]} :: n in names ==> 0 <= names[n] < |tab|
    }

    constructor (types: seq<CType>, ns: map<string, int>)
      requires TabOk(types) && forall n {:trigger ns[n]} :: n in ns ==> 0 <= ns[n] < |types|
      ensures Valid() && tab == types && names == ns
    {
      tab, names := types, ns;
    }

    method Push(t: CType) returns (id: int)
      requires Valid() && EntryOk(tab + [t], |tab|)
      modifies this`tab
      ensures Valid() && tab == old(tab) + [t] && id == |old(tab)|
    {
      id := |tab|;
      ghost var was := tab;
      tab := tab + [t];
      forall i | 0 <= i < |tab| ensures EntryOk(tab, i) {
        if i < |was| { EntryKept(was, tab, i); }
      }
    }

    /** The pointer to a type: an unqualified entry there is, or a new one. */
    method MakePtrType(pointee: int) returns (id: int)
      requires Valid() && 0 <= pointee < |tab|
      modifies this`tab
      ensures Valid() && id == Step(old(tab), Ptr(false, false), pointee) && tab == Applied(old(tab), Ptr(false, false), pointee)
    {
      id := 0;
      while id < |tab|
        invariant 0 <= id <= |tab| && tab == old(tab)
        invariant forall j {:trigger tab[j]} :: 0 <= j < id ==> !IsPlain(tab[j], KPtr, pointee)
      {
        assert EntryOk(tab, id);
        if IsPlain(tab[id], KPtr, pointee) {
          return;
        }
        id := id + 1;
      }
      AppliedOk(tab, Ptr(false, false), pointee);
      id := Push(CType(KPtr, pointee, false, false, POINTER_SIZE));
    }

    /** An array of `n` elements; its size stops at the maximum. */
    method MakeArrayType(elem: int, n: int) returns (id: int)
      requires Valid() && 0 <= elem < |tab| && 0 <= n
      modifies this`tab
      ensures Valid() && id == Step(old(tab), Array(n), elem) && tab == Applied(old(tab), Array(n), elem)
    {
      var size := SatMul(tab[elem].size, n);
      id := 0;
      while id < |tab|
        invariant 0 <= id <= |tab| && tab == old(tab)
        invariant forall j {:trigger tab[j]} :: 0 <= j < id ==> !(IsPlain(tab[j], KArray, elem) && tab[j].size == size)
      {
        if IsPlain(tab[id], KArray, elem) && tab[id].size == size {
          return;
        }
        id := id + 1;
      }
      AppliedOk(tab, Array(n), elem);
      id := Push(CType(KArray, elem, false, false, size));
    }

    /** A function type is always new. */
    method MakeFuncType(ret: int) returns (id: int)
      requires Valid() && 0 <= ret < |tab|
      modifies this`tab
      ensures Valid() && tab == old(tab) + [CType(KFunc, ret, false, false, 0)] && id == |old(tab)|
    {
      id := Push(CType(KFunc, ret, false, false, 0));
    }

    /** The type an element makes of `id`. Qualifiers are written into the entry
        of the pointer, which other types may share. */
    method ApplyElem(e: Elem, id: int) returns (next: int)
      requires Valid() && 0 <= id < |tab| && ElemOk(e)
      modifies this`tab
      ensures Valid() && next == Step(old(tab), e, id) && tab == Applied(old(tab), e, id)
    {
      AppliedOk(tab, e, id);
      match e
      case Ptr(c, v) =>
        next := MakePtrType(id);
        if c || v {
          tab := tab[next := tab[next].(isconst := tab[next].isconst || c, isvolatile := tab[next].isvolatile || v)];
        }
        assert tab == Applied(old(tab), e, id);
      case Array(n) =>
        next := MakeArrayType(id, n);
      case Func =>
        next := MakeFuncType(id);
    }

    /** Folds the stack into a type. */
    method BuildType(stack: seq<Elem>) returns (id: int)
      requires Valid() && stack != [] && stack[0].Base? && 0 <= stack[0].id < |tab| && Plain(stack[1..])
      modifies this`tab
      ensures Valid() && Made(tab, id) == Make(old(tab), stack[0].id, stack[1..])
    {
      hide TabOk;
      id := stack[0].id;
      var i := 1;
      assert stack[1..1] == [];
      while i < |stack|
        invariant 1 <= i <= |stack| && Valid() && Made(tab, id) == Make(old(tab), stack[0].id, stack[1..i])
      {
        assert stack[1..][i - 1] == stack[i];
        assert stack[1..i + 1][..i - 1] == stack[1..i];
        id := ApplyElem(stack[i], id);
        i := i + 1;
      }
      assert stack[1..i] == stack[1..];
    }

    /** Reads an abstract declarator around `base`: the type it makes, and where
        it ends. */
    method ParseAbsDecl(src: string, base: int) returns (ok: bool, id: int, end: int)
      requires Valid() && 0 <= base < |tab|
      modifies this`tab
      ensures Valid() && (ok <==> Declarator(src, 0).Some?) && (!ok ==> tab == old(tab))
      ensures ok ==> 0 <= id < |tab| && end == Declarator(src, 0).value.0 && Made(tab, id) == Make(old(tab), base, Declarator(src, 0).value.1)
    {
      hide Declarator, TabOk, Make;
      var p := new Parser(src, base);
      id, end := base, 0;
      ok := p.DeclDeclarator();
      if ok {
        ghost var es := Declarator(src, 0).value.1;
        assert p.stack == [Base(base)] + es;
        assert p.stack[1..] == es;
        ElemsPlain(src, 0);
        id := BuildType(p.stack);
        end := p.pos;
      }
    }
  }

  // -- What is made of a table ------------------------------------------------------------

  /** The same entries but for qualifiers. */
  ghost predicate Alike(tab: seq<CType>, tab2: seq<CType>) {
    |tab| <= |tab2| && forall i {:trigger tab[i]} {:trigger tab2[i]} :: 0 <= i < |tab| ==> tab2[i] == tab[i].(isconst := tab2[i].isconst, isvolatile := tab2[i].isvolatile)
  }

  /** Entries behind `id` are unchanged. */
  ghost predicate SameBehind(tab: seq<CType>, tab2: seq<CType>, id: int) { |tab| <= |tab2| && forall i {:trigger tab2[i]} :: 0 <= i < |tab| && i > id ==> tab2[i] == tab[i] }

  /** An element keeps the table good; its entry lies behind what it is built on. */
  lemma AppliedOk(tab: seq<CType>, e: Elem, id: int)
    requires TabOk(tab) && 0 <= id < |tab| && ElemOk(e)
    ensures var n, tab2 := Step(tab, e, id), Applied(tab, e, id);
      && id < n && TabOk(tab2) && Alike(tab, tab2) && tab2[n] == EntryFor(tab, e, id)
      && (forall i {:trigger tab2[i]} :: 0 <= i < |tab| && i != n ==> tab2[i] == tab[i])
      && (n < |tab| ==> |tab2| == |tab| && tab[n] == EntryFor(tab, Bare(e), id))
  {
    var n, tab2 := Step(tab, e, id), Applied(tab, e, id);
    assert EntryOk(tab, id);
    if n < |tab| { assert EntryOk(tab, n); }
    forall i | 0 <= i < |tab2| ensures EntryOk(tab2, i) {
      if i < |tab| { EntryKept(tab, tab2, i); } else if e.Array? { assert tab2[i].size == SatMul(tab2[id].size, e.count); }
    }
  }

  /** What an element goes to does not depend on qualifiers before. */
  lemma StepAlike(tab: seq<CType>, tab2: seq<CType>, e: Elem, id: int)
    requires TabOk(tab) && TabOk(tab2) && Alike(tab, tab2) && |tab| == |tab2| && SameBehind(tab, tab2, id) && 0 <= id < |tab| && ElemOk(e)
    ensures Step(tab2, e, id) == Step(tab, e, id)
  {
    if !e.Func? {
      assert tab2[id].size == tab[id].size;
      var t := EntryFor(tab, Bare(e), id);
      LikeBehind(tab, t);
      LikeBehind(tab2, t);
      var i, j := First(tab, t), First(tab2, t);
      if i < |tab| { assert tab2[i] == tab[i]; }
      if j < |tab| { assert tab2[j] == tab[j]; }
    }
  }

  lemma LikeBehind(tab: seq<CType>, t: CType)
    requires TabOk(tab) && !t.kind.KOther?
    ensures First(tab, t) < |tab| ==> t.cid < First(tab, t)
  {
    if First(tab, t) < |tab| { assert EntryOk(tab, First(tab, t)); }
  }

  /** The type that the elements around `id` without their qualifiers are in the
      table, or the table's length if it is not there. */
  function Known(tab: seq<CType>, id: int, es: seq<Elem>): (k: int)
    requires 0 <= id < |tab|
    ensures 0 <= k <= |tab|
    decreases |es|
  {
    if es == [] then id
    else
      var k := Known(tab, id, es[..|es| - 1]);
      if k < |tab| then Step(tab, es[|es| - 1], k) else k
  }

  ghost predicate Follows(tab: seq<CType>, m: Made, k: int) {
    && TabOk(m.tab) && Alike(tab, m.tab) && SameBehind(tab, m.tab, m.id) && 0 <= m.id < |m.tab|
    && if k < |tab| then m.id == k && |m.tab| == |tab| else m.id >= |tab|
  }

  lemma {:induction false} MakeFollows(tab: seq<CType>, id: int, es: seq<Elem>)
    requires TabOk(tab) && 0 <= id < |tab| && Plain(es)
    ensures Follows(tab, Make(tab, id, es), Known(tab, id, es))
    decreases |es|
  {
    if es != [] {
      var a, e := es[..|es| - 1], es[|es| - 1];
      MakeFollows(tab, id, a);
      FollowsNext(tab, Make(tab, id, a), Known(tab, id, a), e);
    }
  }

  lemma FollowsNext(tab: seq<CType>, m: Made, k: int, e: Elem)
    requires TabOk(tab) && Follows(tab, m, k) && 0 <= k && ElemOk(e)
    ensures Follows(tab, Made(Applied(m.tab, e, m.id), Step(m.tab, e, m.id)), if k < |tab| then Step(tab, e, k) else k)
  {
    hide TabOk, Step, Applied, EntryFor;
    AppliedOk(m.tab, e, m.id);
    if k < |tab| { StepAlike(tab, m.tab, e, k); }
  }

  /** What the elements are put around, and everything before, is unchanged. */
  lemma {:induction false} MakeKeepsBelow(tab: seq<CType>, id: int, es: seq<Elem>)
    requires TabOk(tab) && 0 <= id < |tab| && Plain(es)
    ensures var m := Make(tab, id, es);
      TabOk(m.tab) && m.id >= id && forall i {:trigger m.tab[i]} :: 0 <= i <= id ==> m.tab[i] == tab[i]
    decreases |es|
  {
    MakeFollows(tab, id, es);
    if es != [] {
      var a, e := es[..|es| - 1], es[|es| - 1];
      var m := Make(tab, id, a);
      MakeKeepsBelow(tab, id, a);
      hide TabOk, Step, Applied;
      AppliedOk(m.tab, e, m.id);
    }
  }

  lemma {:induction false} BuildsBelow(tab: seq<CType>, tab2: seq<CType>, id: int, base: int, es: seq<Elem>)
    requires TabOk(tab) && Builds(tab, id, base, es) && 0 <= id < |tab| <= |tab2| && forall i {:trigger tab2[i]} :: 0 <= i <= id ==> tab2[i] == tab[i]
    ensures Builds(tab2, id, base, es)
    decreases |es|
  {
    if es != [] {
      assert EntryOk(tab, id);
      BuildsBelow(tab, tab2, tab[id].cid, base, es[..|es| - 1]);
    }
  }

  /** What is made is the type the elements say, with their qualifiers. */
  lemma {:induction false} MakeBuilds(tab: seq<CType>, id: int, es: seq<Elem>)
    requires TabOk(tab) && 0 <= id < |tab| && Plain(es)
    ensures var m := Make(tab, id, es); TabOk(m.tab) && Builds(m.tab, m.id, id, es)
    decreases |es|
  {
    MakeFollows(tab, id, es);
    if es != [] {
      var a, e := es[..|es| - 1], es[|es| - 1];
      var m := Make(tab, id, a);
      MakeBuilds(tab, id, a);
      hide TabOk, Step, Applied;
      AppliedOk(m.tab, e, m.id);
      BuildsBelow(m.tab, Applied(m.tab, e, m.id), m.id, id, a);
    }
  }

  /** Some part of the elements that ends in a qualified pointer is, without
      qualifiers, the type of entry `p`. */
  ghost predicate Shares(tab: seq<CType>, id: int, es: seq<Elem>, p: int)
    requires 0 <= id < |tab|
  { exists k {:trigger es[k]} :: 0 <= k < |es| && Qualified(es[k]) && Known(tab, id, es[..k + 1]) == p }

  lemma SharesNext(tab: seq<CType>, id: int, es: seq<Elem>, p: int)
    requires 0 <= id < |tab| && es != []
    ensures Shares(tab, id, es, p) <==> Shares(tab, id, es[..|es| - 1], p) || (Qualified(es[|es| - 1]) && Known(tab, id, es) == p)
  {
    hide Known;
    var n, a := |es| - 1, es[..|es| - 1];
    assert es[..n + 1] == es;
    if Shares(tab, id, es, p) {
      var k :| 0 <= k < |es| && Qualified(es[k]) && Known(tab, id, es[..k + 1]) == p;
      if k < n { assert es[..k + 1] == a[..k + 1] && es[k] == a[k]; }
    }
    if Shares(tab, id, a, p) {
      var k :| 0 <= k < n && Qualified(a[k]) && Known(tab, id, a[..k + 1]) == p;
      assert es[..k + 1] == a[..k + 1] && es[k] == a[k];
    }
  }

  /** A declarator changes an entry that was there if and only if some part of it
      that ends in a qualified pointer is, without qualifiers, the type of that
      entry. */
  lemma {:induction false} QualifierShared(tab: seq<CType>, id: int, es: seq<Elem>, p: int)
    requires TabOk(tab) && 0 <= id < |tab| && Plain(es) && 0 <= p < |tab|
    ensures Make(tab, id, es).tab[p] != tab[p] <==> Shares(tab, id, es, p)
    decreases |es|
  {
    if es != [] {
      var a, e := es[..|es| - 1], es[|es| - 1];
      QualifierShared(tab, id, a, p);
      MakeFollows(tab, id, a);
      MakeFollows(tab, id, es);
      SharesNext(tab, id, es, p);
      ChangesNext(tab, Make(tab, id, a), Known(tab, id, a), e, p);
    }
  }

  lemma ChangesNext(tab: seq<CType>, m: Made, k: int, e: Elem, p: int)
    requires TabOk(tab) && Follows(tab, m, k) && 0 <= k <= |tab| && ElemOk(e) && 0 <= p < |tab|
    ensures Applied(m.tab, e, m.id)[p] != tab[p] <==> m.tab[p] != tab[p] || (Qualified(e) && (if k < |tab| then Step(tab, e, k) else k) == p)
  {
    hide TabOk, Step, Applied;
    AppliedOk(m.tab, e, m.id);
    if k < |tab| { StepAlike(tab, m.tab, e, k); }
  }

  /** Without qualifiers, entries are only added. */
  lemma UnqualifiedKeeps(tab: seq<CType>, id: int, es: seq<Elem>)
    requires TabOk(tab) && 0 <= id < |tab| && Plain(es) && Unqualified(es)
    ensures tab <= Make(tab, id, es).tab
  {
    forall p | 0 <= p < |tab| ensures Make(tab, id, es).tab[p] == tab[p] { QualifierShared(tab, id, es, p); }
  }

  /** An entry stays good if no size changes. */
  lemma EntryKept(tab: seq<CType>, tab2: seq<CType>, i: int)
    requires TabOk(tab) && 0 <= i < |tab| <= |tab2| && tab2[i].kind == tab[i].kind && tab2[i].cid == tab[i].cid
    requires (forall j {:trigger tab2[j]} :: 0 <= j < |tab| ==> tab2[j].size == tab[j].size) && (tab[i].kind.KPtr? || tab2[i] == tab[i])
    ensures EntryOk(tab2, i)
  {
    assert EntryOk(tab, i);
    if tab[i].kind.KArray? {
      var c := tab[i].cid;
      var n: nat :| tab[i].size == SatMul(tab[c].size, n);
      assert tab2[i].size == SatMul(tab2[c].size, n);
    }
  }

  predicate ElemOk(e: Elem) { !e.Base? && (e.Array? ==> 0 <= e.count) }

  /** What the grammar yields: no base, no negative count. */
  ghost predicate Plain(es: seq<Elem>) { forall i {:trigger es[i]} :: 0 <= i < |es| ==> ElemOk(es[i]) }

  lemma {:induction false} PtrsPlain(src: string, pos: nat)
    requires pos <= |src|
    ensures Plain(Ptrs(src, pos).1)
    decreases |src| - pos
  {
    if PeekIs(src, pos, '*') { PtrsPlain(src, Quals(src, TokEnd(src, pos)).0); }
  }

  lemma CountPlain(src: string, pos: nat)
    requires pos <= |src|
    ensures Count(src, pos).1 >= 0
  {
  }

  lemma {:induction false} SuffixesPlain(src: string, pos: nat)
    requires pos <= |src| && Suffixes(src, pos).Some?
    ensures Plain(Suffixes(src, pos).value.1)
    decreases |src| - pos
  {
    hide Count;
    if PeekIs(src, pos, '[') || PeekIs(src, pos, '(') {
      CountPlain(src, TokEnd(src, pos));
      SuffixesPlain(src, Suffix(src, pos).value.0);
    }
  }

  lemma {:induction false} RevPlain(es: seq<Elem>)
    requires Plain(es)
    ensures Plain(Rev(es))
  {
    if es != [] { RevPlain(es[1..]); }
  }

  lemma {:induction false} ElemsPlain(src: string, pos: nat)
    requires pos <= |src| && Declarator(src, pos).Some?
    ensures Plain(Declarator(src, pos).value.1)
    decreases |src| - pos
  {
    hide Ptrs, Suffixes, Rev;
    PtrsPlain(src, pos);
    var p := Ptrs(src, pos).0;
    if PeekIs(src, p, '(') && IsGroup(src, p) {
      ElemsPlain(src, TokEnd(src, p));
      var q := TokEnd(src, Declarator(src, TokEnd(src, p)).value.0);
      SuffixesPlain(src, q);
      RevPlain(Suffixes(src, q).value.1);
    } else {
      SuffixesPlain(src, p);
      RevPlain(Suffixes(src, p).value.1);
    }
  }
}
