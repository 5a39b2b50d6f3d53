/** The names of C types: printing a type, and reading a printed name back. */
module CTypeNames {
  import opened Wrappers
  import opened DeclSyntax
  import opened CTypes

  // -- What is printed ---------------------------------------------------------------

  /** The element count an array shows, from its size and that of an element. */
  function CountText(size: int, child: int): string
    requires 0 <= size && 0 <= child
  { if size == U32_MAX || child == 0 then "?" else Dec(size / child) }

  predicate SizesOk(ls: seq<Level>, basesize: int) {
    0 <= basesize <= U32_MAX && forall i {:trigger ls[i]} :: 0 <= i < |ls| ==> ls[i].LArray? ==> 0 <= ls[i].size <= U32_MAX
  }

  /** The prefixes and the suffixes of the levels. */
  function PreOf(ls: seq<Level>, ptrto: bool): string {
    if ls == [] then ""
    else if ls[0].LPtr? then PreOf(ls[1..], true) + PtrText(ls[0].isconst, ls[0].isvolatile)
    else PreOf(ls[1..], false) + if ptrto then "(" else ""
  }

  function SufOf(ls: seq<Level>, basesize: int, ptrto: bool): string
    requires SizesOk(ls, basesize)
  {
    if ls == [] then ""
    else if ls[0].LPtr? then SufOf(ls[1..], basesize, true)
    else (if ptrto then ")" else "") + LevelText(ls, basesize) + SufOf(ls[1..], basesize, false)
  }

  function LevelText(ls: seq<Level>, basesize: int): string
    requires SizesOk(ls, basesize) && ls != [] && !ls[0].LPtr?
  {
    SizeInRange(ls[1..], basesize);
    if ls[0].LArray? then "[" + CountText(ls[0].size, SizeOf(ls[1..], basesize)) + "]" else "()"
  }

  lemma SizeInRange(ls: seq<Level>, basesize: int)
    requires SizesOk(ls, basesize)
    ensures 0 <= SizeOf(ls, basesize) <= U32_MAX
  {
  }

  /** The printed form of a level. */
  function PieceOf(ls: seq<Level>, basesize: int): Piece
    requires SizesOk(ls, basesize) && ls != []
  {
    match ls[0]
    case LPtr(c, v) => PPtr(c, v)
    case LFunc => PFunc
    case LArray(s) =>
      SizeInRange(ls[1..], basesize);
      var c := SizeOf(ls[1..], basesize);
      PArray(CountText(s, c), if s == U32_MAX || c == 0 then U32_MAX else if s / c < 1 then 1 else s / c)
  }

  function PiecesOf(ls: seq<Level>, basesize: int): (ps: seq<Piece>)
    requires SizesOk(ls, basesize)
    ensures |ps| == |ls|
  { if ls == [] then [] else [PieceOf(ls, basesize)] + PiecesOf(ls[1..], basesize) }

  lemma {:induction false} PiecesShow(ls: seq<Level>, basesize: int)
    requires SizesOk(ls, basesize)
    ensures AllShow(PiecesOf(ls, basesize))
  {
    if ls != [] {
      PiecesShow(ls[1..], basesize);
      SizeInRange(ls[1..], basesize);
      ShowsHead(ls, basesize);
      var ps := PiecesOf(ls, basesize);
      hide Shows;
      forall i | 0 <= i < |ps| ensures Shows(ps[i]) {
        if i > 0 { assert ps[i] == PiecesOf(ls[1..], basesize)[i - 1]; }
      }
    }
  }

  lemma ShowsHead(ls: seq<Level>, basesize: int)
    requires SizesOk(ls, basesize) && ls != []
    ensures Shows(PieceOf(ls, basesize))
  {
    if ls[0].LArray? {
      SizeInRange(ls[1..], basesize);
      var s, c := ls[0].size, SizeOf(ls[1..], basesize);
      if s != U32_MAX && c != 0 {
        Quotient(s, c);
        var n: nat := s / c;
        assert n <= U32_MAX && CountText(s, c) == Dec(n);
      }
    }
  }

  lemma Quotient(s: int, c: int)
    requires 0 <= s && 0 < c
    ensures 0 <= s / c <= s
  {
    var q := s / c;
    assert s == c * q + s % c;
    MulUp(c, q);
  }

  lemma {:induction false} MulUp(c: int, q: int)
    requires 1 <= c && 0 <= q
    ensures c * q >= q
    decreases q
  {
    if q > 0 {
      MulUp(c, q - 1);
      assert c * q == c * (q - 1) + c;
    }
  }

  lemma {:induction false} PrintsPieces(ls: seq<Level>, basesize: int, ptrto: bool)
    requires SizesOk(ls, basesize)
    ensures PreOf(ls, ptrto) == Pre(PiecesOf(ls, basesize), ptrto) && SufOf(ls, basesize, ptrto) == Suf(PiecesOf(ls, basesize), ptrto)
  {
    if ls != [] {
      var ps := PiecesOf(ls, basesize);
      assert ps[0] == PieceOf(ls, basesize) && ps[1..] == PiecesOf(ls[1..], basesize);
      PrintsPieces(ls[1..], basesize, ls[0].LPtr?);
      if !ls[0].LPtr? { assert SufText(ps[0]) == LevelText(ls, basesize); }
    }
  }

  // -- What is read back ----------------------------------------------------------------

  /** An array without elements whose elements have a size. */
  predicate EmptyArray(ls: seq<Level>, basesize: int) {
    ls != [] && ((ls[0] == LArray(0) && SizeOf(ls[1..], basesize) != 0) || EmptyArray(ls[1..], basesize))
  }

  /** The size of every array is a multiple of its elements' size, up to the
      maximum. */
  ghost predicate Counted(ls: seq<Level>, basesize: int)
  {
    ls != [] ==> (ls[0].LArray? ==> exists n: nat {:trigger SatMul(SizeOf(ls[1..], basesize), n)} :: ls[0].size == SatMul(SizeOf(ls[1..], basesize), n)) && Counted(ls[1..], basesize)
  }

  /** The levels the printed pieces build. */
  function Rebuilt(ls: seq<Level>, basesize: int): seq<Level>
    requires SizesOk(ls, basesize)
  {
    if ls == [] then []
    else
      var r := Rebuilt(ls[1..], basesize);
      [if ls[0].LArray? then LArray(SatMul(SizeOf(r, basesize), PieceOf(ls, basesize).count)) else ls[0]] + r
  }

  /** The levels come back exactly if no array is empty. */
  lemma {:induction false} RebuiltSame(ls: seq<Level>, basesize: int)
    requires SizesOk(ls, basesize) && Counted(ls, basesize)
    ensures Rebuilt(ls, basesize) == ls <==> !EmptyArray(ls, basesize)
  {
    if ls != [] {
      RebuiltSame(ls[1..], basesize);
      SizeInRange(ls[1..], basesize);
      assert Rebuilt(ls, basesize)[1..] == Rebuilt(ls[1..], basesize);
      if Rebuilt(ls[1..], basesize) == ls[1..] && ls[0].LArray? {
        CountBack(ls[0].size, SizeOf(ls[1..], basesize));
      }
    }
  }

  lemma CountBack(s: int, c: int)
    requires 0 <= c <= U32_MAX && exists n: nat {:trigger SatMul(c, n)} :: s == SatMul(c, n)
    ensures 0 <= s
    ensures var n := if s == U32_MAX || c == 0 then U32_MAX else if s / c < 1 then 1 else s / c; SatMul(c, n) == s <==> !(s == 0 && c != 0)
  {
    var n: nat :| s == SatMul(c, n);
    if c == 0 {
    } else if s == U32_MAX {
      assert c * U32_MAX >= U32_MAX;
    } else {
      assert s == c * n;
      Divides(c, n);
    }
  }

  lemma Divides(c: int, n: nat)
    requires c > 0
    ensures (c * n) / c == n && c * n >= 0 && (c * n == 0 <==> n == 0)
  {
    var q, r := (c * n) / c, (c * n) % c;
    assert c * n == c * q + r;
    Unique(c, q, n, r);
    MulUp(c, n);
  }

  lemma Unique(c: int, q: int, n: int, r: int)
    requires c > 0 && c * n == c * q + r && 0 <= r < c
    ensures q == n
  {
    var d := n - q;
    assert c * d == r;
    MulAway(c, d);
  }

  lemma MulAway(c: int, d: int)
    requires c > 0
    ensures (d > 0 ==> c * d >= c) && (d < 0 ==> c * d <= -c)
  {
    if d > 0 { MulUp(d, c); assert d * c == c * d; }
    if d < 0 { MulUp(-d, c); assert -d * c == -(c * d); }
  }

  /** The entry made for a level is that level again. */
  lemma RebuiltTop(tab: seq<CType>, id: int, basesize: int, ls: seq<Level>)
    requires TabOk(tab) && ls != [] && SizesOk(ls, basesize)
    requires 0 <= id < |tab| && 0 <= tab[id].cid < |tab| && tab[id] == EntryFor(tab, ElemOf(PieceOf(ls, basesize)), tab[id].cid)
    requires tab[tab[id].cid].size == SizeOf(Rebuilt(ls[1..], basesize), basesize)
    ensures !tab[id].kind.KOther? && Rebuilt(ls, basesize) == [LevelOf(tab[id])] + Rebuilt(ls[1..], basesize)
    ensures tab[id].size == SizeOf(Rebuilt(ls, basesize), basesize)
  {
    hide SatMul, CountText;
    assert EntryOk(tab, id);
  }

  /** One level more. */
  lemma RebuiltLevel(tab: seq<CType>, id: int, base: int, ls: seq<Level>)
    requires TabOk(tab) && 0 <= base < |tab| && ls != [] && SizesOk(ls, tab[base].size)
    requires 0 <= id < |tab| && 0 <= tab[id].cid < |tab| && tab[id] == EntryFor(tab, ElemOf(PieceOf(ls, tab[base].size)), tab[id].cid)
    requires var c, r := tab[id].cid, Rebuilt(ls[1..], tab[base].size);
      Levels(tab, c) == r + Levels(tab, base) && BaseOf(tab, c) == BaseOf(tab, base) && tab[c].size == SizeOf(r, tab[base].size)
    ensures Levels(tab, id) == Rebuilt(ls, tab[base].size) + Levels(tab, base) && BaseOf(tab, id) == BaseOf(tab, base)
    ensures tab[id].size == SizeOf(Rebuilt(ls, tab[base].size), tab[base].size)
  {
    hide SatMul, CountText, PieceOf;
    RebuiltTop(tab, id, tab[base].size, ls);
    LevelsFrom(tab, id);
    hide EntryFor, LevelOf, EntryOk, Rebuilt, TabOk, SizesOk, Levels, BaseOf, SizeOf;
    OneLevelMore(LevelOf(tab[id]), Rebuilt(ls[1..], tab[base].size), Levels(tab, base));
  }

  lemma LevelsFrom(tab: seq<CType>, id: int)
    requires TabOk(tab) && 0 <= id < |tab| && !tab[id].kind.KOther?
    ensures EntryOk(tab, id) && Levels(tab, id) == [LevelOf(tab[id])] + Levels(tab, tab[id].cid) && BaseOf(tab, id) == BaseOf(tab, tab[id].cid)
  {
    assert EntryOk(tab, id);
  }

  lemma OneLevelMore(x: Level, r: seq<Level>, t: seq<Level>)
    ensures [x] + (r + t) == ([x] + r) + t
  {
  }

  /** What is built from printed pieces over a type: the levels rebuilt, above
      those of that type. */
  lemma {:induction false} BuildsRebuilt(tab: seq<CType>, id: int, base: int, ls: seq<Level>)
    requires TabOk(tab) && 0 <= base < |tab| && SizesOk(ls, tab[base].size)
    requires Builds(tab, id, base, ElemsOf(PiecesOf(ls, tab[base].size)))
    ensures 0 <= id < |tab| && Levels(tab, id) == Rebuilt(ls, tab[base].size) + Levels(tab, base) && BaseOf(tab, id) == BaseOf(tab, base)
    ensures ls != [] ==> tab[id].size == SizeOf(Rebuilt(ls, tab[base].size), tab[base].size)
    decreases |ls|
  {
    var sz := tab[base].size;
    var ps := PiecesOf(ls, sz);
    if ls == [] {
      assert [] + Levels(tab, base) == Levels(tab, base);
    } else {
      assert ps[1..] == PiecesOf(ls[1..], sz);
      var es := ElemsOf(ps);
      assert es == ElemsOf(ps[1..]) + [ElemOf(ps[0])];
      assert es[..|es| - 1] == ElemsOf(ps[1..]);
      BuildsRebuilt(tab, tab[id].cid, base, ls[1..]);
      RebuiltLevel(tab, id, base, ls);
    }
  }

  // -- Printing --------------------------------------------------------------------------

  function Cat(ss: seq<string>): string { if ss == [] then "" else Cat(ss[..|ss| - 1]) + ss[|ss| - 1] }
  function RevCat(ss: seq<string>): string { if ss == [] then "" else ss[|ss| - 1] + RevCat(ss[..|ss| - 1]) }

  lemma {:induction false} TabSizes(tab: seq<CType>, id: int)
    requires TabOk(tab) && 0 <= id < |tab|
    ensures SizesOk(Levels(tab, id), tab[BaseOf(tab, id)].size)
    decreases id
  {
    assert EntryOk(tab, id) && EntryOk(tab, BaseOf(tab, id));
    if !tab[id].kind.KOther? {
      TabSizes(tab, tab[id].cid);
      var ls := Levels(tab, id);
      forall i | 0 <= i < |ls| && ls[i].LArray? ensures 0 <= ls[i].size <= U32_MAX {
        if i > 0 { assert ls[i] == Levels(tab, tab[id].cid)[i - 1]; }
      }
    }
  }

  /** How far the walk is: the levels still to print, and what is printed. */
  ghost predicate Walked(ls: seq<Level>, basesize: int, rest: seq<Level>, ptrto: bool, prefixes: seq<string>, suffixes: seq<string>) {
    && SizesOk(ls, basesize) && SizesOk(rest, basesize)
    && PreOf(ls, false) == PreOf(rest, ptrto) + RevCat(prefixes) && SufOf(ls, basesize, false) == Cat(suffixes) + SufOf(rest, basesize, ptrto)
  }

  lemma CatMore(ss: seq<string>, x: string)
    ensures Cat(ss + [x]) == Cat(ss) + x && RevCat(ss + [x]) == x + RevCat(ss)
  {
    assert (ss + [x])[..|ss|] == ss;
  }

  lemma WalkedPtr(ls: seq<Level>, basesize: int, rest: seq<Level>, ptrto: bool, prefixes: seq<string>, suffixes: seq<string>)
    requires Walked(ls, basesize, rest, ptrto, prefixes, suffixes) && rest != [] && rest[0].LPtr?
    ensures Walked(ls, basesize, rest[1..], true, prefixes + [PtrText(rest[0].isconst, rest[0].isvolatile)], suffixes)
  {
    var x := PtrText(rest[0].isconst, rest[0].isvolatile);
    CatMore(prefixes, x);
    Assoc(PreOf(rest[1..], true), x, RevCat(prefixes));
  }

  lemma WalkedSuf(ls: seq<Level>, basesize: int, rest: seq<Level>, ptrto: bool, prefixes: seq<string>, suffixes: seq<string>, prefixes2: seq<string>, suffixes2: seq<string>)
    requires Walked(ls, basesize, rest, ptrto, prefixes, suffixes) && rest != [] && !rest[0].LPtr?
    requires prefixes2 == if ptrto then prefixes + ["("] else prefixes
    requires suffixes2 == (if ptrto then suffixes + [")"] else suffixes) + [LevelText(rest, basesize)]
    ensures Walked(ls, basesize, rest[1..], false, prefixes2, suffixes2)
  {
    hide PtrText, LevelText, PreOf, SufOf, Cat, RevCat;
    var x, close := if ptrto then "(" else "", if ptrto then ")" else "";
    var t, r := LevelText(rest, basesize), SufOf(rest[1..], basesize, false);
    SufHead(rest, basesize, ptrto);
    assert RevCat(prefixes2) == x + RevCat(prefixes) by { CatMore(prefixes, "("); }
    assert Cat(suffixes2) == Cat(suffixes) + close + t by { CatMore(suffixes, ")"); CatMore(if ptrto then suffixes + [")"] else suffixes, t); }
    Assoc(PreOf(rest[1..], false), x, RevCat(prefixes));
    Regroup(Cat(suffixes), close, t, r);
  }

  lemma Regroup(a: string, b: string, c: string, d: string)
    ensures a + (b + c + d) == a + b + c + d
  {
  }

  lemma SufHead(rest: seq<Level>, basesize: int, ptrto: bool)
    requires SizesOk(rest, basesize) && rest != [] && !rest[0].LPtr?
    ensures SufOf(rest, basesize, ptrto) == (if ptrto then ")" else "") + LevelText(rest, basesize) + SufOf(rest[1..], basesize, false)
    ensures PreOf(rest, ptrto) == PreOf(rest[1..], false) + if ptrto then "(" else ""
  {
  }

  /** The declarator of a type and its base; nothing for more levels than the
      guard allows. */
  method PrintDecl(cts: CTState, id: int) returns (r: Option<(string, int)>)
    requires cts.Valid() && 0 <= id < |cts.tab|
    ensures var ls := Levels(cts.tab, id); var b := BaseOf(cts.tab, id);
      && SizesOk(ls, cts.tab[b].size)
      && r == if |ls| >= GUARD then None else Some((PreOf(ls, false) + SufOf(ls, cts.tab[b].size, false), b))
  {
    hide PreOf, SufOf, PtrText, Cat, RevCat, Levels, BaseOf, Walked;
    ghost var ls, b := Levels(cts.tab, id), BaseOf(cts.tab, id);
    ghost var bs := cts.tab[b].size;
    TabSizes(cts.tab, id);
    var prefixes: seq<string>, suffixes: seq<string> := [], [];
    var ptrto, cur, guard, done := false, id, 0, false;
    WalkStart(ls, bs);
    while !done
      invariant 0 <= cur < |cts.tab| && cts.Valid() && guard <= GUARD
      invariant BaseOf(cts.tab, cur) == b && Walked(ls, bs, Levels(cts.tab, cur), ptrto, prefixes, suffixes)
      invariant if done then cur == b && |ls| < GUARD else |ls| == guard + |Levels(cts.tab, cur)|
      decreases !done, GUARD - guard
    {
      LevelsStep(cts.tab, cur);
      guard := guard + 1;
      if guard > GUARD {
        return None;
      }
      var t := cts.tab[cur];
      ghost var rest := Levels(cts.tab, cur);
      match t.kind
      case KPtr =>
        WalkedPtr(ls, bs, rest, ptrto, prefixes, suffixes);
        var s := "*";
        if t.isconst {
          s := s + "const";
        }
        if t.isvolatile {
          if |s| > 1 {
            s := s + " ";
          }
          s := s + "volatile";
        }
        PtrTextIs(t.isconst, t.isvolatile, s);
        prefixes := prefixes + [s];
        ptrto := true;
        cur := t.cid;
      case KArray =>
        ghost var p0, s0, f0 := prefixes, suffixes, ptrto;
        if ptrto {
          ptrto := false;
          prefixes := prefixes + ["("];
          suffixes := suffixes + [")"];
        }
        var child := cts.tab[t.cid];
        assert EntryOk(cts.tab, t.cid) && EntryOk(cts.tab, cur);
        if child.size != 0 { Quotient(t.size, child.size); }
        var n := if t.size == U32_MAX || child.size == 0 then "?" else Dec(t.size / child.size);
        suffixes := suffixes + ["[" + n + "]"];
        SizeIs(cts.tab, t.cid);
        WalkedSuf(ls, bs, rest, f0, p0, s0, prefixes, suffixes);
        cur := t.cid;
      case KFunc =>
        ghost var p0, s0, f0 := prefixes, suffixes, ptrto;
        if ptrto {
          ptrto := false;
          prefixes := prefixes + ["("];
          suffixes := suffixes + [")"];
        }
        suffixes := suffixes + ["()"];
        WalkedSuf(ls, bs, rest, f0, p0, s0, prefixes, suffixes);
        cur := t.cid;
      case KOther =>
        done := true;
    }
    var decl := Concat(prefixes, suffixes);
    WalkEnd(cts.tab, ls, bs, cur, ptrto, prefixes, suffixes);
    r := Some((decl, cur));
  }

  lemma WalkStart(ls: seq<Level>, basesize: int)
    requires SizesOk(ls, basesize)
    ensures Walked(ls, basesize, ls, false, [], [])
  {
    assert PreOf(ls, false) + "" == PreOf(ls, false);
  }

  lemma WalkEnd(tab: seq<CType>, ls: seq<Level>, basesize: int, cur: int, ptrto: bool, prefixes: seq<string>, suffixes: seq<string>)
    requires TabOk(tab) && 0 <= cur < |tab| && tab[cur].kind.KOther? && Walked(ls, basesize, Levels(tab, cur), ptrto, prefixes, suffixes)
    ensures PreOf(ls, false) + SufOf(ls, basesize, false) == RevCat(prefixes) + Cat(suffixes)
  {
    NoLevels(tab, cur);
    assert PreOf([], ptrto) == "" && SufOf([], basesize, ptrto) == "";
    hide TabOk, SizesOk, Levels, PreOf, SufOf, RevCat, Cat;
    WithEmpty(RevCat(prefixes));
    WithEmpty(Cat(suffixes));
  }

  lemma WithEmpty(s: string)
    ensures "" + s == s && s + "" == s
  {
  }

  lemma NoLevels(tab: seq<CType>, cur: int)
    requires TabOk(tab) && 0 <= cur < |tab| && tab[cur].kind.KOther?
    ensures Levels(tab, cur) == []
  {
  }

  lemma PtrTextIs(c: bool, v: bool, s: string)
    requires s == (if v then (if c then "*const" + " " else "*") + "volatile" else if c then "*const" else "*")
    ensures s == PtrText(c, v)
  {
  }

  lemma LevelsStep(tab: seq<CType>, id: int)
    requires TabOk(tab) && 0 <= id < |tab|
    ensures EntryOk(tab, id) && var t := tab[id];
      if t.kind.KOther? then Levels(tab, id) == [] && BaseOf(tab, id) == id
      else Levels(tab, id) != [] && Levels(tab, id)[0] == LevelOf(t) && Levels(tab, id)[1..] == Levels(tab, t.cid) && BaseOf(tab, id) == BaseOf(tab, t.cid)
  {
    assert EntryOk(tab, id);
  }

  /** The prefixes in reverse, then the suffixes. */
  method Concat(prefixes: seq<string>, suffixes: seq<string>) returns (decl: string)
    ensures decl == RevCat(prefixes) + Cat(suffixes)
  {
    decl := "";
    var i := |prefixes|;
    assert prefixes[..i] == prefixes;
    while i > 0
      invariant 0 <= i <= |prefixes| && RevCat(prefixes) == decl + RevCat(prefixes[..i])
    {
      assert prefixes[..i][..i - 1] == prefixes[..i - 1];
      decl := decl + prefixes[i - 1];
      i := i - 1;
    }
    assert decl == RevCat(prefixes);
    while i < |suffixes|
      invariant 0 <= i <= |suffixes| && decl == RevCat(prefixes) + Cat(suffixes[..i])
    {
      CatMore(suffixes[..i], suffixes[i]);
      assert suffixes[..i + 1] == suffixes[..i] + [suffixes[i]];
      Assoc(RevCat(prefixes), Cat(suffixes[..i]), suffixes[i]);
      decl := decl + suffixes[i];
      i := i + 1;
    }
    assert suffixes[..i] == suffixes;
  }

  lemma {:induction false} TabCounted(tab: seq<CType>, id: int)
    requires TabOk(tab) && 0 <= id < |tab|
    ensures Counted(Levels(tab, id), tab[BaseOf(tab, id)].size)
    decreases id
  {
    assert EntryOk(tab, id);
    if !tab[id].kind.KOther? {
      TabCounted(tab, tab[id].cid);
      SizeIs(tab, tab[id].cid);
    }
  }
}
