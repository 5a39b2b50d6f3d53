/** Reading the printed name of a type back. */
module CTypeRoundTrip {
  import opened Wrappers
  import opened DeclSyntax
  import opened CTypes
  import opened CTypeNames

  function TrimLeft(s: string): (t: string)
    ensures |t| <= |s|
  { if s != [] && IsSpace(s[0]) then TrimLeft(s[1..]) else s }

  function TrimRight(s: string): (t: string)
    ensures |t| <= |s|
  { if s != [] && IsSpace(s[|s| - 1]) then TrimRight(s[..|s| - 1]) else s }

  function Trim(s: string): string { TrimRight(TrimLeft(s)) }

  /** Where a base name may end. */
  predicate EndsBase(c: char) { c == ' ' || c == '*' || c == '(' || c == '[' }

  /** The longest known prefix of a name, among the first `n` places it may end
      at: where it ends and how long it is without spaces. */
  function Longest(names: map<string, int>, s: string, n: nat): (r: (nat, nat))
    requires n <= |s|
    ensures r.0 <= n
  {
    if n == 0 then (0, 0)
    else
      var r := Longest(names, s, n - 1);
      var c := Trim(s[..n - 1]);
      if EndsBase(s[n - 1]) && c != [] && c in names && |c| > r.1 then (n - 1, |c|) else r
  }

  /** A name splits into its base and its declarator. */
  method SplitName(names: map<string, int>, s: string) returns (base: string, decl: string)
    ensures var r := Longest(names, s, |s|);
      (base, decl) == if r.1 > 0 then (Trim(s[..r.0]), Trim(s[r.0..])) else (s, "")
  {
    var best, len, i := 0, 0, 1;
    while i <= |s|
      invariant 1 <= i <= |s| + 1 && (best, len) == Longest(names, s, i - 1)
    {
      if EndsBase(s[i - 1]) {
        var cand := Trim(s[..i - 1]);
        if cand != [] && cand in names && |cand| > len {
          best, len := i - 1, |cand|;
        }
      }
      i := i + 1;
    }
    if len > 0 {
      return Trim(s[..best]), Trim(s[best..]);
    }
    return s, "";
  }

  /** Reads the name of a type: a known base, and a declarator around it. */
  method CheckTypeName(cts: CTState, name: string) returns (id: Option<int>)
    requires cts.Valid()
    modifies cts`tab
    ensures cts.Valid() && (id.Some? ==> 0 <= id.value < |cts.tab|)
    ensures var s := Trim(name); var r := Longest(cts.names, s, |s|);
      if r.1 == 0 || Trim(s[r.0..]) == "" || s in cts.names then cts.tab == old(cts.tab) && (s in cts.names && (r.1 == 0 || Trim(s[r.0..]) != "") ==> id == Some(cts.names[s]))
      else if Trim(s[..r.0]) !in cts.names then id.None?
      else var d := Declarator(Trim(s[r.0..]), 0);
        && (id.Some? <==> d.Some? && d.value.0 == |Trim(s[r.0..])|)
        && (id.Some? ==> Made(cts.tab, id.value) == Make(old(cts.tab), cts.names[Trim(s[..r.0])], d.value.1))
  {
    hide Longest, Trim, Declarator, Make;
    var s := Trim(name);
    var base, decl := SplitName(cts.names, s);
    if decl != "" && s in cts.names {
      return Some(cts.names[s]);
    }
    if base !in cts.names {
      return None;
    }
    if decl == "" {
      return Some(cts.names[base]);
    }
    var ok, t, end := cts.ParseAbsDecl(decl, cts.names[base]);
    if !ok || end != |decl| {
      return None;
    }
    id := Some(t);
  }

  // -- Printed names split where they should ------------------------------------------------

  /** A name of a base type: no punctuation, no spaces around it. */
  ghost predicate BaseName(s: string) { s != [] && !IsSpace(s[0]) && !IsSpace(s[|s| - 1]) && forall i {:trigger s[i]} :: 0 <= i < |s| ==> !IsPunct(s[i]) }

  ghost predicate Unpunctuated(n: string) { forall i {:trigger n[i]} :: 0 <= i < |n| ==> !IsPunct(n[i]) }

  /** A base name and a star, with or without a space. */
  predicate Starred(n: string, base: string) { n == base + " *" || n == base + "*" }

  /** A name without punctuation, or a base name and a star, for the unqualified
      pointer to that base: `void *`. */
  ghost predicate NameOk(names: map<string, int>, tab: seq<CType>, n: string)
    requires n in names
  {
    Unpunctuated(n) || exists base :: StarOf(names, tab, n, base)
  }

  ghost predicate StarOf(names: map<string, int>, tab: seq<CType>, n: string, base: string)
    requires n in names
  {
    BaseName(base) && Starred(n, base) && base in names && 0 <= names[n] < |tab| && tab[names[n]] == CType(KPtr, names[base], false, false, POINTER_SIZE)
  }

  ghost predicate NamesOk(names: map<string, int>, tab: seq<CType>) { forall n {:trigger n in names} :: n in names ==> NameOk(names, tab, n) }

  /** The names of the source: identifiers and words, and two for the pointer to
      `void`. */
  lemma BuiltinNames(names: map<string, int>, tab: seq<CType>)
    requires "void" in names && "void *" in names && "void*" in names && names["void*"] == names["void *"]
    requires var p := names["void *"]; 0 <= p < |tab| && tab[p] == CType(KPtr, names["void"], false, false, POINTER_SIZE)
    requires forall n {:trigger n in names} :: n in names && n != "void *" && n != "void*" ==> Unpunctuated(n)
    ensures NamesOk(names, tab)
  {
    forall n {:trigger n in names} | n in names
      ensures NameOk(names, tab, n)
    {
      if n == "void *" || n == "void*" { assert StarOf(names, tab, n, "void"); }
    }
  }

  /** All but one character of a known name is no punctuation, and the one is a
      star at its end. */
  lemma StarsLast(names: map<string, int>, tab: seq<CType>, n: string, i: nat)
    requires NamesOk(names, tab) && n in names && i < |n| && IsPunct(n[i])
    ensures i == |n| - 1 && n[i] == '*'
  {
    assert NameOk(names, tab, n);
    var base :| StarOf(names, tab, n, base);
    if i < |base| { assert n[i] == base[i]; }
  }

  /** The pointer a base name with a star stands for. */
  lemma StarPointer(names: map<string, int>, tab: seq<CType>, base: string)
    requires NamesOk(names, tab) && BaseName(base) && base in names && base + " *" in names
    ensures var p := names[base + " *"];
      0 <= p < |tab| && tab[p] == CType(KPtr, names[base], false, false, POINTER_SIZE)
  {
    var n := base + " *";
    assert NameOk(names, tab, n);
    assert n[|base| + 1] == '*';
    var b :| StarOf(names, tab, n, b);
    assert b[|b| - 1] == n[|b| - 1] && n[|base|] == ' ';
    assert |b| != |n| - 1;
    assert b == n[..|n| - 2] == base;
  }

  function FullName(base: string, decl: string): string {
    if decl == "" then base else if decl[0] == '[' then base + decl else base + " " + decl
  }

  lemma {:induction false} TrimLeftKeeps(s: string, i: nat)
    requires i < |s| && !IsSpace(s[i])
    ensures TrimLeft(s) != [] && |s| - |TrimLeft(s)| <= i && TrimLeft(s) == s[|s| - |TrimLeft(s)|..]
  {
    if IsSpace(s[0]) {
      TrimLeftKeeps(s[1..], i - 1);
      assert s[1..][|s[1..]| - |TrimLeft(s)|..] == s[|s| - |TrimLeft(s)|..];
    } else {
      assert s[0..] == s;
    }
  }

  lemma {:induction false} TrimRightKeeps(s: string, i: nat)
    requires i < |s| && !IsSpace(s[i])
    ensures i < |TrimRight(s)| <= |s| && TrimRight(s) == s[..|TrimRight(s)|]
    decreases |s|
  {
    if IsSpace(s[|s| - 1]) {
      TrimRightKeeps(s[..|s| - 1], i);
      assert s[..|s| - 1][..|TrimRight(s)|] == s[..|TrimRight(s)|];
    } else {
      assert s[..|s|] == s;
    }
  }

  /** Trimming keeps every character that is no space. */
  lemma TrimKeeps(s: string, i: nat)
    requires i < |s| && !IsSpace(s[i])
    ensures exists j :: 0 <= j < |Trim(s)| && Trim(s)[j] == s[i]
  {
    TrimLeftKeeps(s, i);
    var t, d := TrimLeft(s), |s| - |TrimLeft(s)|;
    assert t[i - d] == s[i];
    TrimRightKeeps(t, i - d);
    assert Trim(s)[i - d] == t[i - d];
  }

  lemma TrimNone(s: string)
    requires s == [] || (!IsSpace(s[0]) && !IsSpace(s[|s| - 1]))
    ensures Trim(s) == s
  {
  }

  lemma TrimEnd(s: string)
    requires s != [] && !IsSpace(s[0]) && !IsSpace(s[|s| - 1])
    ensures Trim(s + " ") == s && Trim(" " + s) == s
  {
    var a, b := s + " ", " " + s;
    assert a[0] == s[0] && a[|a| - 1] == ' ' && a[..|a| - 1] == s;
    assert TrimRight(s) == s;
    assert b[0] == ' ' && b[1..] == s && TrimLeft(s) == s;
  }

  /** No place before the end of the base is longer than the base. */
  lemma {:induction false} LongestWithin(names: map<string, int>, s: string, n: nat)
    requires n <= |s|
    ensures Longest(names, s, n).1 < n || n == 0
  {
    if n > 0 {
      LongestWithin(names, s, n - 1);
    }
  }

  /** What a declarator starts with and ends in. */
  ghost predicate DeclText(d: string) { d != [] && (d[0] == '*' || d[0] == '(' || d[0] == '[') && !IsSpace(d[|d| - 1]) }

  /** Behind a star comes no space. */
  ghost predicate StarText(d: string) { DeclText(d) && (d[0] == '*' ==> d == "*" || !IsSpace(d[1])) }

  /** A declarator that starts with a star without qualifiers. */
  predicate BareStar(d: string) { d != "" && d[0] == '*' && (d == "*" || EndsBase(d[1])) }

  /** Is the base with the declarator's first star a known name, too? */
  predicate TakesStar(names: map<string, int>, base: string, decl: string) { BareStar(decl) && base + " *" in names }

  lemma TrimAt(s: string, i: nat)
    requires i < |s| && !IsSpace(s[0]) && !IsSpace(s[i])
    ensures i < |Trim(s)| && Trim(s)[i] == s[i]
  {
    assert TrimLeft(s) == s;
    TrimRightKeeps(s, i);
  }

  /** Past the base, and its star, no prefix is a known name. */
  lemma LaterUnknown(names: map<string, int>, tab: seq<CType>, base: string, decl: string, m: nat)
    requires NamesOk(names, tab) && BaseName(base) && StarText(decl) && m <= |FullName(base, decl)|
    requires m > if decl[0] == '[' then |base| else if decl[0] == '*' && base + " *" in names then |base| + 2 else |base| + 1
    ensures Trim(FullName(base, decl)[..m]) !in names
  {
    hide NamesOk;
    var s := FullName(base, decl);
    var t, i := s[..m], if decl[0] == '[' then |base| else |base| + 1;
    assert t[0] == base[0] && t[i] == decl[0];
    TrimAt(t, i);
    if decl[0] == '*' && m > |base| + 2 {
      assert t[i + 1] == decl[1];
      TrimAt(t, i + 1);
    } else if decl[0] == '*' {
      assert t == base + " *";
      TrimNone(t);
    }
    if Trim(t) in names {
      StarsLast(names, tab, Trim(t), i);
    }
  }

  /** From the end of the base on, the longest known prefix is the base, with its
      star where that is known. */
  lemma {:induction false} LongestBase(names: map<string, int>, tab: seq<CType>, base: string, decl: string, n: nat)
    requires NamesOk(names, tab) && BaseName(base) && base in names && StarText(decl)
    requires |base| < n <= |FullName(base, decl)|
    ensures var e := if TakesStar(names, base, decl) && n > |base| + 2 then |base| + 2 else |base|;
      Longest(names, FullName(base, decl), n) == (e, e)
  {
    hide NamesOk, Longest, Trim;
    var s := FullName(base, decl);
    LongestStep(names, s, n);
    if n - 1 == |base| {
      LongestWithin(names, s, n - 1);
      assert s[..n - 1] == base;
      TrimNone(base);
    } else {
      LongestBase(names, tab, base, decl, n - 1);
      if decl[0] != '[' && n - 1 == |base| + 1 {
        assert s[..n - 1] == base + " ";
        TrimEnd(base);
      } else if decl[0] == '*' && base + " *" in names && n - 1 == |base| + 2 {
        assert s[..n - 1] == base + " *" && s[n - 1] == decl[1];
        TrimNone(base + " *");
      } else {
        LaterUnknown(names, tab, base, decl, n - 1);
      }
    }
  }

  lemma LongestStep(names: map<string, int>, s: string, n: nat)
    requires 0 < n <= |s|
    ensures var r, c := Longest(names, s, n - 1), Trim(s[..n - 1]);
      Longest(names, s, n) == if EndsBase(s[n - 1]) && c != [] && c in names && |c| > r.1 then (n - 1, |c|) else r
  {
  }

  /** A name whose base has no known star: it splits behind the base. */
  lemma SplitFull(names: map<string, int>, tab: seq<CType>, base: string, decl: string)
    requires NamesOk(names, tab) && BaseName(base) && base in names && StarText(decl) && (TakesStar(names, base, decl) ==> decl == "*")
    ensures var s := FullName(base, decl);
      base != "" && Trim(s) == s && Longest(names, s, |s|) == (|base|, |base|) && Trim(s[..|base|]) == base && Trim(s[|base|..]) == decl
    ensures FullName(base, decl) in names <==> TakesStar(names, base, decl)
  {
    hide NamesOk, Longest, Trim;
    var s := FullName(base, decl);
    LongestBase(names, tab, base, decl, |s|);
    FullParts(base, decl);
    assert s[..|s|] == s;
    if decl == "*" { assert s == base + " *"; } else { LaterUnknown(names, tab, base, decl, |s|); }
  }

  lemma FullParts(base: string, decl: string)
    requires BaseName(base) && DeclText(decl)
    ensures var s := FullName(base, decl);
      Trim(s) == s && Trim(s[..|base|]) == base && Trim(s[|base|..]) == decl
  {
    var s := FullName(base, decl);
    TrimNone(s);
    TrimNone(base);
    TrimNone(decl);
    TrimEnd(decl);
    assert s[..|base|] == base;
    assert s[|base|..] == if decl[0] == '[' then decl else " " + decl;
  }

  /** A name that goes on behind a base and star that are known: it splits behind
      the star. */
  lemma SplitStar(names: map<string, int>, tab: seq<CType>, base: string, decl: string)
    requires NamesOk(names, tab) && BaseName(base) && base in names && StarText(decl) && TakesStar(names, base, decl) && decl != "*"
    ensures var s, e := FullName(base, decl), |base| + 2;
      Trim(s) == s && s !in names && Longest(names, s, |s|) == (e, e) && Trim(s[..e]) == base + " *" && Trim(s[e..]) == decl[1..]
  {
    hide NamesOk, Longest, Trim;
    var s := FullName(base, decl);
    LongestBase(names, tab, base, decl, |s|);
    StarParts(base, decl);
    assert s[..|s|] == s;
    LaterUnknown(names, tab, base, decl, |s|);
  }

  lemma StarParts(base: string, decl: string)
    requires BaseName(base) && StarText(decl) && decl[0] == '*' && decl != "*"
    ensures var s, e := FullName(base, decl), |base| + 2;
      e <= |s| && Trim(s) == s && Trim(s[..e]) == base + " *" && Trim(s[e..]) == decl[1..]
  {
    hide Trim;
    var s, e := FullName(base, decl), |base| + 2;
    TrimNone(s);
    TrimNone(base + " *");
    TrimNone(decl[1..]);
    assert s[..e] == base + " *";
    assert s[e..] == decl[1..];
  }

  lemma {:induction false} LongestInside(names: map<string, int>, s: string, n: nat)
    requires n <= |s|
    ensures Longest(names, s, n).1 > 0 ==> Longest(names, s, n).0 < n
  {
    if n > 0 { LongestInside(names, s, n - 1); }
  }

  lemma BareName(names: map<string, int>, s: string)
    requires BaseName(s)
    ensures Trim(s) == s && var r := Longest(names, s, |s|); r.1 == 0 || Trim(s[r.0..]) != ""
  {
    TrimNone(s);
    LongestInside(names, s, |s|);
    var r := Longest(names, s, |s|);
    if r.1 > 0 {
      var t := s[r.0..];
      assert t[|t| - 1] == s[|s| - 1];
      TrimKeeps(t, |t| - 1);
    }
  }

  lemma TextStarts(ps: seq<Piece>)
    requires ps != []
    ensures DeclText(Text(ps))
  {
    hide Text, LayersOf, SufTexts;
    TextLayers(ps);
    LayersJoin(ps);
    LayersEdge(ps);
    LayersKinds(ps);
    var l := LayersOf(ps);
    if l.sufs != [] { SufsText(l.sufs); } else { EmptySuf(); }
    if l.ptrs != [] { PtrsText(l.ptrs); }
    PartsStart(PtrTexts(l.ptrs), if l.group == [] then "" else "(" + Text(l.group) + ")", SufTexts(l.sufs));
  }

  lemma PartsStart(st: string, g: string, t: string)
    requires st == "" || (st[0] == '*' && !IsSpace(st[|st| - 1]))
    requires g == "" || (g[0] == '(' && g[|g| - 1] == ')')
    requires t == "" || ((t[0] == '(' || t[0] == '[') && IsPunct(t[|t| - 1]))
    requires st != "" || g != "" || t != ""
    ensures DeclText(st + g + t)
  {
    var d := st + g + t;
    assert d[0] == if st != "" then st[0] else if g != "" then g[0] else t[0];
    assert d[|d| - 1] == if t != "" then t[|t| - 1] else if g != "" then g[|g| - 1] else st[|st| - 1];
  }

  lemma PtrsText(ps: seq<Piece>)
    requires ps != [] && forall i {:trigger ps[i]} :: 0 <= i < |ps| ==> ps[i].PPtr?
    ensures var st := PtrTexts(ps); st != "" && st[0] == '*' && !IsSpace(st[|st| - 1])
  {
    PtrsStart(ps);
    StarEnd(ps[0].isconst, ps[0].isvolatile);
    hide PtrText;
    assert PtrTexts(ps) == PtrTexts(ps[1..]) + PreText(ps[0]);
  }

  /** The text of a pointer has no space at its end, and none behind its star. */
  lemma StarEnd(c: bool, v: bool)
    ensures var t := PtrText(c, v);
      && t != "" && !IsSpace(t[|t| - 1]) && (if c || v then |t| > 1 && !IsSpace(t[1]) && !EndsBase(t[1]) else t == "*")
  {
    var q := QualText(c, v);
    assert q == "" || q[0] == 'c' || q[0] == 'v';
    assert q == "" || q[|q| - 1] == 't' || q[|q| - 1] == 'e';
    assert "*" + q == PtrText(c, v);
  }

  lemma {:induction false} SufsText(ps: seq<Piece>)
    requires ps != [] && forall i {:trigger ps[i]} :: 0 <= i < |ps| ==> !ps[i].PPtr?
    ensures var t := SufTexts(ps); t != [] && (t[0] == '(' || t[0] == '[') && IsPunct(t[|t| - 1])
  {
    if |ps| > 1 { SufsText(ps[1..]); } else { assert SufTexts(ps[1..]) == ""; }
  }

  predicate PlainLevels(ls: seq<Level>) { forall i {:trigger ls[i]} :: 0 <= i < |ls| ==> ls[i].LPtr? ==> !ls[i].isconst && !ls[i].isvolatile }

  lemma {:induction false} ElemsUnqualified(ls: seq<Level>, basesize: int)
    requires SizesOk(ls, basesize) && PlainLevels(ls)
    ensures Unqualified(ElemsOf(PiecesOf(ls, basesize)))
  {
    if ls != [] {
      var ps := PiecesOf(ls, basesize);
      assert ps[0] == PieceOf(ls, basesize) && ps[1..] == PiecesOf(ls[1..], basesize);
      ElemsUnqualified(ls[1..], basesize);
    }
  }

  // -- A pointer next to the base --------------------------------------------------------------

  /** The text of pieces that end in a pointer starts with that pointer. */
  lemma TextStar(a: seq<Piece>, p: Piece)
    requires p.PPtr?
    ensures Text(a + [p]) == PreText(p) + Text(a)
  {
    PreSplit(a, [p], false);
    SufSplit(a, [p], false);
    OnePtr(p, AfterPieces(a, false));
    hide Pre, Suf, PreText;
    var x, y, z := PreText(p), Pre(a, false), Suf(a, false);
    assert (x + y) + (z + "") == x + (y + z);
  }

  lemma OnePtr(p: Piece, f: bool)
    requires p.PPtr?
    ensures Pre([p], f) == PreText(p) && Suf([p], f) == ""
  {
    assert [p][1..] == [];
    hide PreText;
    assert "" + PreText(p) == PreText(p);
  }

  ghost predicate EndsInPtr(ls: seq<Level>) { ls != [] && ls[|ls| - 1] == LPtr(false, false) }

  /** Levels that end in a pointer, over a base, are the others over a pointer. */
  lemma {:induction false} PiecesInit(ls: seq<Level>, basesize: int)
    requires SizesOk(ls, basesize) && EndsInPtr(ls)
    ensures var i := ls[..|ls| - 1];
      && SizesOk(i, POINTER_SIZE) && PiecesOf(ls, basesize) == PiecesOf(i, POINTER_SIZE) + [PPtr(false, false)]
      && SizeOf(ls, basesize) == SizeOf(i, POINTER_SIZE)
      && (EmptyArray(ls, basesize) <==> EmptyArray(i, POINTER_SIZE)) && (Counted(ls, basesize) ==> Counted(i, POINTER_SIZE))
  {
    var i := ls[..|ls| - 1];
    if |ls| == 1 {
      assert ls[1..] == [] && ls == [LPtr(false, false)];
    } else {
      assert ls[1..][..|ls| - 2] == i[1..] && i[0] == ls[0];
      PiecesInit(ls[1..], basesize);
      assert PiecesOf(ls, basesize) == [PieceOf(ls, basesize)] + (PiecesOf(i[1..], POINTER_SIZE) + [PPtr(false, false)]);
      assert PieceOf(ls, basesize) == PieceOf(i, POINTER_SIZE);
    }
  }

  /** A printed declarator: the text of its pieces, empty only for a base. */
  ghost predicate DeclOf(ls: seq<Level>, basesize: int, decl: string)
    requires SizesOk(ls, basesize)
  {
    && decl == Text(PiecesOf(ls, basesize)) && (decl == "" <==> ls == []) && (decl != "" ==> StarText(decl))
    && (BareStar(decl) ==> EndsInPtr(ls) && (decl == "*" <==> |ls| == 1))
  }

  lemma Printed(ls: seq<Level>, basesize: int)
    requires SizesOk(ls, basesize)
    ensures DeclOf(ls, basesize, PreOf(ls, false) + SufOf(ls, basesize, false))
  {
    hide Text, PreOf, SufOf, EndsInPtr, StarText, BareStar;
    PrintsPieces(ls, basesize, false);
    var ps := PiecesOf(ls, basesize);
    TextIs(ps);
    if ls == [] {
      EmptyText();
      NoStar("");
    } else {
      TextStarts(ps);
      if Text(ps)[0] == '*' { StarLast(ls, basesize); } else { NoStar(Text(ps)); }
    }
  }

  lemma NoStar(d: string)
    requires d == "" || d[0] != '*'
    ensures !BareStar(d) && (DeclText(d) ==> StarText(d))
  {
  }

  lemma StarLast(ls: seq<Level>, basesize: int)
    requires SizesOk(ls, basesize) && ls != []
    requires var d := Text(PiecesOf(ls, basesize)); DeclText(d) && d[0] == '*'
    ensures var d := Text(PiecesOf(ls, basesize)); StarText(d) && (BareStar(d) ==> EndsInPtr(ls) && (d == "*" <==> |ls| == 1))
  {
    hide Text, EndsInPtr, EndsBase, PreText, PtrText;
    var ps := PiecesOf(ls, basesize);
    LastIsPtr(ps);
    var p, a := ps[|ps| - 1], ps[..|ps| - 1];
    assert ps == a + [p];
    TextStar(a, p);
    PreIs(p);
    StarEnd(p.isconst, p.isvolatile);
    if a == [] {
      EmptyText();
      TextIs([]);
    } else {
      TextStarts(a);
    }
    AfterStar(Text(ps), PreText(p), Text(a), p.isconst || p.isvolatile);
    if !p.isconst && !p.isvolatile { LastLevel(ls, basesize); }
  }

  lemma PreIs(p: Piece)
    requires p.PPtr?
    ensures PreText(p) == PtrText(p.isconst, p.isvolatile)
  {
  }

  /** What follows a star: its qualifiers, or the rest. */
  lemma AfterStar(d: string, t: string, rest: string, qualified: bool)
    requires d == t + rest && DeclText(d) && d[0] == '*' && t != "" && (if qualified then |t| > 1 && !IsSpace(t[1]) && !EndsBase(t[1]) else t == "*")
    requires rest == "" || DeclText(rest)
    ensures StarText(d) && (qualified ==> !BareStar(d)) && (!qualified ==> (d == "*" <==> rest == ""))
  {
    if qualified { assert d[1] == t[1]; } else if rest != "" { assert d[1] == rest[0]; }
  }

  /** Only a pointer next to the base prints a star first. */
  lemma LastIsPtr(ps: seq<Piece>)
    requires ps != [] && Text(ps) != "" && Text(ps)[0] == '*'
    ensures ps[|ps| - 1].PPtr?
  {
    hide Text, SufTexts, PtrTexts, LayersOf;
    TextLayers(ps);
    LayersJoin(ps);
    LayersKinds(ps);
    var l := LayersOf(ps);
    if l.ptrs == [] {
      NoPtrs();
      if l.sufs != [] { SufsText(l.sufs); } else { EmptySuf(); }
      NoStarFirst(if l.group == [] then "" else "(" + Text(l.group) + ")", SufTexts(l.sufs));
    } else {
      assert ps[|ps| - 1] == l.ptrs[|l.ptrs| - 1];
    }
  }

  lemma NoPtrs()
    ensures PtrTexts([]) == ""
  {
  }

  lemma NoStarFirst(g: string, t: string)
    requires (g == "" || g[0] == '(') && (t == "" || t[0] != '*')
    ensures var d := "" + g + t; d == "" || d[0] != '*'
  {
    var d := "" + g + t;
    assert d != "" ==> d[0] == if g != "" then g[0] else t[0];
  }

  lemma {:induction false} LastLevel(ls: seq<Level>, basesize: int)
    requires SizesOk(ls, basesize) && ls != [] && PiecesOf(ls, basesize)[|ls| - 1] == PPtr(false, false)
    ensures EndsInPtr(ls)
  {
    if |ls| > 1 {
      assert PiecesOf(ls, basesize)[|ls| - 1] == PiecesOf(ls[1..], basesize)[|ls| - 2];
      LastLevel(ls[1..], basesize);
    }
  }

  /** The declarator, or what follows its first star, reads back the pieces. */
  lemma ReadsBack(ls: seq<Level>, basesize: int, decl: string)
    requires SizesOk(ls, basesize) && ls != [] && decl == Text(PiecesOf(ls, basesize))
    ensures Declarator(decl, 0) == Some((|decl|, ElemsOf(PiecesOf(ls, basesize)))) && Plain(ElemsOf(PiecesOf(ls, basesize)))
  {
    hide Text, Declarator;
    var ps := PiecesOf(ls, basesize);
    PiecesShow(ls, basesize);
    assert decl[0..|decl|] == decl;
    assert At(decl, 0, Text(ps));
    ReadDeclarator(decl, 0, ps);
    ElemsPlain(decl, 0);
  }

  lemma StarRest(ls: seq<Level>, basesize: int, decl: string)
    requires SizesOk(ls, basesize) && DeclOf(ls, basesize, decl) && BareStar(decl) && decl != "*"
    ensures var i := ls[..|ls| - 1];
      && i != [] && SizesOk(i, POINTER_SIZE) && decl[1..] == Text(PiecesOf(i, POINTER_SIZE)) && decl[1..] != ""
  {
    hide Text, StarText, EndsBase;
    PiecesInit(ls, basesize);
    TextStar(PiecesOf(ls[..|ls| - 1], POINTER_SIZE), PPtr(false, false));
    StarIs();
  }

  lemma StarIs()
    ensures PreText(PPtr(false, false)) == "*"
  {
    assert "*" + "" == "*";
  }

  /** The type read is the one printed, but for empty arrays. */
  ghost predicate SameBut(tab: seq<CType>, id: int, tab2: seq<CType>, back: int)
    requires TabOk(tab) && TabOk(tab2) && 0 <= id < |tab| && 0 <= back < |tab2|
  {
    (Levels(tab2, back) == Levels(tab, id) && BaseOf(tab2, back) == BaseOf(tab, id)) <==> !EmptyArray(Levels(tab, id), tab[BaseOf(tab, id)].size)
  }

  lemma BaseAlone(tab: seq<CType>, b: int)
    requires TabOk(tab) && 0 <= b < |tab| && tab[b].kind.KOther?
    ensures Levels(tab, b) == [] && BaseOf(tab, b) == b
  {
  }

  lemma PtrAlone(tab: seq<CType>, p: int, b: int)
    requires TabOk(tab) && 0 <= p < |tab| && 0 <= b < |tab| && tab[b].kind.KOther? && tab[p] == CType(KPtr, b, false, false, POINTER_SIZE)
    ensures Levels(tab, p) == [LPtr(false, false)] && BaseOf(tab, p) == b
  {
    assert EntryOk(tab, p);
    BaseAlone(tab, b);
  }

  /** What was read changed nothing but qualifiers, and only adds entries for a
      type without any. */
  ghost predicate OnlyQualifiers(tab: seq<CType>, tab2: seq<CType>, ls: seq<Level>) { Alike(tab, tab2) && (PlainLevels(ls) ==> tab <= tab2) }

  lemma MadeFrom(tab: seq<CType>, from: int, ls: seq<Level>, basesize: int)
    requires TabOk(tab) && 0 <= from < |tab| && SizesOk(ls, basesize) && Plain(ElemsOf(PiecesOf(ls, basesize)))
    ensures var es := ElemsOf(PiecesOf(ls, basesize)); var m := Make(tab, from, es);
      && TabOk(m.tab) && OnlyQualifiers(tab, m.tab, ls) && Builds(m.tab, m.id, from, es)
      && forall i {:trigger m.tab[i]} :: 0 <= i <= from ==> m.tab[i] == tab[i]
  {
    hide TabOk, PlainLevels, Make, Builds, Alike;
    var es := ElemsOf(PiecesOf(ls, basesize));
    MakeFollows(tab, from, es);
    MakeBuilds(tab, from, es);
    MakeKeepsBelow(tab, from, es);
    if PlainLevels(ls) {
      ElemsUnqualified(ls, basesize);
      UnqualifiedKeeps(tab, from, es);
    }
  }

  /** Built over the base. */
  lemma BackAll(tab: seq<CType>, tab2: seq<CType>, id: int, back: int)
    requires TabOk(tab) && 0 <= id < |tab|
    requires var b := BaseOf(tab, id); var ls, bs := Levels(tab, id), tab[b].size;
      SizesOk(ls, bs) && var es := ElemsOf(PiecesOf(ls, bs)); Plain(es) && Made(tab2, back) == Make(tab, b, es)
    ensures TabOk(tab2) && 0 <= back < |tab2| && SameBut(tab, id, tab2, back) && OnlyQualifiers(tab, tab2, Levels(tab, id))
  {
    var b := BaseOf(tab, id);
    var ls, bs := Levels(tab, id), tab[b].size;
    hide TabOk, EmptyArray, PlainLevels, Make, Alike;
    MadeFrom(tab, b, ls, bs);
    assert tab2[b] == tab[b];
    BuildsRebuilt(tab2, back, b, ls);
    BaseAlone(tab2, b);
    TabCounted(tab, id);
    RebuiltSame(ls, bs);
    assert Rebuilt(ls, bs) + [] == Rebuilt(ls, bs);
  }

  /** Built over the pointer to the base that is a known name. */
  lemma BackRest(tab: seq<CType>, tab2: seq<CType>, id: int, p: int, back: int)
    requires TabOk(tab) && 0 <= id < |tab| && 0 <= p < |tab|
    requires var b := BaseOf(tab, id); var ls, bs := Levels(tab, id), tab[b].size;
      && SizesOk(ls, bs) && EndsInPtr(ls) && tab[p] == CType(KPtr, b, false, false, POINTER_SIZE)
      && var i := ls[..|ls| - 1]; SizesOk(i, POINTER_SIZE) && var es := ElemsOf(PiecesOf(i, POINTER_SIZE)); Plain(es) && Made(tab2, back) == Make(tab, p, es)
    ensures TabOk(tab2) && 0 <= back < |tab2| && SameBut(tab, id, tab2, back) && OnlyQualifiers(tab, tab2, Levels(tab, id))
  {
    var b := BaseOf(tab, id);
    var ls, bs := Levels(tab, id), tab[b].size;
    var i := ls[..|ls| - 1];
    assert ls == i + [LPtr(false, false)];
    PlainInit(ls);
    hide EmptyArray, PlainLevels, Make, Alike;
    MadeFrom(tab, p, i, POINTER_SIZE);
    PiecesInit(ls, bs);
    assert EntryOk(tab, p);
    hide TabOk, EntryOk, Levels, BaseOf;
    assert tab2[p] == tab[p] && tab2[b] == tab[b];
    BuildsRebuilt(tab2, back, p, i);
    PtrAlone(tab2, p, b);
    TabCounted(tab, id);
    RebuiltSame(i, POINTER_SIZE);
    RestSame(Rebuilt(i, POINTER_SIZE), i, LPtr(false, false));
  }

  lemma PlainInit(ls: seq<Level>)
    ensures ls != [] && PlainLevels(ls) ==> PlainLevels(ls[..|ls| - 1])
  {
  }

  lemma RestSame(r: seq<Level>, i: seq<Level>, x: Level)
    ensures r + [x] == i + [x] <==> r == i
  {
    assert (r + [x])[..|r|] == r && (i + [x])[..|i|] == i;
    if r + [x] == i + [x] { assert |r| == |i|; }
  }

  /** Prints the name of a type and reads it back. It prints if the type has
      fewer levels than the guard. Reading always succeeds then, and gives the
      same type, qualifiers included, exactly if the type has no empty array of
      sized elements. */
  method PrintAndRead(cts: CTState, id: int, baseName: int -> string) returns (printed: bool, back: Option<int>)
    requires cts.Valid() && NamesOk(cts.names, cts.tab) && 0 <= id < |cts.tab|
    requires var b := BaseOf(cts.tab, id); BaseName(baseName(b)) && baseName(b) in cts.names && cts.names[baseName(b)] == b
    modifies cts`tab
    ensures cts.Valid() && (printed <==> old(|Levels(cts.tab, id)|) < GUARD)
    ensures printed ==> back.Some? && 0 <= back.value < |cts.tab| && OnlyQualifiers(old(cts.tab), cts.tab, old(Levels(cts.tab, id)))
    ensures printed ==> (Levels(cts.tab, back.value) == old(Levels(cts.tab, id)) && BaseOf(cts.tab, back.value) == old(BaseOf(cts.tab, id))
      <==> !EmptyArray(old(Levels(cts.tab, id)), old(cts.tab[BaseOf(cts.tab, id)].size)))
  {
    hide Levels, BaseOf, PreOf, SufOf, Longest, Trim, Declarator, TabOk, Make, EmptyArray, BaseName, NamesOk, Text, StarText, EndsInPtr, BareStar, OnlyQualifiers;
    ghost var tab := cts.tab;
    ghost var ls, b := Levels(tab, id), BaseOf(tab, id);
    ghost var bs := tab[b].size;
    var r := PrintDecl(cts, id);
    if r.None? {
      return false, None;
    }
    var decl := r.value.0;
    printed := true;
    var base := baseName(r.value.1);
    Printed(ls, bs);
    ghost var star := TakesStar(cts.names, base, decl);
    if decl == "" {
      BareName(cts.names, base);
    } else if star && decl != "*" {
      SplitStar(cts.names, tab, base, decl);
      StarRest(ls, bs, decl);
      ReadsBack(ls[..|ls| - 1], POINTER_SIZE, decl[1..]);
    } else {
      SplitFull(cts.names, tab, base, decl);
      ReadsBack(ls, bs, decl);
    }
    back := CheckTypeName(cts, FullName(base, decl));
    NonePieces(tab, bs);
    NoStar("");
    if star {
      StarPointer(cts.names, tab, base);
      if decl == "*" {
        assert ls[..|ls| - 1] == [];
        assert FullName(base, decl) == base + " *";
      }
      BackRest(tab, cts.tab, id, cts.names[base + " *"], back.value);
    } else {
      BackAll(tab, cts.tab, id, back.value);
    }
  }

  lemma NonePieces(tab: seq<CType>, bs: int)
    requires 0 <= bs <= U32_MAX
    ensures PiecesOf([], POINTER_SIZE) == [] && PiecesOf([], bs) == [] && ElemsOf([]) == [] && Plain([])
    ensures forall id: int :: 0 <= id < |tab| ==> Make(tab, id, []) == Made(tab, id)
  {
  }

  lemma TextIs(ps: seq<Piece>)
    ensures Text(ps) == Pre(ps, false) + Suf(ps, false)
  {
  }
}
