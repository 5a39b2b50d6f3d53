/** C declarators as text: tokens, the grammar of abstract declarators, and what
    a declarator means. */
module DeclSyntax {
  import opened Wrappers

  const U32_MAX := 0xffff_ffff

  /** An element of a declarator: the base type, a pointer with its qualifiers,
      an array with its count (`U32_MAX` for `?`), a function without
      parameters. */
  datatype Elem = Base(id: int) | Ptr(isconst: bool, isvolatile: bool) | Array(count: int) | Func

  predicate IsSpace(c: char) { c == ' ' || c == '\t' || c == '\n' || c == '\r' || c == '\U{000C}' }
  predicate IsPunct(c: char) { c == '*' || c == '(' || c == ')' || c == '[' || c == ']' || c == ',' }

  function SkipWs(src: string, pos: nat): (p: nat)
    requires pos <= |src|
    ensures pos <= p <= |src| && (p < |src| ==> !IsSpace(src[p]))
    decreases |src| - pos
  {
    if pos < |src| && IsSpace(src[pos]) then SkipWs(src, pos + 1) else pos
  }

  function WordEnd(src: string, pos: nat): (p: nat)
    requires pos <= |src|
    ensures pos <= p <= |src|
    decreases |src| - pos
  {
    if pos < |src| && !IsSpace(src[pos]) && !IsPunct(src[pos]) then WordEnd(src, pos + 1) else pos
  }

  /** Where the token at or behind `pos` begins and ends; it is empty only at
      the end of the text. */
  function TokEnd(src: string, pos: nat): (p: nat)
    requires pos <= |src|
    ensures SkipWs(src, pos) <= p <= |src| && (SkipWs(src, pos) < |src| ==> SkipWs(src, pos) < p)
  {
    var s := SkipWs(src, pos);
    if s < |src| && IsPunct(src[s]) then s + 1 else WordEnd(src, s)
  }

  function Tok(src: string, pos: nat): string
    requires pos <= |src|
  { src[SkipWs(src, pos)..TokEnd(src, pos)] }

  /** Is the next character `c`? */
  predicate PeekIs(src: string, pos: nat, c: char)
    requires pos <= |src|
  { SkipWs(src, pos) < |src| && src[SkipWs(src, pos)] == c }

  // -- Numbers -------------------------------------------------------------------------

  predicate IsDigit(c: char) { '0' <= c <= '9' }
  function DigitOf(c: char): int { c as int - '0' as int }

  function Digit(n: nat): char
    requires n < 10
  { ('0' as int + n) as char }

  function Dec(n: nat): (s: string)
    ensures s != []
  { if n < 10 then [Digit(n)] else Dec(n / 10) + [Digit(n % 10)] }

  /** The number a string of digits denotes. */
  function NumberOf(s: string): int {
    if s == [] then 0 else 10 * NumberOf(s[..|s| - 1]) + DigitOf(s[|s| - 1])
  }

  predicate AllDigits(s: string) { forall i {:trigger s[i]} :: 0 <= i < |s| ==> IsDigit(s[i]) }

  /** A 32-bit number in decimal, with an optional plus sign. */
  function ParseU32(s: string): Option<int> {
    var t := if s != [] && s[0] == '+' then s[1..] else s;
    if t != [] && AllDigits(t) && NumberOf(t) <= U32_MAX then Some(NumberOf(t)) else None
  }

  lemma {:induction false} DecNumber(n: nat)
    ensures AllDigits(Dec(n)) && NumberOf(Dec(n)) == n
  {
    if n < 10 {
      assert Dec(n)[..0] == [];
    } else {
      DecNumber(n / 10);
      assert Dec(n)[..|Dec(n)| - 1] == Dec(n / 10);
    }
  }

  // -- The grammar ------------------------------------------------------------------------

  /** The qualifiers behind a `*`, and where they end. */
  function Quals(src: string, pos: nat): (r: (nat, bool, bool))
    requires pos <= |src|
    ensures pos <= r.0 <= |src|
    decreases |src| - pos
  {
    if SkipWs(src, pos) == |src| then (|src|, false, false)
    else if Tok(src, pos) == "const" then var r := Quals(src, TokEnd(src, pos)); (r.0, true, r.2)
    else if Tok(src, pos) == "volatile" then var r := Quals(src, TokEnd(src, pos)); (r.0, r.1, true)
    else (pos, false, false)
  }

  /** The pointer operators at `pos`. */
  function Ptrs(src: string, pos: nat): (r: (nat, seq<Elem>))
    requires pos <= |src|
    ensures pos <= r.0 <= |src|
    decreases |src| - pos
  {
    if !PeekIs(src, pos, '*') then (SkipWs(src, pos), [])
    else
      var (p, c, v) := Quals(src, TokEnd(src, pos));
      var r := Ptrs(src, p);
      (r.0, [Ptr(c, v)] + r.1)
  }

  /** A `(` opens a group if another `(` or a `*` follows. */
  predicate IsGroup(src: string, pos: nat)
    requires pos <= |src|
  { PeekIs(src, TokEnd(src, pos), '*') || PeekIs(src, TokEnd(src, pos), '(') }

  /** The element count between brackets, and where it ends. */
  function Count(src: string, pos: nat): (r: (nat, int))
    requires pos <= |src|
    ensures pos <= r.0 <= |src|
  {
    if SkipWs(src, pos) == |src| then (|src|, 1)
    else if Tok(src, pos) == "?" then (TokEnd(src, pos), U32_MAX)
    else
      match ParseU32(Tok(src, pos))
      case Some(v) => (TokEnd(src, pos), if v < 1 then 1 else v)
      case None => (SkipWs(src, pos), 1)
  }

  /** One suffix: an array, or a function without parameters. */
  function Suffix(src: string, pos: nat): (r: Option<(nat, Elem)>)
    requires pos <= |src| && (PeekIs(src, pos, '[') || PeekIs(src, pos, '('))
    ensures r.Some? ==> pos < r.value.0 <= |src|
  {
    var p := TokEnd(src, pos);
    if PeekIs(src, pos, '[') then
      var (q, n) := Count(src, p);
      if Tok(src, q) == "]" then Some((TokEnd(src, q), Array(n))) else None
    else if PeekIs(src, p, ')') then Some((TokEnd(src, p), Func))
    else if Tok(src, p) == "void" && PeekIs(src, TokEnd(src, p), ')') then Some((TokEnd(src, TokEnd(src, p)), Func))
    else None
  }

  /** The suffixes at `pos`, in the order they are written. */
  function Suffixes(src: string, pos: nat): (r: Option<(nat, seq<Elem>)>)
    requires pos <= |src|
    ensures r.Some? ==> pos <= r.value.0 <= |src|
    decreases |src| - pos
  {
    if !PeekIs(src, pos, '[') && !PeekIs(src, pos, '(') then Some((SkipWs(src, pos), []))
    else
      match Suffix(src, pos)
      case None => None
      case Some((p, e)) =>
        match Suffixes(src, p)
        case None => None
        case Some((q, es)) => Some((q, [e] + es))
  }

  function Rev(s: seq<Elem>): (r: seq<Elem>)
    ensures |r| == |s|
  { if s == [] then [] else Rev(s[1..]) + [s[0]] }

  /** A declarator: pointers, a group, suffixes. What it means, from the base
      type outwards: the pointers apply first, then the suffixes from the last
      to the first, then the elements of the group. */
  function Declarator(src: string, pos: nat): (r: Option<(nat, seq<Elem>)>)
    requires pos <= |src|
    ensures r.Some? ==> pos <= r.value.0 <= |src|
    decreases |src| - pos
  {
    var (p, ptrs) := Ptrs(src, pos);
    if PeekIs(src, p, '(') && IsGroup(src, p) then
      match Declarator(src, TokEnd(src, p))
      case None => None
      case Some((q, group)) =>
        if Tok(src, q) != ")" then None
        else
          match Suffixes(src, TokEnd(src, q))
          case None => None
          case Some((z, sufs)) => Some((z, ptrs + Rev(sufs) + group))
    else
      match Suffixes(src, p)
      case None => None
      case Some((z, sufs)) => Some((z, ptrs + Rev(sufs)))
  }

  // -- Printed declarators -------------------------------------------------------------------

  /** A printed level of a type; an array shows `txt` for `count` elements. */
  datatype Piece = PPtr(isconst: bool, isvolatile: bool) | PArray(txt: string, count: int) | PFunc

  /** The text reads back as the count. */
  ghost predicate Shows(p: Piece) {
    p.PArray? ==> (p.txt == "?" && p.count == U32_MAX) || exists n: nat {:trigger Dec(n)} :: n <= U32_MAX && p.txt == Dec(n) && p.count == if n < 1 then 1 else n
  }

  function ElemOf(p: Piece): Elem {
    match p case PPtr(c, v) => Ptr(c, v) case PArray(_, n) => Array(n) case PFunc => Func
  }

  /** The elements of a type's levels, outermost first, from the base outwards. */
  function ElemsOf(ps: seq<Piece>): seq<Elem> {
    if ps == [] then [] else ElemsOf(ps[1..]) + [ElemOf(ps[0])]
  }

  function QualText(isconst: bool, isvolatile: bool): string {
    if isconst then (if isvolatile then "const volatile" else "const") else if isvolatile then "volatile" else ""
  }

  function PtrText(isconst: bool, isvolatile: bool): string { "*" + QualText(isconst, isvolatile) }

  function PreText(p: Piece): string { if p.PPtr? then PtrText(p.isconst, p.isvolatile) else "" }

  function SufText(p: Piece): string {
    match p case PPtr(_, _) => "" case PArray(t, _) => "[" + t + "]" case PFunc => "()"
  }

  /** The prefixes and suffixes of the levels; `ptrto` tells of a pointer just
      outside, which binds weaker than a suffix. */
  function Pre(ps: seq<Piece>, ptrto: bool): string {
    if ps == [] then ""
    else if ps[0].PPtr? then Pre(ps[1..], true) + PreText(ps[0])
    else Pre(ps[1..], false) + if ptrto then "(" else ""
  }

  function Suf(ps: seq<Piece>, ptrto: bool): string {
    if ps == [] then ""
    else if ps[0].PPtr? then Suf(ps[1..], true)
    else (if ptrto then ")" else "") + SufText(ps[0]) + Suf(ps[1..], false)
  }

  function Text(ps: seq<Piece>): string { Pre(ps, false) + Suf(ps, false) }

  function AfterPieces(ps: seq<Piece>, ptrto: bool): bool { if ps == [] then ptrto else ps[|ps| - 1].PPtr? }

  lemma {:induction false} PreSplit(a: seq<Piece>, b: seq<Piece>, f: bool)
    ensures Pre(a + b, f) == Pre(b, AfterPieces(a, f)) + Pre(a, f)
    decreases a
  {
    if a == [] {
      assert a + b == b;
    } else {
      assert (a + b)[1..] == a[1..] + b;
      PreSplit(a[1..], b, a[0].PPtr?);
      Assoc(Pre(b, AfterPieces(a, f)), Pre(a[1..], a[0].PPtr?), if a[0].PPtr? then PreText(a[0]) else if f then "(" else "");
    }
  }

  lemma {:induction false} SufSplit(a: seq<Piece>, b: seq<Piece>, f: bool)
    ensures Suf(a + b, f) == Suf(a, f) + Suf(b, AfterPieces(a, f))
    decreases a
  {
    if a == [] {
      assert a + b == b;
    } else {
      assert (a + b)[1..] == a[1..] + b;
      SufSplit(a[1..], b, a[0].PPtr?);
      SufHead(a, f);
      SufHead(a + b, f);
      hide Suf, SufOne, SufText;
      Assoc(SufOne(a[0], f), Suf(a[1..], a[0].PPtr?), Suf(b, AfterPieces(a, f)));
    }
  }

  function SufOne(p: Piece, f: bool): string { if p.PPtr? then "" else (if f then ")" else "") + SufText(p) }

  lemma SufHead(ps: seq<Piece>, f: bool)
    requires ps != []
    ensures Suf(ps, f) == SufOne(ps[0], f) + Suf(ps[1..], ps[0].PPtr?)
  {
    hide SufText;
  }

  lemma Assoc(a: string, b: string, c: string)
    ensures (a + b) + c == a + (b + c)
  {
  }

  lemma {:induction false} ElemsSplit(a: seq<Piece>, b: seq<Piece>)
    ensures ElemsOf(a + b) == ElemsOf(b) + ElemsOf(a)
    decreases a
  {
    if a == [] {
      assert a + b == b;
    } else {
      assert (a + b)[1..] == a[1..] + b;
      ElemsSplit(a[1..], b);
    }
  }

  // -- The innermost levels ---------------------------------------------------------------------

  /** How many levels at the end are pointers, or are not. */
  function Tail(ps: seq<Piece>, ptr: bool): (n: nat)
    ensures n <= |ps| && (forall i {:trigger ps[i]} :: |ps| - n <= i < |ps| ==> ps[i].PPtr? == ptr)
    ensures n < |ps| ==> ps[|ps| - 1 - n].PPtr? != ptr
  {
    if ps != [] && ps[|ps| - 1].PPtr? == ptr then 1 + Tail(ps[..|ps| - 1], ptr) else 0
  }

  /** The text of pointers: the innermost is written first. */
  function PtrTexts(ps: seq<Piece>): string { if ps == [] then "" else PtrTexts(ps[1..]) + PreText(ps[0]) }

  function SufTexts(ps: seq<Piece>): string { if ps == [] then "" else SufText(ps[0]) + SufTexts(ps[1..]) }
  function ElemSeq(ps: seq<Piece>): seq<Elem> { seq(|ps|, i requires 0 <= i < |ps| => ElemOf(ps[i])) }

  lemma {:induction false} PtrBlock(ps: seq<Piece>, f: bool)
    requires forall i {:trigger ps[i]} :: 0 <= i < |ps| ==> ps[i].PPtr?
    ensures Pre(ps, f) == PtrTexts(ps) && Suf(ps, f) == ""
  {
    hide PreText, SufText;
    if ps != [] {
      PtrBlock(ps[1..], true);
    }
  }

  /** The last of the pointers is the first in the text. */
  lemma {:induction false} PtrsFromLast(ps: seq<Piece>)
    requires ps != []
    ensures var l, a := ps[|ps| - 1], ps[..|ps| - 1];
      PtrTexts(ps) == PreText(l) + PtrTexts(a) && ElemsOf(ps) == [ElemOf(l)] + ElemsOf(a)
  {
    hide PreText, ElemOf;
    var l, a := ps[|ps| - 1], ps[..|ps| - 1];
    if |ps| == 1 {
      assert ps[1..] == [] && a == [];
    } else {
      PtrsFromLast(ps[1..]);
      assert ps[1..][..|ps| - 2] == a[1..] && a[0] == ps[0];
      Assoc(PreText(l), PtrTexts(a[1..]), PreText(a[0]));
    }
  }

  /** Pointers start with a star. */
  lemma PtrsStart(ps: seq<Piece>)
    requires ps != [] && ps[|ps| - 1].PPtr?
    ensures PtrTexts(ps) != "" && PtrTexts(ps)[0] == '*'
  {
    PtrsFromLast(ps);
    StarFirst(ps[|ps| - 1].isconst, ps[|ps| - 1].isvolatile);
  }

  lemma StarFirst(c: bool, v: bool)
    ensures PtrText(c, v) != "" && PtrText(c, v)[0] == '*'
  {
  }

  lemma {:induction false} SufBlock(ps: seq<Piece>, f: bool)
    requires forall i {:trigger ps[i]} :: 0 <= i < |ps| ==> !ps[i].PPtr?
    ensures Pre(ps, f) == if ps != [] && f then "(" else ""
    ensures Suf(ps, f) == (if ps != [] && f then ")" else "") + SufTexts(ps)
  {
    if ps != [] {
      SufBlock(ps[1..], false);
    }
  }

  lemma {:induction false} RevElems(ps: seq<Piece>)
    ensures ElemsOf(ps) == Rev(ElemSeq(ps))
  {
    if ps != [] {
      RevElems(ps[1..]);
      assert ElemSeq(ps)[1..] == ElemSeq(ps[1..]);
      assert ElemSeq(ps)[0] == ElemOf(ps[0]);
    }
  }

  // -- Reading printed declarators -----------------------------------------------------------------

  /** `t` stands at `pos`. */
  predicate At(src: string, pos: nat, t: string) { pos + |t| <= |src| && src[pos..pos + |t|] == t }

  lemma AtParts(src: string, pos: nat, a: string, b: string)
    requires At(src, pos, a + b)
    ensures At(src, pos, a) && At(src, pos + |a|, b)
  {
    assert src[pos..pos + |a|] == (a + b)[..|a|] == a;
    assert src[pos + |a|..pos + |a| + |b|] == (a + b)[|a|..] == b;
  }

  lemma AtChar(src: string, pos: nat, t: string, i: nat)
    requires At(src, pos, t) && i < |t|
    ensures pos + i < |src| && src[pos + i] == t[i]
  {
    assert src[pos..pos + |t|][i] == src[pos + i];
  }

  /** The text ends here, or punctuation follows. */
  predicate Stops(src: string, pos: nat) { pos <= |src| && (pos < |src| ==> IsPunct(src[pos])) }

  /** A word ends here. */
  predicate Ends(src: string, pos: nat) { pos <= |src| && (pos < |src| ==> IsPunct(src[pos]) || IsSpace(src[pos])) }

  lemma PunctTok(src: string, pos: nat)
    requires pos < |src| && IsPunct(src[pos])
    ensures SkipWs(src, pos) == pos && TokEnd(src, pos) == pos + 1 && Tok(src, pos) == [src[pos]]
  {
  }

  lemma {:induction false} ReadStars(src: string, pos: nat, ps: seq<Piece>)
    requires (forall i {:trigger ps[i]} :: 0 <= i < |ps| ==> ps[i].PPtr?) && At(src, pos, PtrTexts(ps))
    requires var q := pos + |PtrTexts(ps)|; Stops(src, q) && (q < |src| ==> src[q] != '*')
    ensures Ptrs(src, pos) == (pos + |PtrTexts(ps)|, ElemsOf(ps))
    decreases |ps|
  {
    hide Ptrs, PreText, ElemOf, At, Stops;
    if ps == [] {
      NoStarAt(src, pos);
    } else {
      var l, a := ps[|ps| - 1], ps[..|ps| - 1];
      PtrsFromLast(ps);
      hide PtrTexts, ElemsOf;
      AtParts(src, pos, PreText(l), PtrTexts(a));
      StarNext(src, pos + |PreText(l)|, a);
      ReadPtr(src, pos, l);
      ReadStars(src, pos + |PreText(l)|, a);
    }
  }

  lemma NoStarAt(src: string, pos: nat)
    requires Stops(src, pos) && (pos < |src| ==> src[pos] != '*')
    ensures PtrTexts([]) == "" && ElemsOf([]) == [] && Ptrs(src, pos) == (pos, [])
  {
    NoStar(src, pos);
  }

  lemma ReadPtr(src: string, pos: nat, p: Piece)
    requires p.PPtr? && At(src, pos, PreText(p)) && Stops(src, pos + |PreText(p)|)
    ensures var q := pos + |PreText(p)|; q <= |src| && Ptrs(src, pos) == (Ptrs(src, q).0, [ElemOf(p)] + Ptrs(src, q).1)
  {
    hide Ptrs, PtrText, At;
    ReadStar(src, pos, p.isconst, p.isvolatile);
  }

  /** Behind a pointer comes punctuation or the end. */
  lemma StarNext(src: string, pos: nat, a: seq<Piece>)
    requires (forall i {:trigger a[i]} :: 0 <= i < |a| ==> a[i].PPtr?) && At(src, pos, PtrTexts(a)) && Stops(src, pos + |PtrTexts(a)|)
    ensures Stops(src, pos)
  {
    if a != [] {
      PtrsStart(a);
      hide PtrTexts;
      AtChar(src, pos, PtrTexts(a), 0);
    }
  }

  lemma NoStar(src: string, pos: nat)
    requires Stops(src, pos) && (pos < |src| ==> src[pos] != '*')
    ensures Ptrs(src, pos) == (pos, [])
  {
    assert SkipWs(src, pos) == pos;
  }

  lemma ReadStar(src: string, pos: nat, c: bool, v: bool)
    requires At(src, pos, PtrText(c, v)) && Stops(src, pos + |PtrText(c, v)|)
    ensures var q := pos + |PtrText(c, v)|; Ptrs(src, pos) == (Ptrs(src, q).0, [Ptr(c, v)] + Ptrs(src, q).1)
  {
    hide At, Stops, Quals, TokEnd, Tok, QualText;
    AtParts(src, pos, "*", QualText(c, v));
    AtChar(src, pos, "*", 0);
    PunctTok(src, pos);
    ReadQuals(src, pos + 1, c, v);
  }

  /** Qualifiers are read back. */
  lemma ReadQuals(src: string, pos: nat, c: bool, v: bool)
    requires At(src, pos, QualText(c, v)) && Stops(src, pos + |QualText(c, v)|)
    ensures Quals(src, pos) == (pos + |QualText(c, v)|, c, v)
  {
    hide At, Quals, Stops;
    if !c && !v {
      NoQuals(src, pos);
    } else if c && v {
      ReadBoth(src, pos);
    } else {
      ReadOne(src, pos, c, QualText(c, v));
    }
  }

  lemma ReadOne(src: string, pos: nat, c: bool, t: string)
    requires t == (if c then "const" else "volatile") && At(src, pos, t) && Stops(src, pos + |t|)
    ensures Quals(src, pos) == (pos + |t|, c, !c)
  {
    hide At, TokEnd, Tok, SkipWs;
    NoQuals(src, pos + |t|);
    ReadWord(src, pos, t);
  }

  lemma ReadBoth(src: string, pos: nat)
    requires At(src, pos, "const volatile") && Stops(src, pos + 14)
    ensures Quals(src, pos) == (pos + 14, true, true)
  {
    hide At, TokEnd, Tok, SkipWs, Quals;
    assert "const volatile" == "const" + (" " + "volatile");
    AtParts(src, pos, "const", " " + "volatile");
    AtParts(src, pos + 5, " ", "volatile");
    ReadOne(src, pos + 6, false, "volatile");
    ReadFirst(src, pos);
  }

  lemma ReadFirst(src: string, pos: nat)
    requires At(src, pos, "const") && At(src, pos + 5, " ") && At(src, pos + 6, "volatile") && Quals(src, pos + 6) == (pos + 14, false, true)
    ensures Quals(src, pos) == (pos + 14, true, true)
  {
    hide At, TokEnd, Tok, SkipWs;
    AtChar(src, pos + 5, " ", 0);
    AtChar(src, pos + 6, "volatile", 0);
    ReadWord(src, pos, "const");
    SpaceBefore(src, pos + 5);
  }

  lemma SpaceBefore(src: string, pos: nat)
    requires pos < |src| && src[pos] == ' '
    ensures SkipWs(src, pos) == SkipWs(src, pos + 1) && TokEnd(src, pos) == TokEnd(src, pos + 1) && Tok(src, pos) == Tok(src, pos + 1)
  {
  }

  lemma NoQuals(src: string, pos: nat)
    requires Stops(src, pos)
    ensures Quals(src, pos) == (pos, false, false)
  {
    if pos < |src| { PunctTok(src, pos); }
  }

  lemma ReadWord(src: string, pos: nat, t: string)
    requires At(src, pos, t) && t != [] && (forall i {:trigger t[i]} :: 0 <= i < |t| ==> !IsSpace(t[i]) && !IsPunct(t[i])) && Ends(src, pos + |t|)
    ensures SkipWs(src, pos) == pos && TokEnd(src, pos) == pos + |t| && Tok(src, pos) == t
  {
    AtChar(src, pos, t, 0);
    ReadWordEnd(src, pos, t);
  }

  lemma {:induction false} ReadWordEnd(src: string, pos: nat, t: string)
    requires At(src, pos, t) && (forall i {:trigger t[i]} :: 0 <= i < |t| ==> !IsSpace(t[i]) && !IsPunct(t[i])) && Ends(src, pos + |t|)
    ensures WordEnd(src, pos) == pos + |t|
    decreases |t|
  {
    if t != [] {
      AtChar(src, pos, t, 0);
      assert src[pos + 1..pos + 1 + |t[1..]|] == src[pos..pos + |t|][1..];
      ReadWordEnd(src, pos + 1, t[1..]);
    }
  }

  /** What an array shows is read back. */
  lemma ReadCount(src: string, pos: nat, p: Piece)
    requires p.PArray? && Shows(p) && At(src, pos, p.txt) && pos + |p.txt| < |src| && src[pos + |p.txt|] == ']'
    ensures Count(src, pos) == (pos + |p.txt|, p.count)
  {
    hide WordEnd, TokEnd, ParseU32, Dec;
    if p.txt == "?" && p.count == U32_MAX {
      ReadWord(src, pos, p.txt);
    } else {
      var n: nat :| n <= U32_MAX && p.txt == Dec(n) && p.count == if n < 1 then 1 else n;
      ReadNumber(src, pos, n);
    }
  }

  lemma ReadNumber(src: string, pos: nat, n: nat)
    requires n <= U32_MAX && At(src, pos, Dec(n)) && Stops(src, pos + |Dec(n)|)
    ensures Count(src, pos) == (pos + |Dec(n)|, if n < 1 then 1 else n)
  {
    hide WordEnd, TokEnd, Dec, NumberOf;
    DecNumber(n);
    DigitsWord(Dec(n));
    ReadWord(src, pos, Dec(n));
  }

  lemma DigitsWord(t: string)
    requires AllDigits(t) && t != []
    ensures forall i {:trigger t[i]} :: 0 <= i < |t| ==> !IsSpace(t[i]) && !IsPunct(t[i])
    ensures t[0] != '+' && t != "?"
  {
    assert IsDigit(t[0]);
  }

  lemma ReadSuffix(src: string, pos: nat, p: Piece)
    requires !p.PPtr? && Shows(p) && At(src, pos, SufText(p))
    ensures SkipWs(src, pos) == pos && (PeekIs(src, pos, '[') || PeekIs(src, pos, '(')) && Suffix(src, pos) == Some((pos + |SufText(p)|, ElemOf(p)))
  {
    if p.PFunc? { ReadFunc(src, pos); } else { ReadArray(src, pos, p); }
  }

  lemma ReadFunc(src: string, pos: nat)
    requires At(src, pos, "()")
    ensures SkipWs(src, pos) == pos && PeekIs(src, pos, '(') && Suffix(src, pos) == Some((pos + 2, Func))
  {
    hide WordEnd, Count;
    AtChar(src, pos, "()", 0);
    AtChar(src, pos, "()", 1);
    PunctTok(src, pos);
    PunctTok(src, pos + 1);
  }

  lemma ReadArray(src: string, pos: nat, p: Piece)
    requires p.PArray? && Shows(p) && At(src, pos, SufText(p))
    ensures SkipWs(src, pos) == pos && PeekIs(src, pos, '[') && Suffix(src, pos) == Some((pos + |SufText(p)|, ElemOf(p)))
  {
    hide WordEnd, TokEnd, Count, Shows, At, Suffix, SufText, SkipWs;
    BracketText(src, pos, p);
    PunctTok(src, pos);
    ReadCount(src, pos + 1, p);
    PunctTok(src, pos + 1 + |p.txt|);
    SuffixOfArray(src, pos, pos + 1 + |p.txt|, p.count);
  }

  lemma BracketText(src: string, pos: nat, p: Piece)
    requires p.PArray? && At(src, pos, SufText(p))
    ensures |SufText(p)| == |p.txt| + 2 && pos + |p.txt| + 1 < |src|
    ensures src[pos] == '[' && At(src, pos + 1, p.txt) && src[pos + 1 + |p.txt|] == ']'
  {
    hide At;
    assert SufText(p) == "[" + (p.txt + "]");
    Enclosed(src, pos, "[", p.txt, "]");
  }

  /** A text between two single characters. */
  lemma Enclosed(src: string, pos: nat, a: string, t: string, b: string)
    requires |a| == |b| == 1 && At(src, pos, a + (t + b))
    ensures pos + |t| + 1 < |src| && src[pos] == a[0] && At(src, pos + 1, t) && src[pos + 1 + |t|] == b[0]
  {
    hide At;
    AtParts(src, pos, a, t + b);
    AtParts(src, pos + 1, t, b);
    AtChar(src, pos, a, 0);
    AtChar(src, pos + 1 + |t|, b, 0);
  }

  lemma SuffixOfArray(src: string, pos: nat, q: nat, n: int)
    requires pos < q < |src| && PeekIs(src, pos, '[') && TokEnd(src, pos) == pos + 1
    requires Count(src, pos + 1) == (q, n) && TokEnd(src, q) == q + 1 && Tok(src, q) == "]"
    ensures Suffix(src, pos) == Some((q + 1, Array(n)))
  {
    hide WordEnd, TokEnd, Count, SkipWs;
  }

  lemma NoSuffix(src: string, pos: nat)
    requires pos <= |src| && (pos == |src| || src[pos] == ')')
    ensures Suffixes(src, pos) == Some((pos, []))
  {
    assert SkipWs(src, pos) == pos;
  }

  lemma {:induction false} ReadSuffixes(src: string, pos: nat, ps: seq<Piece>)
    requires (forall i {:trigger ps[i]} :: 0 <= i < |ps| ==> !ps[i].PPtr? && Shows(ps[i])) && At(src, pos, SufTexts(ps))
    requires var q := pos + |SufTexts(ps)|; q == |src| || src[q] == ')'
    ensures Suffixes(src, pos) == Some((pos + |SufTexts(ps)|, ElemSeq(ps)))
    decreases ps
  {
    hide Suffix, WordEnd, TokEnd, Shows, SufText, ElemOf;
    if ps == [] {
      NoSuffix(src, pos);
    } else {
      AtParts(src, pos, SufText(ps[0]), SufTexts(ps[1..]));
      ReadSuffix(src, pos, ps[0]);
      ReadSuffixes(src, pos + |SufText(ps[0])|, ps[1..]);
      assert [ElemOf(ps[0])] + ElemSeq(ps[1..]) == ElemSeq(ps);
    }
  }

  /** A declarator's innermost levels: pointers, around them suffixes, around
      these the group of everything further out. */
  datatype Layers = Layers(group: seq<Piece>, sufs: seq<Piece>, ptrs: seq<Piece>)

  function LayersOf(ps: seq<Piece>): Layers {
    var k := Tail(ps, true);
    var a := ps[..|ps| - k];
    var m := Tail(a, false);
    Layers(a[..|a| - m], a[|a| - m..], ps[|ps| - k..])
  }

  lemma LayersJoin(ps: seq<Piece>)
    ensures var l := LayersOf(ps); ps == l.group + l.sufs + l.ptrs
  {
    hide Tail;
    var k := Tail(ps, true);
    Cut(ps, k, Tail(ps[..|ps| - k], false));
  }

  lemma Cut(ps: seq<Piece>, k: nat, m: nat)
    requires k + m <= |ps|
    ensures var a := ps[..|ps| - k]; ps == a[..|a| - m] + a[|a| - m..] + ps[|ps| - k..]
  {
  }

  lemma LayersKinds(ps: seq<Piece>)
    ensures var l := LayersOf(ps);
      && (forall i {:trigger l.ptrs[i]} :: 0 <= i < |l.ptrs| ==> l.ptrs[i].PPtr?)
      && (forall i {:trigger l.sufs[i]} :: 0 <= i < |l.sufs| ==> !l.sufs[i].PPtr?)
  {
    hide Tail;
    var k := Tail(ps, true);
    var a := ps[..|ps| - k];
    KindsFrom(ps, |ps| - k, true);
    KindsFrom(a, |a| - Tail(a, false), false);
  }

  lemma KindsFrom(ps: seq<Piece>, n: nat, ptr: bool)
    requires n <= |ps| && forall i {:trigger ps[i]} :: n <= i < |ps| ==> ps[i].PPtr? == ptr
    ensures var t := ps[n..]; forall i {:trigger t[i]} :: 0 <= i < |t| ==> t[i].PPtr? == ptr
  {
  }

  /** A group ends in a pointer, and only suffixes around it make it one. */
  lemma LayersEdge(ps: seq<Piece>)
    ensures var l := LayersOf(ps);
      && (l.group != [] ==> l.group[|l.group| - 1].PPtr? && l.sufs != [])
      && (ps != [] && ps[|ps| - 1].PPtr? ==> l.ptrs != [])
      && (l.group == [] || |l.group| < |ps|)
  {
    hide Tail;
    var k := Tail(ps, true);
    var a := ps[..|ps| - k];
    var m := Tail(a, false);
    if k < |ps| { assert a[|a| - 1] == ps[|ps| - 1 - k]; }
  }

  lemma TextLayers(ps: seq<Piece>)
    ensures var l := LayersOf(ps);
      Text(ps) == PtrTexts(l.ptrs) + (if l.group == [] then "" else "(" + Text(l.group) + ")") + SufTexts(l.sufs)
  {
    LayersJoin(ps);
    LayersKinds(ps);
    LayersEdge(ps);
    var l := LayersOf(ps);
    hide Pre, Suf, LayersOf, SufTexts, PtrTexts;
    LayersText(ps, l.group, l.sufs, l.ptrs);
  }

  lemma LayersText(ps: seq<Piece>, group: seq<Piece>, sufs: seq<Piece>, ptrs: seq<Piece>)
    requires ps == group + sufs + ptrs && (group != [] ==> group[|group| - 1].PPtr? && sufs != [])
    requires (forall i {:trigger ptrs[i]} :: 0 <= i < |ptrs| ==> ptrs[i].PPtr?) && (forall i {:trigger sufs[i]} :: 0 <= i < |sufs| ==> !sufs[i].PPtr?)
    ensures Text(ps) == PtrTexts(ptrs) + (if group == [] then "" else "(" + Text(group) + ")") + SufTexts(sufs)
  {
    hide Pre, Suf, SufTexts, PtrTexts;
    var a, g := group + sufs, group != [];
    PreSplit(a, ptrs, false);
    SufSplit(a, ptrs, false);
    PreSplit(group, sufs, false);
    SufSplit(group, sufs, false);
    PtrBlock(ptrs, AfterPieces(a, false));
    SufBlock(sufs, g);
    EmptyText();
    assert AfterPieces(group, false) == g;
    JoinText(PtrTexts(ptrs), Pre(group, false), Suf(group, false), SufTexts(sufs), g);
  }

  lemma ElemsLayers(ps: seq<Piece>)
    ensures var l := LayersOf(ps); ElemsOf(ps) == ElemsOf(l.ptrs) + Rev(ElemSeq(l.sufs)) + ElemsOf(l.group)
  {
    LayersJoin(ps);
    LayersKinds(ps);
    var l := LayersOf(ps);
    hide ElemsOf, LayersOf;
    ElemsSplit(l.group + l.sufs, l.ptrs);
    ElemsSplit(l.group, l.sufs);
    RevElems(l.sufs);
  }

  lemma JoinText(st: string, pre: string, suf: string, sufs: string, g: bool)
    requires !g ==> pre == "" && suf == ""
    ensures (st + ((if g then "(" else "") + pre)) + ((suf + ((if g then ")" else "") + sufs)) + "") == st + (if g then "(" + (pre + suf) + ")" else "") + sufs
  {
  }

  lemma EmptyText()
    ensures Pre([], false) == "" && Suf([], false) == "" && ElemsOf([]) == []
  {
  }

  /** A group starts with a star. */
  lemma GroupStar(ps: seq<Piece>)
    requires ps != [] && ps[|ps| - 1].PPtr?
    ensures |Text(ps)| > 0 && Text(ps)[0] == '*'
  {
    hide Text, PtrTexts, SufTexts, LayersOf;
    TextLayers(ps);
    LayersJoin(ps);
    LayersEdge(ps);
    LayersKinds(ps);
    PtrsStart(LayersOf(ps).ptrs);
  }

  ghost predicate AllShow(ps: seq<Piece>) { forall i {:trigger ps[i]} :: 0 <= i < |ps| ==> Shows(ps[i]) }

  lemma ShowParts(ps: seq<Piece>)
    requires AllShow(ps)
    ensures AllShow(LayersOf(ps).group) && AllShow(LayersOf(ps).sufs)
  {
    LayersJoin(ps);
    hide Shows, LayersOf;
    var l := LayersOf(ps);
    forall i | 0 <= i < |l.group| ensures Shows(l.group[i]) { assert l.group[i] == ps[i]; }
    forall i | 0 <= i < |l.sufs| ensures Shows(l.sufs[i]) { assert l.sufs[i] == ps[|l.group| + i]; }
  }

  /** Reading a printed declarator gives the elements it was printed from,
      however deep the nesting, and stops right behind it. */
  lemma {:induction false} ReadDeclarator(src: string, pos: nat, ps: seq<Piece>)
    requires AllShow(ps) && At(src, pos, Text(ps))
    requires var q := pos + |Text(ps)|; q == |src| || src[q] == ')'
    ensures Declarator(src, pos) == Some((pos + |Text(ps)|, ElemsOf(ps)))
    decreases |ps|
  {
    hide Shows, Text, ElemsOf, LayersOf, Rev, Declarator, SufTexts, PtrTexts, ElemSeq;
    var l := LayersOf(ps);
    TextLayers(ps);
    ElemsLayers(ps);
    ShowParts(ps);
    LayersKinds(ps);
    LayersEdge(ps);
    EmptyText();
    if l.group == [] {
      var elems := ElemsOf(l.ptrs) + Rev(ElemSeq(l.sufs));
      assert elems + [] == elems;
      assert PtrTexts(l.ptrs) + "" == PtrTexts(l.ptrs);
      ReadPlain(src, pos, l.ptrs, l.sufs);
    } else {
      var inner := Text(l.group);
      GroupStar(l.group);
      GroupAt(src, pos, PtrTexts(l.ptrs), inner, SufTexts(l.sufs));
      ReadDeclarator(src, pos + |PtrTexts(l.ptrs)| + 1, l.group);
      ReadGroup(src, pos, l.ptrs, inner, ElemsOf(l.group), l.sufs);
    }
  }

  /** Pointers and suffixes without a group. */
  lemma ReadPlain(src: string, pos: nat, ptrs: seq<Piece>, sufs: seq<Piece>)
    requires (forall i {:trigger ptrs[i]} :: 0 <= i < |ptrs| ==> ptrs[i].PPtr?) && At(src, pos, PtrTexts(ptrs) + SufTexts(sufs))
    requires AllShow(sufs) && (forall i {:trigger sufs[i]} :: 0 <= i < |sufs| ==> !sufs[i].PPtr?)
    requires var q := pos + |PtrTexts(ptrs)| + |SufTexts(sufs)|; q == |src| || src[q] == ')'
    ensures Declarator(src, pos) == Some((pos + |PtrTexts(ptrs)| + |SufTexts(sufs)|, ElemsOf(ptrs) + Rev(ElemSeq(sufs))))
  {
    hide Shows, Rev, Suffixes, Ptrs, SufTexts, PtrTexts, ElemSeq, ElemsOf, IsGroup, PeekIs, TokEnd, SkipWs;
    AtParts(src, pos, PtrTexts(ptrs), SufTexts(sufs));
    ReadTail(src, pos + |PtrTexts(ptrs)|, sufs);
    ReadStars(src, pos, ptrs);
  }

  /** Where the parts of a declarator with a group are. */
  lemma GroupAt(src: string, pos: nat, st: string, inner: string, sufs: string)
    requires At(src, pos, st + ("(" + inner + ")") + sufs)
    ensures var k := |st|; var e := pos + k + 1 + |inner|;
      && At(src, pos, st) && At(src, pos + k, "(") && At(src, pos + k + 1, inner) && At(src, e, ")") && At(src, e + 1, sufs)
      && e < |src| && src[e] == ')' && src[pos + k] == '(' && |st + ("(" + inner + ")") + sufs| == k + 2 + |inner| + |sufs|
  {
    hide At;
    var k := |st|;
    AtParts(src, pos, st + ("(" + inner + ")"), sufs);
    AtParts(src, pos, st, "(" + inner + ")");
    AtParts(src, pos + k, "(" + inner, ")");
    AtParts(src, pos + k, "(", inner);
    AtChar(src, pos + k, "(", 0);
    AtChar(src, pos + k + 1 + |inner|, ")", 0);
  }

  /** Pointers, a group read before, and suffixes. */
  lemma ReadGroup(src: string, pos: nat, ptrs: seq<Piece>, inner: string, group: seq<Elem>, sufs: seq<Piece>)
    requires (forall i {:trigger ptrs[i]} :: 0 <= i < |ptrs| ==> ptrs[i].PPtr?) && inner != [] && inner[0] == '*'
    requires AllShow(sufs) && (forall i {:trigger sufs[i]} :: 0 <= i < |sufs| ==> !sufs[i].PPtr?)
    requires At(src, pos, PtrTexts(ptrs) + ("(" + inner + ")") + SufTexts(sufs))
    requires var p := pos + |PtrTexts(ptrs)| + 1; p <= |src| && Declarator(src, p) == Some((p + |inner|, group))
    requires var q := pos + |PtrTexts(ptrs)| + 2 + |inner| + |SufTexts(sufs)|; q == |src| || src[q] == ')'
    ensures Declarator(src, pos) == Some((pos + |PtrTexts(ptrs)| + 2 + |inner| + |SufTexts(sufs)|, ElemsOf(ptrs) + Rev(ElemSeq(sufs)) + group))
  {
    hide Shows, Rev, Suffixes, Ptrs, SufTexts, PtrTexts, ElemSeq, ElemsOf, PeekIs, IsGroup, TokEnd, Tok, SkipWs, At;
    var open := pos + |PtrTexts(ptrs)|;
    GroupAt(src, pos, PtrTexts(ptrs), inner, SufTexts(sufs));
    var e := open + 1 + |inner|;
    AtChar(src, open + 1, inner, 0);
    GroupToks(src, open, e);
    ReadStars(src, pos, ptrs);
    ReadTail(src, e + 1, sufs);
  }

  lemma GroupToks(src: string, open: nat, e: nat)
    requires open + 1 < |src| && src[open] == '(' && src[open + 1] == '*' && e < |src| && src[e] == ')'
    ensures PeekIs(src, open, '(') && IsGroup(src, open) && TokEnd(src, open) == open + 1 && Tok(src, e) == ")" && TokEnd(src, e) == e + 1
  {
    PunctTok(src, open);
    PunctTok(src, open + 1);
    PunctTok(src, e);
  }

  /** Suffixes behind the pointers or the group are no group. */
  lemma ReadTail(src: string, pos: nat, ps: seq<Piece>)
    requires AllShow(ps) && (forall i {:trigger ps[i]} :: 0 <= i < |ps| ==> !ps[i].PPtr?) && At(src, pos, SufTexts(ps))
    requires var q := pos + |SufTexts(ps)|; q == |src| || src[q] == ')'
    ensures Stops(src, pos) && (pos < |src| ==> src[pos] != '*') && Suffixes(src, pos) == Some((pos + |SufTexts(ps)|, ElemSeq(ps)))
    ensures !(PeekIs(src, pos, '(') && IsGroup(src, pos))
  {
    hide Suffixes, Shows, PeekIs, IsGroup, SufTexts, SkipWs;
    ReadSuffixes(src, pos, ps);
    if ps == [] {
      EmptySuf();
      NoTail(src, pos);
    } else {
      FirstSuf(ps);
      AtParts(src, pos, SufText(ps[0]), SufTexts(ps[1..]));
      if ps[0].PFunc? { FuncStart(src, pos); } else { ArrayStart(src, pos, ps[0]); }
    }
  }

  lemma EmptySuf()
    ensures SufTexts([]) == ""
  {
  }

  lemma FirstSuf(ps: seq<Piece>)
    requires ps != []
    ensures SufTexts(ps) == SufText(ps[0]) + SufTexts(ps[1..])
  {
  }

  lemma NoTail(src: string, pos: nat)
    requires pos <= |src| && (pos == |src| || src[pos] == ')')
    ensures !PeekIs(src, pos, '(')
  {
    assert SkipWs(src, pos) == pos;
  }

  lemma FuncStart(src: string, pos: nat)
    requires At(src, pos, "()")
    ensures pos < |src| && src[pos] == '(' && !IsGroup(src, pos)
  {
    AtChar(src, pos, "()", 0);
    AtChar(src, pos, "()", 1);
    PunctTok(src, pos);
    PunctTok(src, pos + 1);
  }

  lemma ArrayStart(src: string, pos: nat, p: Piece)
    requires p.PArray? && At(src, pos, SufText(p))
    ensures pos < |src| && src[pos] == '[' && !PeekIs(src, pos, '(')
  {
    AtChar(src, pos, SufText(p), 0);
    PunctTok(src, pos);
  }
}
