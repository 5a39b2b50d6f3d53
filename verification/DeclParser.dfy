/** The declarator parser of the foreign-function interface: one stack of
    elements, and a cursor behind which each element is inserted. */
module DeclParser {
  import opened Wrappers
  import opened DeclSyntax

  /** `es` inserted behind position `c` of the stack. */
  function Inserted(stack: seq<Elem>, c: nat, es: seq<Elem>): (r: seq<Elem>)
    requires c < |stack|
    ensures |r| == |stack| + |es|
  { stack[..c + 1] + es + stack[c + 1..] }

  class Parser {
    const src: string
    var pos: nat
    var stack: seq<Elem>
    var cursor: nat

    ghost predicate Valid()
      reads this
    { pos <= |src| && cursor < |stack| }

    constructor (text: string, base: int)
      ensures Valid() && src == text && pos == 0 && stack == [Base(base)] && cursor == 0
    {
      src, pos, stack, cursor := text, 0, [Base(base)], 0;
    }

    method SkipSpace()
      requires Valid()
      modifies this`pos
      ensures Valid() && pos == SkipWs(src, old(pos))
    {
      while pos < |src| && IsSpace(src[pos])
        invariant pos <= |src| && SkipWs(src, pos) == SkipWs(src, old(pos))
        decreases |src| - pos
      {
        pos := pos + 1;
      }
    }

    /** The next token; empty at the end of the text. */
    method NextTok() returns (t: string)
      requires Valid()
      modifies this`pos
      ensures Valid() && t == Tok(src, old(pos)) && pos == TokEnd(src, old(pos))
    {
      SkipSpace();
      if pos == |src| {
        return "";
      }
      var start := pos;
      if IsPunct(src[pos]) {
        pos := pos + 1;
      } else {
        while pos < |src| && !IsSpace(src[pos]) && !IsPunct(src[pos])
          invariant start <= pos <= |src| && WordEnd(src, pos) == WordEnd(src, start)
          decreases |src| - pos
        {
          pos := pos + 1;
        }
      }
      t := src[start..pos];
    }

    /** Is `c` the next character? Spaces before it are skipped. */
    method Peek(c: char) returns (yes: bool)
      requires Valid()
      modifies this`pos
      ensures Valid() && pos == SkipWs(src, old(pos)) && yes == PeekIs(src, old(pos), c)
    {
      SkipSpace();
      yes := pos < |src| && src[pos] == c;
    }

    /** Inserts an element behind the cursor. */
    method Insert(e: Elem)
      requires Valid()
      modifies this`stack
      ensures Valid() && stack == Inserted(old(stack), cursor, [e])
    {
      stack := stack[..cursor + 1] + [e] + stack[cursor + 1..];
    }

    /** The qualifiers behind a star. */
    method ReadQuals() returns (c: bool, v: bool)
      requires Valid()
      modifies this`pos
      ensures Valid() && (pos, c, v) == Quals(src, old(pos))
    {
      c, v := false, false;
      while true
        invariant Valid()
        invariant var r := Quals(src, pos); Quals(src, old(pos)) == (r.0, c || r.1, v || r.2)
        decreases |src| - pos
      {
        var save := pos;
        var t := NextTok();
        if t == "" {
          break;
        }
        if t == "const" {
          c := true;
        } else if t == "volatile" {
          v := true;
        } else {
          pos := save;
          break;
        }
      }
    }

    /** The pointer operators: each is inserted behind the one before. */
    method ReadPtrs()
      requires Valid()
      modifies this
      ensures Valid() && var r := Ptrs(src, old(pos)); pos == r.0 && stack == Inserted(old(stack), old(cursor), r.1) && cursor == old(cursor) + |r.1|
    {
      hide Ptrs, Inserted, Quals, PeekIs, SkipWs, TokEnd;
      ghost var done: seq<Elem> := [];
      ghost var all := Ptrs(src, pos);
      InsertNone(stack, cursor);
      assert [] + all.1 == all.1;
      var star := true;
      while star
        invariant Valid() && cursor == old(cursor) + |done| && stack == Inserted(old(stack), old(cursor), done)
        invariant if star then all == (Ptrs(src, pos).0, done + Ptrs(src, pos).1) else all == (pos, done)
        decreases star, |src| - pos
      {
        PtrsStep(src, pos, done);
        star := Peek('*');
        if star {
          var _ := NextTok();
          var c, v := ReadQuals();
          InsertNext(old(stack), old(cursor), done, Ptr(c, v));
          Insert(Ptr(c, v));
          cursor := cursor + 1;
          done := done + [Ptr(c, v)];
        }
      }
    }

    /** Is the `(` at the cursor of the text the start of a group? */
    method DeclIsGroup() returns (yes: bool)
      requires Valid() && PeekIs(src, pos, '(')
      modifies this`pos
      ensures Valid() && pos == old(pos) && yes == IsGroup(src, pos)
    {
      var save := pos;
      var _ := NextTok();
      TokPeek(src, pos);
      var t := NextTok();
      pos := save;
      yes := t == "*" || t == "(";
    }

    /** The count of an array, up to the closing bracket. */
    method ReadCount() returns (n: int)
      requires Valid()
      modifies this`pos
      ensures Valid() && (pos, n) == Count(src, old(pos))
    {
      n := 1;
      var t := NextTok();
      if t != "" {
        if t == "?" {
          n := U32_MAX;
        } else {
          match ParseU32(t)
          case Some(v) =>
            n := if v < 1 then 1 else v;
          case None =>
            pos := pos - |t|;
            SkipSpace();
        }
      }
    }

    /** A parameter list; only the empty one and `(void)` are taken. */
    method ReadParams() returns (ok: bool)
      requires Valid()
      modifies this`pos
      ensures Valid() && old(pos) <= pos
      ensures ok <==> PeekIs(src, old(pos), ')') || (Tok(src, old(pos)) == "void" && PeekIs(src, TokEnd(src, old(pos)), ')'))
      ensures ok ==> pos == if PeekIs(src, old(pos), ')') then TokEnd(src, old(pos)) else TokEnd(src, TokEnd(src, old(pos)))
    {
      SkipOnce(src, pos);
      var close := Peek(')');
      if close {
        var _ := NextTok();
        return true;
      }
      var save := pos;
      var t := NextTok();
      if t == "void" {
        SkipOnce(src, pos);
        close := Peek(')');
        if close {
          var _ := NextTok();
          return true;
        }
      }
      pos := save;
      ok := false;
    }

    /** One suffix, inserted behind the cursor, which stays. */
    method ReadSuffix() returns (ok: bool)
      requires Valid() && (PeekIs(src, pos, '[') || PeekIs(src, pos, '('))
      modifies this`pos, this`stack
      ensures Valid() && (ok <==> Suffix(src, old(pos)).Some?)
      ensures ok ==> var r := Suffix(src, old(pos)).value; pos == r.0 && stack == Inserted(old(stack), cursor, [r.1])
    {
      SkipOnce(src, pos);
      var bracket := Peek('[');
      var _ := NextTok();
      if bracket {
        var n := ReadCount();
        var t := NextTok();
        if t != "]" {
          return false;
        }
        Insert(Array(n));
        ok := true;
      } else {
        ok := ReadParams();
        if ok {
          Insert(Func);
        }
      }
    }

    /** The suffixes: the later one is written, the closer to the base it is. */
    method ReadSuffixes() returns (ok: bool)
      requires Valid()
      modifies this`pos, this`stack
      ensures Valid() && (ok <==> Suffixes(src, old(pos)).Some?)
      ensures ok ==> var r := Suffixes(src, old(pos)).value; pos == r.0 && stack == Inserted(old(stack), cursor, Rev(r.1))
    {
      hide Suffixes, Suffix, Inserted, PeekIs, SkipWs, Rev;
      ghost var done: seq<Elem> := [];
      ghost var all := Suffixes(src, pos);
      InsertNone(stack, cursor);
      RevNone();
      NoneRead(src, pos);
      ok := true;
      var more := true;
      while more
        invariant Valid() && ok && stack == Inserted(old(stack), cursor, Rev(done))
        invariant if more then all == Joined(done, Suffixes(src, pos)) else all == Some((pos, done))
        decreases more, |src| - pos
      {
        SuffixesStep(src, pos, done);
        SkipOnce(src, pos);
        var bracket := Peek('[');
        SkipOnce(src, pos);
        var func := Peek('(');
        more := bracket || func;
        if more {
          ghost var p := pos;
          ok := ReadSuffix();
          if !ok {
            return;
          }
          ghost var e := Suffix(src, p).value.1;
          RevNext(done, e);
          InsertFirst(old(stack), cursor, Rev(done), e);
          done := done + [e];
        }
      }
    }

    /** A declarator: the elements it means end up, in order, behind the
        cursor. */
    method DeclDeclarator() returns (ok: bool)
      requires Valid()
      modifies this
      ensures Valid() && (ok <==> Declarator(src, old(pos)).Some?)
      ensures ok ==> var r := Declarator(src, old(pos)).value; pos == r.0 && stack == Inserted(old(stack), old(cursor), r.1)
      decreases |src| - pos, 1
    {
      hide Ptrs, Suffixes, Inserted, Rev, TokEnd, Tok, IsGroup;
      ReadPtrs();
      PtrsStop(src, old(pos));
      ghost var ptrs, p := Ptrs(src, old(pos)).1, pos;
      InsertNone(stack, cursor);
      var paren := Peek('(');
      var grouped := false;
      if paren {
        grouped := DeclIsGroup();
      }
      ghost var group: seq<Elem> := [];
      if grouped {
        ok := ReadGroup();
        if !ok {
          return;
        }
        group := Declarator(src, TokEnd(src, p)).value.1;
      }
      ghost var q := pos;
      ok := ReadSuffixes();
      if ok {
        InsertAll(old(stack), old(cursor), ptrs, group, Rev(Suffixes(src, q).value.1));
      }
    }

    /** A declarator in parentheses. The cursor is set back behind it, so that
        what follows the group applies before it. */
    method ReadGroup() returns (ok: bool)
      requires Valid() && PeekIs(src, pos, '(')
      modifies this
      ensures Valid() && var r := Declarator(src, TokEnd(src, old(pos)));
        && (ok <==> r.Some? && Tok(src, r.value.0) == ")")
        && (ok ==> pos == TokEnd(src, r.value.0) && stack == Inserted(old(stack), old(cursor), r.value.1) && cursor == old(cursor))
      decreases |src| - pos, 0
    {
      hide Declarator, Inserted;
      var _ := NextTok();
      var saved := cursor;
      ok := DeclDeclarator();
      if !ok {
        return;
      }
      InsertedLen(old(stack), old(cursor), Declarator(src, TokEnd(src, old(pos))).value.1);
      var t := NextTok();
      cursor := saved;
      ok := t == ")";
    }
  }

  lemma InsertNone(st: seq<Elem>, c: nat)
    requires c < |st|
    ensures Inserted(st, c, []) == st
  {
  }

  lemma InsertedLen(st: seq<Elem>, c: nat, es: seq<Elem>)
    requires c < |st|
    ensures |Inserted(st, c, es)| == |st| + |es|
  {
  }

  lemma SkipOnce(src: string, pos: nat)
    requires pos <= |src|
    ensures SkipWs(src, SkipWs(src, pos)) == SkipWs(src, pos) && TokEnd(src, SkipWs(src, pos)) == TokEnd(src, pos) && Tok(src, SkipWs(src, pos)) == Tok(src, pos)
    ensures forall c :: PeekIs(src, SkipWs(src, pos), c) == PeekIs(src, pos, c)
  {
  }

  lemma TokPeek(src: string, pos: nat)
    requires pos <= |src|
    ensures (Tok(src, pos) == "*" <==> PeekIs(src, pos, '*')) && (Tok(src, pos) == "(" <==> PeekIs(src, pos, '('))
  {
    var s := SkipWs(src, pos);
    if s < |src| {
      assert Tok(src, pos)[0] == src[s];
      if IsPunct(src[s]) { assert Tok(src, pos) == [src[s]]; }
    }
  }

  lemma PtrsStep(src: string, pos: nat, done: seq<Elem>)
    requires pos <= |src|
    ensures SkipWs(src, pos) <= |src| && TokEnd(src, SkipWs(src, pos)) <= |src| && PeekIs(src, SkipWs(src, pos), '*') == PeekIs(src, pos, '*')
    ensures !PeekIs(src, pos, '*') ==> Ptrs(src, pos) == (SkipWs(src, pos), []) && done + [] == done
    ensures PeekIs(src, pos, '*') ==> var (q, c, v) := Quals(src, TokEnd(src, SkipWs(src, pos))); var r := Ptrs(src, q);
      pos < q && Ptrs(src, pos).0 == r.0 && done + Ptrs(src, pos).1 == (done + [Ptr(c, v)]) + r.1
  {
    SkipOnce(src, pos);
    if PeekIs(src, pos, '*') {
      PtrsHead(src, pos);
    }
  }

  lemma PtrsHead(src: string, pos: nat)
    requires pos <= |src| && PeekIs(src, pos, '*')
    ensures var (q, c, v) := Quals(src, TokEnd(src, pos)); Ptrs(src, pos) == (Ptrs(src, q).0, [Ptr(c, v)] + Ptrs(src, q).1)
  {
  }

  /** The pointer operators end before the next token. */
  lemma {:induction false} PtrsStop(src: string, pos: nat)
    requires pos <= |src|
    ensures SkipWs(src, Ptrs(src, pos).0) == Ptrs(src, pos).0
    decreases |src| - pos
  {
    if PeekIs(src, pos, '*') {
      PtrsStop(src, Quals(src, TokEnd(src, pos)).0);
    } else {
      SkipOnce(src, pos);
    }
  }

  function Joined(done: seq<Elem>, r: Option<(nat, seq<Elem>)>): Option<(nat, seq<Elem>)> {
    if r.None? then None else Some((r.value.0, done + r.value.1))
  }

  lemma NoneRead(src: string, pos: nat)
    requires pos <= |src|
    ensures Suffixes(src, pos) == Joined([], Suffixes(src, pos))
  {
    if Suffixes(src, pos).Some? { assert [] + Suffixes(src, pos).value.1 == Suffixes(src, pos).value.1; }
  }

  lemma RevNone()
    ensures Rev([]) == []
  {
  }

  lemma SuffixesStep(src: string, pos: nat, done: seq<Elem>)
    requires pos <= |src|
    ensures !PeekIs(src, pos, '[') && !PeekIs(src, pos, '(') ==> Joined(done, Suffixes(src, pos)) == Some((SkipWs(src, pos), done))
    ensures PeekIs(src, pos, '[') || PeekIs(src, pos, '(') ==> var p := SkipWs(src, pos);
      && p <= |src| && (PeekIs(src, p, '[') || PeekIs(src, p, '('))
      && (Suffix(src, p).None? ==> Suffixes(src, pos).None?)
      && (Suffix(src, p).Some? ==> var (q, e) := Suffix(src, p).value; pos < q && Joined(done, Suffixes(src, pos)) == Joined(done + [e], Suffixes(src, q)))
  {
    SkipOnce(src, pos);
    if !PeekIs(src, pos, '[') && !PeekIs(src, pos, '(') {
      assert done + [] == done;
    } else {
      SuffixSkip(src, pos);
      SuffixesHead(src, pos, done);
    }
  }

  lemma SuffixSkip(src: string, pos: nat)
    requires pos <= |src| && (PeekIs(src, pos, '[') || PeekIs(src, pos, '('))
    ensures var p := SkipWs(src, pos); (PeekIs(src, p, '[') || PeekIs(src, p, '(')) && Suffix(src, p) == Suffix(src, pos)
  {
    SkipOnce(src, pos);
  }

  lemma SuffixesHead(src: string, pos: nat, done: seq<Elem>)
    requires pos <= |src| && (PeekIs(src, pos, '[') || PeekIs(src, pos, '('))
    ensures Suffix(src, pos).None? ==> Suffixes(src, pos).None?
    ensures Suffix(src, pos).Some? ==> var (q, e) := Suffix(src, pos).value; Joined(done, Suffixes(src, pos)) == Joined(done + [e], Suffixes(src, q))
  {
    if Suffix(src, pos).Some? {
      var (q, e) := Suffix(src, pos).value;
      if Suffixes(src, q).Some? { assert done + ([e] + Suffixes(src, q).value.1) == (done + [e]) + Suffixes(src, q).value.1; }
    }
  }

  lemma InsertNext(st: seq<Elem>, c: nat, es: seq<Elem>, e: Elem)
    requires c < |st|
    ensures Inserted(Inserted(st, c, es), c + |es|, [e]) == Inserted(st, c, es + [e])
  {
  }

  lemma InsertFirst(st: seq<Elem>, c: nat, es: seq<Elem>, e: Elem)
    requires c < |st|
    ensures Inserted(Inserted(st, c, es), c, [e]) == Inserted(st, c, [e] + es)
  {
  }

  lemma InsertAll(st: seq<Elem>, c: nat, ptrs: seq<Elem>, group: seq<Elem>, sufs: seq<Elem>)
    requires c < |st|
    ensures Inserted(Inserted(Inserted(st, c, ptrs), c + |ptrs|, group), c + |ptrs|, sufs) == Inserted(st, c, ptrs + sufs + group)
    ensures Inserted(Inserted(st, c, ptrs), c + |ptrs|, sufs) == Inserted(st, c, ptrs + sufs)
    ensures ptrs + sufs + [] == ptrs + sufs
  {
  }

  lemma {:induction false} RevNext(s: seq<Elem>, e: Elem)
    ensures Rev(s + [e]) == [e] + Rev(s)
  {
    if s != [] {
      assert (s + [e])[1..] == s[1..] + [e];
      RevNext(s[1..], e);
    }
  }
}
