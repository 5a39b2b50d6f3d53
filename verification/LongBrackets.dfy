/** Long brackets: the text between `[==[` and the first `]==]` of the same level. */
module LongBrackets {

  type Byte = x: int | 0 <= x < 256
  type Text = seq<Byte>

  const EOF := -1
  const LF: Byte := 10
  const CR: Byte := 13
  const EQUALS: Byte := 61
  const OPENS: Byte := 91
  const CLOSES: Byte := 93
  const MAX_EQUALS := 0x20000000
  const MAX_LINES := 0x7fffff00

  predicate Eol(c: int) { c == LF || c == CR }

  function CharAt(s: Text, i: nat): int { if i < |s| then s[i] else EOF }

  // -- What a long bracket is ------------------------------------------------------------

  /** How many equal signs stand at a position. */
  function Run(s: Text, i: nat): (k: nat)
    ensures i <= |s| ==> i + k <= |s|
    decreases |s| - i
  { if i < |s| && s[i] == EQUALS then 1 + Run(s, i + 1) else 0 }

  /** A closing bracket of the given level starts here. */
  predicate Closing(s: Text, i: nat, sep: nat) {
    CharAt(s, i) == CLOSES && Run(s, i + 1) == sep && CharAt(s, i + 1 + sep) == CLOSES
  }

  /** The first closing bracket of a level, or the end. */
  function FirstClosing(s: Text, i: nat, sep: nat): (q: nat)
    requires i <= |s|
    ensures i <= q <= |s| && (q < |s| ==> Closing(s, q, sep)) && forall j {:trigger Closing(s, j, sep)} :: i <= j < q ==> !Closing(s, j, sep)
    decreases |s| - i
  { if i == |s| || Closing(s, i, sep) then i else FirstClosing(s, i + 1, sep) }

  /** Behind the line break at a position: a carriage return and a line feed, in
      either order, are one. */
  function AfterEol(s: Text, i: nat): (j: nat)
    requires i < |s|
    ensures i < j <= |s|
  { if i + 1 < |s| && Eol(s[i + 1]) && s[i + 1] != s[i] then i + 2 else i + 1 }

  /** The text with every line break as one line feed. */
  function Normal(s: Text): Text
    decreases |s|
  {
    if s == [] then []
    else if Eol(s[0]) then [LF] + Normal(s[AfterEol(s, 0)..])
    else [s[0]] + Normal(s[1..])
  }

  function Breaks(s: Text): nat
    decreases |s|
  {
    if s == [] then 0
    else if Eol(s[0]) then 1 + Breaks(s[AfterEol(s, 0)..])
    else Breaks(s[1..])
  }

  /** The outcome of scanning: the text, where it ends, the line there. */
  datatype Outcome = Found(text: Text, end: nat, line: int) | Skipped(end: nat, line: int) | Unfinished | TooManyLines | Bracket | BadDelimiter

  /** Where the text starts: a line break right behind the bracket is not part of it. */
  function Start(s: Text, i: nat): (a: nat)
    requires i <= |s|
    ensures i <= a <= |s|
  { if i < |s| && Eol(s[i]) then AfterEol(s, i) else i }

  /** The long bracket whose text starts at a position. */
  function Bracketed(s: Text, i: nat, sep: nat, isStr: bool, line: int): (o: Outcome)
    requires i <= |s|
    ensures !o.Bracket? && !o.BadDelimiter?
  {
    var a := Start(s, i);
    var q := FirstClosing(s, a, sep);
    var n := (if a > i then 1 else 0) + Breaks(s[a..q]);
    if n > 0 && line + n >= MAX_LINES then TooManyLines
    else if q == |s| then Unfinished
    else if isStr then Found(Normal(s[a..q]), q + sep + 2, line + n)
    else Skipped(q + sep + 2, line + n)
  }

  /** What an opening bracket at a position begins. */
  function Opened(s: Text, i: nat, isStr: bool, line: int): Outcome
    requires i < |s| && s[i] == OPENS
  {
    var sep := Run(s, i + 1);
    if sep <= MAX_EQUALS && CharAt(s, i + 1 + sep) == OPENS then Bracketed(s, i + 2 + sep, sep, isStr, line)
    else if sep == 0 then Bracket
    else BadDelimiter
  }

  // -- Scanning ---------------------------------------------------------------------------

  lemma {:induction false} RunStep(s: Text, i: nat, k: nat)
    requires k <= Run(s, i) && i <= |s|
    ensures Run(s, i + k) == Run(s, i) - k
    ensures forall j {:trigger s[j]} :: i <= j < i + k ==> s[j] == EQUALS
    decreases k
  {
    if k > 0 {
      RunStep(s, i, k - 1);
    }
  }

  /** No closing bracket starts at a bracket that is not one, or at the equal
      signs behind it. */
  lemma {:induction false} NoClosing(s: Text, x: nat, k: nat, sep: nat)
    requires x < |s| && !Closing(s, x, sep) && k <= Run(s, x + 1)
    ensures FirstClosing(s, x, sep) == FirstClosing(s, x + 1 + k, sep)
    decreases k
  {
    if k > 0 {
      NoClosing(s, x, k - 1, sep);
      RunStep(s, x + 1, k);
      assert s[x + k] == EQUALS;
    }
  }

  /** A stretch without line breaks is kept as it is. */
  lemma {:induction false} NormalPlain(s: Text, x: nat, y: nat, q: nat)
    requires x <= y <= q <= |s| && forall j {:trigger s[j]} :: x <= j < y ==> !Eol(s[j])
    ensures Normal(s[x..q]) == s[x..y] + Normal(s[y..q]) && Breaks(s[x..q]) == Breaks(s[y..q])
    decreases y - x
  {
    if x < y {
      var t := s[x..q];
      assert t[0] == s[x] && t[1..] == s[x + 1..q];
      NormalPlain(s, x + 1, y, q);
      assert s[x..y] == [s[x]] + s[x + 1..y];
      assert Normal(t) == [s[x]] + Normal(s[x + 1..q]);
      assert [s[x]] + (s[x + 1..y] + Normal(s[y..q])) == s[x..y] + Normal(s[y..q]);
    }
  }

  /** A line break before the closing bracket becomes a line feed. */
  lemma NormalEol(s: Text, x: nat, q: nat)
    requires x < q <= |s| && Eol(s[x]) && !Eol(CharAt(s, q))
    ensures AfterEol(s, x) <= q
    ensures Normal(s[x..q]) == [LF] + Normal(s[AfterEol(s, x)..q]) && Breaks(s[x..q]) == 1 + Breaks(s[AfterEol(s, x)..q])
  {
    var t := s[x..q];
    assert AfterEol(t, 0) == AfterEol(s, x) - x;
    assert t[AfterEol(t, 0)..] == s[AfterEol(s, x)..q];
  }

  /** What was counted is the level exactly at a closing bracket of that level. */
  lemma ClosingRun(s: Text, x: nat, sep: nat, k: int, y: nat)
    requires x < y <= |s| && s[x] == CLOSES && sep <= MAX_EQUALS && y - x - 1 <= Run(s, x + 1) && (y - x - 1 < Run(s, x + 1) ==> y - x - 1 == MAX_EQUALS)
    requires k == if y - x - 1 == Run(s, x + 1) && CharAt(s, y) == CLOSES then y - x - 1 else x - y
    ensures k == sep <==> Closing(s, x, sep)
    ensures k == sep ==> y == x + 1 + sep
  {
  }

  lemma AtClosing(s: Text, x: nat, sep: nat)
    requires x < |s| && Closing(s, x, sep)
    ensures FirstClosing(s, x, sep) == x && Normal(s[x..x]) == [] && Breaks(s[x..x]) == 0
  {
  }

  lemma AtEnd(s: Text, sep: nat)
    ensures FirstClosing(s, |s|, sep) == |s| && Normal(s[|s|..|s|]) == [] && Breaks(s[|s|..|s|]) == 0
  {
  }

  /** Past a bracket and equal signs that close nothing. */
  lemma NotClosing(s: Text, x: nat, y: nat, sep: nat)
    requires x < y <= |s| && s[x] == CLOSES && !Closing(s, x, sep) && y - x - 1 <= Run(s, x + 1)
    ensures var q := FirstClosing(s, x, sep);
      y <= q && FirstClosing(s, y, sep) == q && Normal(s[x..q]) == s[x..y] + Normal(s[y..q]) && Breaks(s[x..q]) == Breaks(s[y..q])
  {
    NoClosing(s, x, y - x - 1, sep);
    RunStep(s, x + 1, y - x - 1);
    NormalPlain(s, x, y, FirstClosing(s, x, sep));
  }

  lemma EolPassed(s: Text, x: nat, sep: nat)
    requires x < |s| && Eol(s[x])
    ensures var q, y := FirstClosing(s, x, sep), AfterEol(s, x);
      y <= q && FirstClosing(s, y, sep) == q && Normal(s[x..q]) == [LF] + Normal(s[y..q]) && Breaks(s[x..q]) == 1 + Breaks(s[y..q])
  {
    var q := FirstClosing(s, x, sep);
    assert FirstClosing(s, x + 1, sep) == q;
    if AfterEol(s, x) == x + 2 { assert !Closing(s, x + 1, sep); }
    NormalEol(s, x, q);
  }

  lemma CharPassed(s: Text, x: nat, sep: nat)
    requires x < |s| && !Eol(s[x]) && s[x] != CLOSES
    ensures var q := FirstClosing(s, x, sep);
      x < q && FirstClosing(s, x + 1, sep) == q && Normal(s[x..q]) == [s[x]] + Normal(s[x + 1..q]) && Breaks(s[x..q]) == Breaks(s[x + 1..q])
  {
    var q := FirstClosing(s, x, sep);
    assert q > x;
    NormalPlain(s, x, x + 1, q);
    assert s[x..x + 1] == [s[x]];
  }

  /** What one turn does: it goes on behind a piece of the text, or finds the
      closing bracket, the end, or too many lines. */
  datatype Turn = Goes(piece: Text) | TooMany(piece: Text) | Closes | Ends

  ghost predicate Turned(s: Text, t: Turn, sep: nat, x: nat, y: nat, lines: int)
    requires x <= |s| && y <= |s|
  {
    var q := FirstClosing(s, x, sep);
    match t
    case Closes => x == q < |s| && y == q + sep + 2 && Breaks(s[x..q]) == lines == 0 && Normal(s[x..q]) == []
    case Ends => x == q == |s| && Breaks(s[x..q]) == lines == 0
    case _ =>
      && x < y <= q && FirstClosing(s, y, sep) == q && Normal(s[x..q]) == t.piece + Normal(s[y..q])
      && Breaks(s[x..q]) == lines + Breaks(s[y..q]) && (if t.TooMany? then lines == 1 else 0 <= lines <= 1)
  }

  /** Where the scan of a text stands that starts at `a` and closes at `q`. */
  ghost predicate Underway(s: Text, t: Turn, sep: nat, a: nat, q: nat, cur: nat, lines: int) {
    && a <= q <= |s| && cur <= |s|
    && match t
       case Goes(_) => a <= cur <= q && FirstClosing(s, cur, sep) == q && 0 <= lines && lines + Breaks(s[cur..q]) == Breaks(s[a..q])
       case TooMany(_) => 0 < lines <= Breaks(s[a..q])
       case Ends => q == |s| && lines == Breaks(s[a..q])
       case Closes => q < |s| && cur == q + sep + 2 && lines == Breaks(s[a..q])
  }

  ghost predicate Kept(s: Text, t: Turn, sep: nat, q: nat, cur: nat, sb: Text, head: Text, all: Text) {
    && (t.Goes? ==> cur <= q <= |s| && Saved(sb, Normal(s[cur..q]), head, all))
    && (t.Closes? ==> Closed(sb, head, all, sep + 2))
  }

  lemma Onward(s: Text, t0: Turn, t: Turn, sep: nat, a: nat, q: nat, x: nat, y: nat, lines0: int, lines: int)
    requires t0.Goes? && Underway(s, t0, sep, a, q, x, lines0) && y <= |s| && Turned(s, t, sep, x, y, lines - lines0)
    ensures Underway(s, t, sep, a, q, y, lines)
    ensures t.Goes? ==> x < y
  {
    hide Breaks, FirstClosing;
  }

  lemma Keep(s: Text, t0: Turn, t: Turn, sep: nat, a: nat, q: nat, x: nat, y: nat, lines0: int, lines: int, was: Text, sb: Text, head: Text, all: Text)
    requires t0.Goes? && Underway(s, t0, sep, a, q, x, lines0) && y <= |s| && Turned(s, t, sep, x, y, lines - lines0)
    requires Kept(s, t0, sep, q, x, was, head, all) && (t.Goes? ==> sb == was + t.piece) && (t.Closes? ==> sb == was + s[x..y])
    ensures Kept(s, t, sep, q, y, sb, head, all)
  {
    hide Breaks, FirstClosing, Normal, Saved, Closed;
    if t.Goes? {
      SaveStep(was, t.piece, Normal(s[y..q]), head, all);
    } else if t.Closes? {
      AllSaved(was, head, all, s[x..y], sb);
    }
  }

  /** What was saved and what is still to come make up the text. */
  ghost predicate Saved(sb: Text, rest: Text, head: Text, all: Text) { sb + rest == head + all }

  lemma SaveStep(sb: Text, piece: Text, rest: Text, head: Text, all: Text)
    requires Saved(sb, piece + rest, head, all)
    ensures Saved(sb + piece, rest, head, all)
  {
    assert sb + (piece + rest) == sb + piece + rest;
  }

  /** The buffer at the end: what was there, the text, the closing bracket. */
  ghost predicate Closed(sb: Text, head: Text, all: Text, n: nat) { |sb| == |head| + |all| + n && head + all <= sb }

  lemma AllSaved(was: Text, head: Text, all: Text, closing: Text, sb: Text)
    requires Saved(was, [], head, all) && sb == was + closing
    ensures Closed(sb, head, all, |closing|)
  {
    assert was + [] == was;
  }

  lemma Inner(s: Text, q: nat, cur: nat, sb: Text, head: Text, all: Text, sep: nat)
    requires |head| == 2 + sep && Kept(s, Closes, sep, q, cur, sb, head, all)
    ensures |sb| >= 2 * (2 + sep) && sb[2 + sep..|sb| - (2 + sep)] == all
  {
    assert sb[..|head| + |all|] == head + all;
    assert (head + all)[|head|..] == all;
    assert sb[2 + sep..|sb| - (2 + sep)] == sb[..|head| + |all|][|head|..];
  }

  /** Where the scan of the text ended is the outcome of the long bracket. */
  lemma Concludes(s: Text, i: nat, sep: nat, isStr: bool, line: int, t: Turn, cur: nat, n: int, lines: int)
    requires i <= |s| && !t.Goes? && n == line + (if Start(s, i) > i then 1 else 0) && (n > line ==> n < MAX_LINES)
    requires var a := Start(s, i);
      Underway(s, t, sep, a, FirstClosing(s, a, sep), cur, lines - n)
    requires if t.TooMany? then lines >= MAX_LINES else lines == n || lines < MAX_LINES
    ensures var a := Start(s, i);
      Bracketed(s, i, sep, isStr, line) ==
        if t.TooMany? then TooManyLines
        else if t.Ends? then Unfinished
        else if isStr then Found(Normal(s[a..FirstClosing(s, a, sep)]), cur, lines)
        else Skipped(cur, lines)
  {
    hide Normal, Breaks, FirstClosing;
  }

  lemma RunOne(s: Text, i: nat)
    requires i <= |s|
    ensures Run(s, i) == if CharAt(s, i) == EQUALS then 1 + Run(s, i + 1) else 0
  {
  }

  lemma Join(was: Text, s: Text, x: nat, y: nat, z: nat)
    requires x <= y <= z <= |s|
    ensures was + s[x..y] + s[y..z] == was + s[x..z] && (x == y ==> was + s[y..z] == was + s[x..z]) && (z == y + 1 ==> s[y..z] == [s[y]])
  {
    assert s[x..y] + s[y..z] == s[x..z];
  }

  class Lexer {
    const src: Text
    var pos: nat
    var c: int
    var sb: Text
    var linenumber: int

    /** The current character is the one before the position, or the end. */
    ghost predicate Valid()
      reads this
    { pos <= |src| && (c == EOF ==> pos == |src|) && (c != EOF ==> pos > 0 && c == src[pos - 1]) }

    function Cur(): (i: nat)
      requires Valid()
      reads this
      ensures i <= |src| && c == CharAt(src, i)
    { if c == EOF then |src| else pos - 1 }

    constructor (src: Text, linenumber: int)
      ensures Valid() && this.src == src && Cur() == 0 && sb == [] && this.linenumber == linenumber
    {
      this.src, this.linenumber, sb := src, linenumber, [];
      c, pos := CharAt(src, 0), if |src| > 0 then 1 else 0;
    }

    method NextChar()
      requires Valid()
      modifies `c, `pos
      ensures Valid() && Cur() == if old(Cur()) < |src| then old(Cur()) + 1 else |src|
    {
      if pos < |src| {
        c := src[pos];
        pos := pos + 1;
      } else {
        c := EOF;
      }
    }

    method SaveNext()
      requires Valid() && c != EOF
      modifies `c, `pos, `sb
      ensures Valid() && Cur() == old(Cur()) + 1 && sb == old(sb) + [src[old(Cur())]]
    {
      sb := sb + [c];
      NextChar();
    }

    /** Past a line break; false if there are too many lines. */
    method Newline() returns (ok: bool)
      requires Valid() && Eol(c)
      modifies `c, `pos, `linenumber
      ensures Valid() && Cur() == AfterEol(src, old(Cur())) && linenumber == old(linenumber) + 1
      ensures ok <==> linenumber < MAX_LINES
    {
      var was := c;
      NextChar();
      if Eol(c) && c != was { NextChar(); }
      linenumber := linenumber + 1;
      ok := linenumber < MAX_LINES;
    }

    /** The bracket and the equal signs are saved and passed; the level, if the
        same bracket stands behind them. */
    method SkipEq() returns (r: int)
      requires Valid() && (c == OPENS || c == CLOSES)
      modifies `c, `pos, `sb
      ensures Valid()
      ensures old(Cur()) < Cur() && SkippedTo(old(Cur()), Cur() - old(Cur()) - 1)
      ensures var x, y := old(Cur()), Cur();
        sb == old(sb) + src[x..y] && r == if y - x - 1 == Run(src, x + 1) && c == src[x] then y - x - 1 else x - y
    {
      hide Run;
      ghost var x, was := Cur(), sb;
      ghost var run := Run(src, x + 1);
      var s := c;
      var count: nat := 0;
      SaveNext();
      Join(was, src, x, x, x + 1);
      while c == EQUALS && count < MAX_EQUALS
        invariant Valid() && count <= MAX_EQUALS && count <= run && Cur() == x + 1 + count
        invariant Run(src, x + 1 + count) == run - count
        invariant sb == was + src[x..x + 1 + count]
        decreases |src| - Cur()
      {
        RunOne(src, x + 1 + count);
        SaveNext();
        Join(was, src, x, x + 1 + count, x + 2 + count);
        count := count + 1;
      }
      RunOne(src, x + 1 + count);
      r := if c == s then count as int else -1 - count;
    }

    /** All the equal signs, or as many as are counted. */
    ghost predicate SkippedTo(x: nat, k: nat) {
      && x < |src| && k <= MAX_EQUALS && k <= Run(src, x + 1) && (k < Run(src, x + 1) ==> k == MAX_EQUALS)
    }

    /** At a closing bracket: whether it closes the level; its equal signs are
        passed, and so is its second bracket if it does. */
    method TryClose(sep: nat) returns (closed: bool)
      requires Valid() && sep <= MAX_EQUALS && c == CLOSES
      modifies `c, `pos, `sb
      ensures Valid() && old(Cur()) < Cur() && sb == old(sb) + src[old(Cur())..Cur()]
      ensures Turned(src, if closed then Closes else Goes(src[old(Cur())..Cur()]), sep, old(Cur()), Cur(), 0)
    {
      hide Normal, Breaks, FirstClosing, Run;
      ghost var x := Cur();
      var k := SkipEq();
      ghost var y := Cur();
      ClosingRun(src, x, sep, k, y);
      closed := k == sep;
      if closed {
        AtClosing(src, x, sep);
        SaveNext();
        assert src[x..x + sep + 2] == src[x..y] + [src[y]];
      } else {
        NotClosing(src, x, y, sep);
      }
    }

    /** One turn of the scan: a run of equal signs, a line break or a character. */
    method LongStep(isStr: bool, sep: nat) returns (t: Turn)
      requires Valid() && sep <= MAX_EQUALS
      modifies `c, `pos, `sb, `linenumber
      ensures Valid() && Turned(src, t, sep, old(Cur()), Cur(), linenumber - old(linenumber))
      ensures isStr && t.Goes? ==> sb == old(sb) + t.piece
      ensures isStr && t.Closes? ==> sb == old(sb) + src[old(Cur())..Cur()]
      ensures if t.TooMany? then linenumber >= MAX_LINES else linenumber == old(linenumber) || linenumber < MAX_LINES
    {
      hide Normal, Breaks, FirstClosing, Run;
      var x := Cur();
      if c == EOF {
        AtEnd(src, sep);
        t := Ends;
      } else if c == CLOSES {
        hide Turned;
        var closed := TryClose(sep);
        t := if closed then Closes else Goes(src[x..Cur()]);
      } else if Eol(c) {
        EolPassed(src, x, sep);
        sb := sb + [LF];
        var ok := Newline();
        if !isStr { sb := []; }
        t := if ok then Goes([LF]) else TooMany([LF]);
      } else {
        CharPassed(src, x, sep);
        SaveNext();
        t := Goes([src[x]]);
      }
    }

    /** The turns up to the closing bracket, or to the end. */
    method ScanText(isStr: bool, sep: nat) returns (t: Turn)
      requires Valid() && sep <= MAX_EQUALS
      modifies `c, `pos, `sb, `linenumber
      ensures Valid() && !t.Goes?
      ensures var a := old(Cur());
        var q := FirstClosing(src, a, sep);
        && Underway(src, t, sep, a, q, Cur(), linenumber - old(linenumber))
        && (isStr ==> Kept(src, t, sep, q, Cur(), sb, old(sb), Normal(src[a..q])))
      ensures if t.TooMany? then linenumber >= MAX_LINES else linenumber == old(linenumber) || linenumber < MAX_LINES
    {
      ghost var a, head, n := Cur(), sb, linenumber;
      ghost var q := FirstClosing(src, a, sep);
      ghost var all := Normal(src[a..q]);
      t := Goes([]);
      while t.Goes?
        invariant Valid() && Underway(src, t, sep, a, q, Cur(), linenumber - n)
        invariant isStr ==> Kept(src, t, sep, q, Cur(), sb, head, all)
        invariant if t.TooMany? then linenumber >= MAX_LINES else linenumber == n || linenumber < MAX_LINES
        decreases t.Goes?, |src| - Cur()
      {
        hide Underway, Turned, Kept, Normal, FirstClosing, Breaks;
        ghost var t0, x, was, lines := t, Cur(), sb, linenumber - n;
        t := LongStep(isStr, sep);
        Onward(src, t0, t, sep, a, q, x, Cur(), lines, linenumber - n);
        if isStr { Keep(src, t0, t, sep, a, q, x, Cur(), lines, linenumber - n, was, sb, head, all); }
      }
    }

    /** Past the second opening bracket and a line break right behind it. */
    method Begin() returns (ok: bool)
      requires Valid() && c == OPENS
      modifies `c, `pos, `sb, `linenumber
      ensures Valid() && |sb| == |old(sb)| + 1 && var i := old(Cur()) + 1;
        i <= |src| && Cur() == Start(src, i) && linenumber == old(linenumber) + (if Cur() > i then 1 else 0)
      ensures !ok <==> linenumber > old(linenumber) && linenumber >= MAX_LINES
    {
      ok := true;
      SaveNext();
      if Eol(c) { ok := Newline(); }
    }

    /** From the second opening bracket; `sb` holds the first and the equal signs. */
    method LongString(isStr: bool, sep: nat) returns (r: Outcome)
      requires Valid() && c == OPENS && sep <= MAX_EQUALS && (isStr ==> |sb| == 1 + sep)
      modifies `c, `pos, `sb, `linenumber
      ensures Valid() && r == Bracketed(src, old(Cur()) + 1, sep, isStr, old(linenumber))
      ensures r.Found? || r.Skipped? ==> Cur() == r.end && linenumber == r.line
    {
      ghost var i, line := Cur() + 1, linenumber;
      var ok := Begin();
      if !ok { return TooManyLines; }
      hide FirstClosing, Normal, Breaks, Closed, Underway, Kept, Bracketed;
      ghost var head, a, n := sb, Cur(), linenumber;
      var t := ScanText(isStr, sep);
      Concludes(src, i, sep, isStr, line, t, Cur(), n, linenumber);
      if t.TooMany? { return TooManyLines; }
      if t.Ends? { return Unfinished; }
      if isStr {
        var start := 2 + sep;
        Inner(src, FirstClosing(src, a, sep), Cur(), sb, head, Normal(src[a..FirstClosing(src, a, sep)]), sep);
        r := Found(sb[start..|sb| - start], Cur(), linenumber);
      } else {
        r := Skipped(Cur(), linenumber);
      }
    }

    /** At an opening bracket, as the scanner of tokens does it: a long string, a
        single bracket, or a bracket with equal signs that opens nothing. */
    method ScanBracket() returns (r: Outcome)
      requires Valid() && c == OPENS && sb == []
      modifies `c, `pos, `sb, `linenumber
      ensures Valid() && r == Opened(src, old(Cur()), true, old(linenumber))
      ensures r.Found? ==> Cur() == r.end && linenumber == r.line
    {
      hide Bracketed, Run;
      var sep := SkipEq();
      if sep >= 0 {
        r := LongString(true, sep);
      } else if sep == -1 {
        r := Bracket;
      } else {
        r := BadDelimiter;
      }
    }

    /** At the bracket behind the two dashes of a comment: a long comment, or a
        comment up to the end of the line. */
    method ScanComment() returns (r: Outcome)
      requires Valid() && c == OPENS
      modifies `c, `pos, `sb, `linenumber
      ensures Valid() && r == var o := Opened(src, old(Cur()), false, old(linenumber));
        if o.Bracket? || o.BadDelimiter? then Skipped(Cur(), old(linenumber)) else o
      ensures r.Skipped? ==> Cur() == r.end && linenumber == r.line
      ensures Opened(src, old(Cur()), false, old(linenumber)).Bracket? || Opened(src, old(Cur()), false, old(linenumber)).BadDelimiter? ==>
        (Cur() == |src| || Eol(c)) && forall j {:trigger src[j]} :: old(Cur()) <= j < Cur() ==> !Eol(src[j])
    {
      hide Bracketed;
      ghost var x := Cur();
      var sep := SkipEq();
      RunStep(src, x + 1, Cur() - x - 1);
      sb := [];
      if sep >= 0 {
        r := LongString(false, sep);
        sb := [];
        return;
      }
      while !Eol(c) && c != EOF
        invariant Valid() && x < Cur() && linenumber == old(linenumber)
        invariant forall j {:trigger src[j]} :: x <= j < Cur() ==> !Eol(src[j])
        decreases |src| - Cur()
      {
        NextChar();
      }
      r := Skipped(Cur(), linenumber);
    }
  }

  // -- Every text can be written --------------------------------------------------------------

  function Equals(n: nat): (s: Text)
    ensures |s| == n
  { seq(n, _ => EQUALS) }

  function Closer(sep: nat): Text { [CLOSES] + Equals(sep) + [CLOSES] }

  /** A text in long brackets of a level, on a line of its own. */
  function Quoted(t: Text, sep: nat): Text { [OPENS] + Equals(sep) + [OPENS] + [LF] + t + Closer(sep) }

  lemma {:induction false} RunShift(s: Text, k: nat, i: nat)
    requires k <= i <= |s|
    ensures Run(s[k..], i - k) == Run(s, i)
    decreases |s| - i
  {
    if i < |s| { RunShift(s, k, i + 1); }
  }

  lemma ClosingShift(s: Text, k: nat, i: nat, sep: nat)
    requires k <= i <= |s|
    ensures Closing(s[k..], i - k, sep) == Closing(s, i, sep)
  {
    if i < |s| { RunShift(s, k, i + 1); }
  }

  lemma {:induction false} FirstShift(s: Text, k: nat, i: nat, sep: nat)
    requires k <= i <= |s|
    ensures FirstClosing(s[k..], i - k, sep) == FirstClosing(s, i, sep) - k
    decreases |s| - i
  {
    ClosingShift(s, k, i, sep);
    if i < |s| { FirstShift(s, k, i + 1, sep); }
  }

  lemma {:induction false} RunOf(u: Text, i: nat, n: nat)
    requires i + n < |u| && u[i + n] != EQUALS && forall j {:trigger u[j]} :: i <= j < i + n ==> u[j] == EQUALS
    ensures Run(u, i) == n
    decreases n
  {
    if n > 0 { RunOf(u, i + 1, n - 1); }
  }

  lemma CloserCloses(t: Text, sep: nat)
    ensures var u := t + Closer(sep);
      Closing(u, |t|, sep) && |u| == |t| + sep + 2 && u[..|t|] == t && u[|t|] == CLOSES
  {
    RunOf(t + Closer(sep), |t| + 1, sep);
  }

  lemma QuotedStarts(t: Text, sep: nat)
    ensures var s := Quoted(t, sep);
      |s| == |t| + 2 * sep + 5 && s[0] == OPENS && Run(s, 1) == sep && s[1 + sep] == OPENS && s[2 + sep] == LF && s[3 + sep..] == t + Closer(sep)
  {
    var s := Quoted(t, sep);
    var head: Text := [OPENS] + Equals(sep) + [OPENS] + [LF];
    assert s == head + (t + Closer(sep));
    assert s[..3 + sep] == head;
    assert head[1 + sep] == OPENS && forall j {:trigger s[j]} :: 1 <= j < 1 + sep ==> s[j] == head[j] == EQUALS;
    RunOf(s, 1, sep);
  }

  lemma {:induction false} NormalShrinks(t: Text)
    ensures |Normal(t)| <= |t| && CR !in Normal(t)
    decreases |t|
  {
    if t != [] { NormalShrinks(if Eol(t[0]) then t[AfterEol(t, 0)..] else t[1..]); }
  }

  lemma {:induction false} NormalKeeps(t: Text)
    requires CR !in t
    ensures Normal(t) == t
    decreases |t|
  {
    if t != [] {
      NormalKeeps(t[1..]);
      if Eol(t[0]) { assert AfterEol(t, 0) == 1; }
      assert [t[0]] + t[1..] == t;
    }
  }

  predicate ReadsBack(t: Text, sep: nat, line: int) {
    QuotedStarts(t, sep);
    var o := Opened(Quoted(t, sep), 0, true, line);
    o.Found? && o.text == t
  }

  /** No closing bracket of the level starts inside the text, not even one that
      is completed by what closes it. */
  predicate Unclosed(t: Text, sep: nat) { forall i {:trigger Closing(t + Closer(sep), i, sep)} :: 0 <= i < |t| ==> !Closing(t + Closer(sep), i, sep) }

  function Lead(t: Text): (k: nat)
    ensures k <= |t|
  { if t != [] && t[0] == CR then 1 else 0 }

  /** Where the scan of a quoted text begins: a carriage return at its start is
      taken with the line feed before it. */
  lemma QuotedStart(t: Text, sep: nat)
    ensures |Quoted(t, sep)| == |t| + 2 * sep + 5 && Start(Quoted(t, sep), 2 + sep) == 3 + sep + Lead(t)
  {
    QuotedStarts(t, sep);
    assert Quoted(t, sep)[3 + sep] == (t + Closer(sep))[0];
  }

  /** Where the scan of a quoted text ends. */
  lemma QuotedScan(t: Text, sep: nat, k: nat)
    requires k <= |t|
    ensures var s, u := Quoted(t, sep), t + Closer(sep);
      |s| == |t| + 2 * sep + 5 && var q := FirstClosing(u, k, sep);
      k <= q <= |t| && FirstClosing(s, 3 + sep + k, sep) == 3 + sep + q && s[3 + sep + k..3 + sep + q] == t[k..q]
  {
    hide Run, FirstClosing, Closing, Closer;
    var s, u := Quoted(t, sep), t + Closer(sep);
    QuotedStarts(t, sep);
    CloserCloses(t, sep);
    FirstShift(s, 3 + sep, 3 + sep + k, sep);
    var q := FirstClosing(u, k, sep);
    assert k <= q <= |t|;
    Slices(s, 3 + sep, u, t, k, q);
  }

  lemma Slices(s: Text, n: nat, u: Text, t: Text, k: nat, q: nat)
    requires n <= |s| && s[n..] == u && k <= q <= |t| <= |u| && u[..|t|] == t
    ensures s[n + k..n + q] == t[k..q]
  {
    var v, w := s[n + k..n + q], t[k..q];
    forall j {:trigger v[j]} | 0 <= j < q - k
      ensures v[j] == w[j]
    {
      assert v[j] == s[n + (k + j)] == s[n..][k + j] == u[k + j];
      assert u[k + j] == u[..|t|][k + j];
    }
    assert v == w;
  }

  /** What the scan of a quoted text finds. */
  lemma QuotedFinds(t: Text, sep: nat, line: int)
    requires sep <= MAX_EQUALS
    ensures var q := FirstClosing(t + Closer(sep), Lead(t), sep);
      && Lead(t) <= q <= |t|
      && (ReadsBack(t, sep, line) <==> Normal(t[Lead(t)..q]) == t && line + 1 + Breaks(t[Lead(t)..q]) < MAX_LINES)
  {
    hide Normal, Breaks, Closing, FirstClosing, Run, Quoted, Closer, Start;
    QuotedStarts(t, sep);
    QuotedStart(t, sep);
    QuotedScan(t, sep, Lead(t));
  }

  /** The scan goes to the end exactly if nothing closes before. */
  lemma ScanToEnd(t: Text, sep: nat)
    ensures Lead(t) == 0 ==> (Unclosed(t, sep) <==> FirstClosing(t + Closer(sep), 0, sep) >= |t|)
  {
    hide Closing, FirstClosing, Closer;
    CloserCloses(t, sep);
  }

  /** A quoted text is read back if and only if it has no carriage return, no
      closing bracket of the level starts in it, and the lines do not run out. */
  lemma QuoteReads(t: Text, sep: nat, line: int)
    requires sep <= MAX_EQUALS
    ensures ReadsBack(t, sep, line) <==> CR !in t && Unclosed(t, sep) && line + 1 + Breaks(t) < MAX_LINES
  {
    hide Normal, Breaks, FirstClosing, Closer, ReadsBack, Unclosed;
    var k, q := Lead(t), FirstClosing(t + Closer(sep), Lead(t), sep);
    QuotedFinds(t, sep, line);
    NormalShrinks(t[k..q]);
    ScanToEnd(t, sep);
    if CR !in t {
      NormalKeeps(t[k..q]);
      if q == |t| { assert t[k..q] == t; }
    }
  }

  function MaxRun(t: Text): nat { if t == [] then 0 else if Run(t, 0) > MaxRun(t[1..]) then Run(t, 0) else MaxRun(t[1..]) }

  lemma {:induction false} RunsBelow(t: Text, i: nat)
    requires i <= |t|
    ensures Run(t, i) <= MaxRun(t)
  {
    if 0 < i {
      RunShift(t, 1, i);
      RunsBelow(t[1..], i - 1);
    }
  }

  lemma {:induction false} RunIn(u: Text, t: Text, i: nat, n: nat)
    requires i + n <= |t| <= |u| && u[..|t|] == t && n <= Run(u, i)
    ensures n <= Run(t, i)
    decreases n
  {
    if n > 0 {
      assert u[i] == u[..|t|][i];
      RunIn(u, t, i + 1, n - 1);
    }
  }

  /** Every text without carriage returns can be written: at a level above its
      longest run of equal signs it is read back. */
  lemma EveryText(t: Text, line: int)
    requires CR !in t && MaxRun(t) < MAX_EQUALS && line + 1 + Breaks(t) < MAX_LINES
    ensures ReadsBack(t, MaxRun(t) + 1, line)
  {
    var sep := MaxRun(t) + 1;
    var u := t + Closer(sep);
    forall i {:trigger Closing(u, i, sep)} | 0 <= i < |t|
      ensures !Closing(u, i, sep)
    {
      CloserCloses(t, sep);
      if Closing(u, i, sep) {
        RunStep(u, i + 1, sep);
        if i + 1 + sep <= |t| {
          RunIn(u, t, i + 1, sep);
          RunsBelow(t, i + 1);
        }
      }
    }
    QuoteReads(t, sep, line);
  }

  /** Reading a quoted text. */
  method Reread(t: Text, sep: nat, line: int) returns (r: Outcome)
    requires sep <= MAX_EQUALS
    ensures r.Found? && r.text == t <==> CR !in t && Unclosed(t, sep) && line + 1 + Breaks(t) < MAX_LINES
  {
    hide Opened, Unclosed, Breaks;
    QuotedStarts(t, sep);
    QuoteReads(t, sep, line);
    var lexer := new Lexer(Quoted(t, sep), line);
    r := lexer.ScanBracket();
  }
}
