/** Operators and their priorities: which tree the parser builds from a row of
    operands and operators. */
module Precedence {
  import opened Wrappers

  datatype BinOp = Add | Sub | Mul | Div | Mod | Pow | BAnd | BOr | BXor | BShl | BShr | BSar | Concat | Ne | Eq | Lt | Ge | Le | Gt | And | Or | Coal

  datatype UnOp = Not | Unm | Len | BNot

  /** Minus and tilde are binary and unary; an atom is a literal or a name with
      what is applied to it. */
  datatype Token = TAtom(n: nat) | TOpen | TClose | TBin(op: BinOp) | TNot | THash

  datatype Tree = Atom(n: nat) | Paren(t: Tree) | Unary(u: UnOp, t: Tree) | Binary(op: BinOp, l: Tree, r: Tree)

  datatype Result = Parsed(t: Tree, pos: nat) | TooDeep | Unexpected

  const UNARY_PRIORITY := 12
  const LJ_MAX_XLEVEL := 200

  function Left(op: BinOp): nat {
    match op
    case Add => 10 case Sub => 10 case Mul => 11 case Div => 11 case Mod => 11 case Pow => 14
    case BAnd => 6 case BOr => 4 case BXor => 5 case BShl => 7 case BShr => 7 case BSar => 7 case Concat => 9
    case Ne => 3 case Eq => 3 case Lt => 3 case Ge => 3 case Le => 3 case Gt => 3
    case And => 2 case Or => 1 case Coal => 1
  }

  /** The power and the concatenation operators group to the right. */
  function Right(op: BinOp): nat {
    match op
    case Pow => 13
    case Concat => 8
    case _ => Left(op)
  }

  function UnaryToken(u: UnOp): Token {
    match u case Not => TNot case Unm => TBin(Sub) case Len => THash case BNot => TBin(BXor)
  }

  function UnaryOf(t: Token): Option<UnOp> {
    match t case TNot => Some(Not) case TBin(Sub) => Some(Unm) case THash => Some(Len) case TBin(BXor) => Some(BNot) case _ => None
  }

  /** The tokens of a tree; parentheses only where the tree has them. */
  function Flat(t: Tree): (s: seq<Token>)
    ensures |s| > 0
  {
    match t
    case Atom(n) => [TAtom(n)]
    case Paren(e) => [TOpen] + Flat(e) + [TClose]
    case Unary(u, e) => [UnaryToken(u)] + Flat(e)
    case Binary(op, l, r) => Flat(l) + ([TBin(op)] + Flat(r))
  }

  /** The priority with which the token at a position binds to its left. */
  function Next(ts: seq<Token>, pos: nat): nat { if pos < |ts| && ts[pos].TBin? then Left(ts[pos].op) else 0 }

  /** The grouping the priorities ask for: every operator of the tree, outside
      parentheses, binds tighter than `limit` on its left edge, and its right
      operand keeps what stands before a following operator of priority `next`. */
  predicate Grouped(t: Tree, limit: nat, next: nat) {
    match t
    case Atom(_) => true
    case Paren(e) => Grouped(e, 0, 0)
    case Unary(_, e) => next <= UNARY_PRIORITY && Grouped(e, UNARY_PRIORITY, next)
    case Binary(op, l, r) => Left(op) > limit && next <= Right(op) && Grouped(l, limit, Left(op)) && Grouped(r, Right(op), next)
  }

  /** The syntax levels a tree takes: one for each operand to the right of an
      operator, and for each unary operator and pair of parentheses. */
  function Levels(t: Tree): nat {
    match t
    case Atom(_) => 1
    case Paren(e) => 1 + Levels(e)
    case Unary(_, e) => 1 + Levels(e)
    case Binary(_, l, r) => if Levels(l) > 1 + Levels(r) then Levels(l) else 1 + Levels(r)
  }

  // -- The parser as a function --------------------------------------------------------

  function BinopFrom(ts: seq<Token>, pos: nat, limit: nat, level: int): (r: Result)
    requires pos <= |ts|
    ensures r.Parsed? ==> pos < r.pos <= |ts|
    decreases |ts| - pos, 2
  {
    if level + 1 >= LJ_MAX_XLEVEL then TooDeep
    else
      match UnopFrom(ts, pos, level + 1)
      case Parsed(v, p) => Climb(ts, p, v, limit, level + 1)
      case e => e
  }

  /** The operators that bind tighter than the limit, one after the other. */
  function Climb(ts: seq<Token>, pos: nat, v: Tree, limit: nat, level: int): (r: Result)
    requires pos <= |ts|
    ensures r.Parsed? ==> pos <= r.pos <= |ts|
    decreases |ts| - pos, 0
  {
    if Next(ts, pos) > limit then
      var op := ts[pos].op;
      match BinopFrom(ts, pos + 1, Right(op), level)
      case Parsed(v2, p) => Climb(ts, p, Binary(op, v, v2), limit, level)
      case e => e
    else Parsed(v, pos)
  }

  function UnopFrom(ts: seq<Token>, pos: nat, level: int): (r: Result)
    requires pos <= |ts|
    ensures r.Parsed? ==> pos < r.pos <= |ts|
    decreases |ts| - pos, 1
  {
    if pos == |ts| then Unexpected
    else if UnaryOf(ts[pos]).Some? then
      match BinopFrom(ts, pos + 1, UNARY_PRIORITY, level)
      case Parsed(e, p) => Parsed(Unary(UnaryOf(ts[pos]).value, e), p)
      case e => e
    else if ts[pos].TOpen? then
      match BinopFrom(ts, pos + 1, 0, level)
      case Parsed(e, p) => if p < |ts| && ts[p].TClose? then Parsed(Paren(e), p + 1) else Unexpected
      case e => e
    else if ts[pos].TAtom? then Parsed(Atom(ts[pos].n), pos + 1)
    else Unexpected
  }

  // -- How operators group ---------------------------------------------------------------

  /** The binary operators by class, the loosest first: the order of section 3.4.8
      of the Lua 5.3 Reference Manual, with `??` beside `or` and `>>>` beside the
      other shifts. Unary operators stand before the last class. */
  function Classes(): seq<seq<BinOp>> {
    [[Or, Coal], [And], [Ne, Eq, Lt, Ge, Le, Gt], [BOr], [BXor], [BAnd], [BShl, BShr, BSar], [Concat], [Add, Sub], [Mul, Div, Mod], [Pow]]
  }

  predicate InClass(op: BinOp, i: int) { 0 <= i < |Classes()| && op in Classes()[i] }

  predicate RightToLeft(op: BinOp) { op == Concat || op == Pow }

  lemma ClassNumbers(op: BinOp, i: int)
    requires InClass(op, i)
    ensures Left(op) == (if i <= 6 then i + 1 else if i <= 9 then i + 2 else 14) && Right(op) == if RightToLeft(op) then Left(op) - 1 else Left(op)
    ensures RightToLeft(op) <==> i == 7 || i == 10
  {
    assert op in Classes()[i];
  }

  lemma EveryClass(op: BinOp) returns (i: int)
    ensures InClass(op, i)
  {
    i := match op
      case Or => 0 case Coal => 0 case And => 1 case Ne => 2 case Eq => 2 case Lt => 2 case Ge => 2 case Le => 2 case Gt => 2
      case BOr => 3 case BXor => 4 case BAnd => 5 case BShl => 6 case BShr => 6 case BSar => 6 case Concat => 7
      case Add => 8 case Sub => 8 case Mul => 9 case Div => 9 case Mod => 9 case Pow => 10;
    assert op in Classes()[i];
  }

  /** Of two operators in a row the one of the later class takes the operand
      between them; within a class the left one does, but for powers and
      concatenations. */
  lemma TwoOperators(a: BinOp, b: BinOp, i: int, j: int, x: nat, y: nat, z: nat)
    requires InClass(a, i) && InClass(b, j)
    ensures BinopFrom([TAtom(x), TBin(a), TAtom(y), TBin(b), TAtom(z)], 0, 0, 0) ==
      Parsed(if i < j || (i == j && RightToLeft(a)) then Binary(a, Atom(x), Binary(b, Atom(y), Atom(z))) else Binary(b, Binary(a, Atom(x), Atom(y)), Atom(z)), 5)
  {
    ClassNumbers(a, i);
    ClassNumbers(b, j);
    hide Left, Right, Classes, BinopFrom;
    TwoGroup(a, b, x, y, z);
  }

  lemma TwoGroup(a: BinOp, b: BinOp, x: nat, y: nat, z: nat)
    requires Left(a) > 0 && Left(b) > 0
    ensures BinopFrom([TAtom(x), TBin(a), TAtom(y), TBin(b), TAtom(z)], 0, 0, 0) ==
      Parsed(if Left(b) > Right(a) then Binary(a, Atom(x), Binary(b, Atom(y), Atom(z))) else Binary(b, Binary(a, Atom(x), Atom(y)), Atom(z)), 5)
  {
    hide Left, Right, BinopFrom, Climb;
    var ts := [TAtom(x), TBin(a), TAtom(y), TBin(b), TAtom(z)];
    BinopAtom(ts, 0, 0, 0);
    BinopAtom(ts, 2, Right(a), 1);
    BinopAtom(ts, 4, Right(b), 1);
    BinopAtom(ts, 4, Right(b), 2);
    ClimbStop(ts, 5, Atom(z), Right(b), 2);
    ClimbStop(ts, 5, Atom(z), Right(b), 3);
    if Left(b) > Right(a) {
      ClimbStep(ts, 3, Atom(y), Right(a), 2, Atom(z), 5);
      ClimbStop(ts, 5, Binary(b, Atom(y), Atom(z)), Right(a), 2);
      ClimbStep(ts, 1, Atom(x), 0, 1, Binary(b, Atom(y), Atom(z)), 5);
      ClimbStop(ts, 5, Binary(a, Atom(x), Binary(b, Atom(y), Atom(z))), 0, 1);
    } else {
      ClimbStop(ts, 3, Atom(y), Right(a), 2);
      ClimbStep(ts, 1, Atom(x), 0, 1, Atom(y), 3);
      ClimbStep(ts, 3, Binary(a, Atom(x), Atom(y)), 0, 1, Atom(z), 5);
      ClimbStop(ts, 5, Binary(b, Binary(a, Atom(x), Atom(y)), Atom(z)), 0, 1);
    }
  }

  lemma BinopAtom(ts: seq<Token>, pos: nat, limit: nat, level: int)
    requires pos < |ts| && ts[pos].TAtom? && level + 1 < LJ_MAX_XLEVEL
    ensures BinopFrom(ts, pos, limit, level) == Climb(ts, pos + 1, Atom(ts[pos].n), limit, level + 1)
  {
  }

  lemma ClimbStop(ts: seq<Token>, pos: nat, v: Tree, limit: nat, level: int)
    requires pos <= |ts| && Next(ts, pos) <= limit
    ensures Climb(ts, pos, v, limit, level) == Parsed(v, pos)
  {
  }

  lemma ClimbStep(ts: seq<Token>, pos: nat, v: Tree, limit: nat, level: int, v2: Tree, p: nat)
    requires pos < |ts| && Next(ts, pos) > limit && BinopFrom(ts, pos + 1, Right(ts[pos].op), level) == Parsed(v2, p)
    ensures Climb(ts, pos, v, limit, level) == Climb(ts, p, Binary(ts[pos].op, v, v2), limit, level)
  {
  }

  /** A unary operator takes what follows up to the next binary one, unless that
      is a power. */
  lemma UnaryOperator(u: UnOp, b: BinOp, x: nat, y: nat)
    ensures BinopFrom([UnaryToken(u), TAtom(x), TBin(b), TAtom(y)], 0, 0, 0) ==
      Parsed(if b == Pow then Unary(u, Binary(b, Atom(x), Atom(y))) else Binary(b, Unary(u, Atom(x)), Atom(y)), 4)
  {
    var ts := [UnaryToken(u), TAtom(x), TBin(b), TAtom(y)];
    assert UnaryOf(ts[0]) == Some(u);
    var i := EveryClass(b);
    ClassNumbers(b, i);
    BinopAtom(ts, 1, UNARY_PRIORITY, 1);
    BinopAtom(ts, 3, Right(b), 1);
    BinopAtom(ts, 3, Right(b), 2);
    ClimbStop(ts, 4, Atom(y), Right(b), 2);
    ClimbStop(ts, 4, Atom(y), Right(b), 3);
    assert Left(b) > UNARY_PRIORITY <==> b == Pow;
    if b == Pow {
      var r := Binary(b, Atom(x), Atom(y));
      ClimbStep(ts, 2, Atom(x), UNARY_PRIORITY, 2, Atom(y), 4);
      ClimbStop(ts, 4, r, UNARY_PRIORITY, 2);
      assert UnopFrom(ts, 0, 1) == Parsed(Unary(u, r), 4);
      ClimbStop(ts, 4, Unary(u, r), 0, 1);
    } else {
      ClimbStop(ts, 2, Atom(x), UNARY_PRIORITY, 2);
      assert UnopFrom(ts, 0, 1) == Parsed(Unary(u, Atom(x)), 2);
      ClimbStep(ts, 2, Unary(u, Atom(x)), 0, 1, Atom(y), 4);
      ClimbStop(ts, 4, Binary(b, Unary(u, Atom(x)), Atom(y)), 0, 1);
    }
  }

  // -- What is parsed is grouped ----------------------------------------------------------

  ghost predicate Covers(ts: seq<Token>, pos: nat, t: Tree, p: nat) { pos <= p <= |ts| && ts[pos..p] == Flat(t) }

  lemma CoversAtom(ts: seq<Token>, pos: nat)
    requires pos < |ts| && ts[pos].TAtom?
    ensures Covers(ts, pos, Atom(ts[pos].n), pos + 1)
  {
  }

  lemma CoversUnary(ts: seq<Token>, pos: nat, u: UnOp, e: Tree, p: nat)
    requires pos < |ts| && ts[pos] == UnaryToken(u) && Covers(ts, pos + 1, e, p)
    ensures Covers(ts, pos, Unary(u, e), p)
  {
    assert ts[pos..p] == [ts[pos]] + ts[pos + 1..p];
  }

  lemma CoversParen(ts: seq<Token>, pos: nat, e: Tree, p: nat)
    requires pos < |ts| && ts[pos] == TOpen && Covers(ts, pos + 1, e, p) && p < |ts| && ts[p] == TClose
    ensures Covers(ts, pos, Paren(e), p + 1)
  {
    assert ts[pos..p + 1] == [ts[pos]] + ts[pos + 1..p] + [ts[p]];
  }

  lemma CoversBinary(ts: seq<Token>, pos: nat, l: Tree, m: nat, op: BinOp, r: Tree, p: nat)
    requires Covers(ts, pos, l, m) && m < |ts| && ts[m] == TBin(op) && Covers(ts, m + 1, r, p)
    ensures Covers(ts, pos, Binary(op, l, r), p)
  {
    assert ts[pos..p] == ts[pos..m] + ([ts[m]] + ts[m + 1..p]);
  }

  /** A tree that was parsed: its tokens are those read, they stop before an
      operator that does not bind tighter than the limit, and the tree is the
      grouping the priorities ask for. */
  ghost predicate Sound(ts: seq<Token>, pos: nat, limit: nat, level: int, t: Tree, p: nat) {
    Covers(ts, pos, t, p) && Next(ts, p) <= limit && Grouped(t, limit, Next(ts, p)) && level + Levels(t) < LJ_MAX_XLEVEL
  }

  lemma {:induction false} BinopSound(ts: seq<Token>, pos: nat, limit: nat, level: int)
    requires pos <= |ts|
    ensures var r := BinopFrom(ts, pos, limit, level);
      r.Parsed? ==> Sound(ts, pos, limit, level, r.t, r.pos)
    decreases |ts| - pos, 2
  {
    if BinopFrom(ts, pos, limit, level).Parsed? {
      UnopSound(ts, pos, limit, level + 1);
      var v := UnopFrom(ts, pos, level + 1);
      ClimbSound(ts, pos, v.pos, v.t, limit, level + 1);
    }
  }

  lemma {:induction false} UnopSound(ts: seq<Token>, pos: nat, limit: nat, level: int)
    requires pos <= |ts| && level < LJ_MAX_XLEVEL
    ensures var r := UnopFrom(ts, pos, level);
      r.Parsed? ==> Covers(ts, pos, r.t, r.pos) && Grouped(r.t, limit, Next(ts, r.pos)) && level - 1 + Levels(r.t) < LJ_MAX_XLEVEL
    decreases |ts| - pos, 1
  {
    hide BinopFrom, Flat, Covers;
    var r := UnopFrom(ts, pos, level);
    if r.Parsed? {
      if UnaryOf(ts[pos]).Some? {
        BinopSound(ts, pos + 1, UNARY_PRIORITY, level);
        CoversUnary(ts, pos, r.t.u, r.t.t, r.pos);
      } else if ts[pos].TOpen? {
        BinopSound(ts, pos + 1, 0, level);
        CoversParen(ts, pos, r.t.t, r.pos - 1);
      } else {
        CoversAtom(ts, pos);
      }
    }
  }

  lemma {:induction false} ClimbSound(ts: seq<Token>, pos: nat, m: nat, v: Tree, limit: nat, level: int)
    requires Covers(ts, pos, v, m) && Grouped(v, limit, Next(ts, m)) && level - 1 + Levels(v) < LJ_MAX_XLEVEL
    ensures var r := Climb(ts, m, v, limit, level);
      r.Parsed? ==> Sound(ts, pos, limit, level - 1, r.t, r.pos)
    decreases |ts| - m, 0
  {
    hide BinopFrom, Flat, Covers;
    assert m <= |ts| by { CoversEnds(ts, pos, v, m); }
    if Next(ts, m) > limit {
      var op := ts[m].op;
      BinopSound(ts, m + 1, Right(op), level);
      var w := BinopFrom(ts, m + 1, Right(op), level);
      if w.Parsed? {
        CoversBinary(ts, pos, v, m, op, w.t, w.pos);
        ClimbSound(ts, pos, w.pos, Binary(op, v, w.t), limit, level);
      }
    }
  }

  lemma CoversEnds(ts: seq<Token>, pos: nat, t: Tree, p: nat)
    requires Covers(ts, pos, t, p)
    ensures pos < p <= |ts|
  {
  }

  // -- What is grouped is parsed ------------------------------------------------------------

  lemma UnaryCovers(ts: seq<Token>, pos: nat, t: Tree, p: nat)
    requires Covers(ts, pos, t, p) && t.Unary?
    ensures pos + 1 < p <= |ts| && ts[pos] == UnaryToken(t.u) && Covers(ts, pos + 1, t.t, p)
  {
    var f := ts[pos..p];
    assert f == [UnaryToken(t.u)] + Flat(t.t);
    assert f[0] == ts[pos] && f[1..] == ts[pos + 1..p] && f[1..] == Flat(t.t);
  }

  lemma ParenCovers(ts: seq<Token>, pos: nat, t: Tree, p: nat)
    requires Covers(ts, pos, t, p) && t.Paren?
    ensures pos + 2 < p <= |ts| && ts[pos] == TOpen && ts[p - 1] == TClose && Covers(ts, pos + 1, t.t, p - 1)
  {
    var f, e := ts[pos..p], Flat(t.t);
    assert f == [TOpen] + e + [TClose];
    assert |f| == p - pos == |e| + 2;
    assert f[0] == ts[pos];
    assert f[|e| + 1] == ts[pos + (|e| + 1)] && f[|e| + 1] == TClose;
    var g := ts[pos + 1..p - 1];
    assert |g| == |e| && forall i {:trigger g[i]} :: 0 <= i < |e| ==> g[i] == f[i + 1] && f[i + 1] == e[i];
    assert g == e;
  }

  lemma BinaryCovers(ts: seq<Token>, pos: nat, t: Tree, p: nat)
    requires Covers(ts, pos, t, p) && t.Binary?
    ensures var m := pos + |Flat(t.l)|;
      pos < m < p <= |ts| && ts[m] == TBin(t.op) && Covers(ts, pos, t.l, m) && Covers(ts, m + 1, t.r, p)
  {
    var f, k := ts[pos..p], |Flat(t.l)|;
    assert f == Flat(t.l) + ([TBin(t.op)] + Flat(t.r));
    assert f[..k] == ts[pos..pos + k] && f[..k] == Flat(t.l);
    assert f[k] == ts[pos + k] == TBin(t.op);
    assert f[k + 1..] == ts[pos + k + 1..p] && f[k + 1..] == Flat(t.r);
  }

  /** A grouped tree's tokens, before an operator of priority `next`: the tree is
      what the loop over the operators has in hand when it gets there. */
  lemma {:induction false} Climbs(ts: seq<Token>, pos: nat, t: Tree, p: nat, limit: nat, level: int)
    requires Covers(ts, pos, t, p) && Grouped(t, limit, Next(ts, p))
    ensures pos < p <= |ts| && InHand(ts, pos, t, p, limit, level)
    decreases t
  {
    match t
    case Atom(_) =>
      assert ts[pos] == ts[pos..p][0] && p == pos + |ts[pos..p]|;
      OwnLevel(ts, pos, limit, level);
    case Paren(e) =>
      ParenCovers(ts, pos, t, p);
      Climbs(ts, pos + 1, e, p - 1, 0, level + 1);
      ClimbsParen(ts, pos, e, p, limit, level);
    case Unary(_, e) =>
      UnaryCovers(ts, pos, t, p);
      Climbs(ts, pos + 1, e, p, UNARY_PRIORITY, level + 1);
      ClimbsUnary(ts, pos, t, p, limit, level);
    case Binary(op, l, r) =>
      hide Flat;
      BinaryCovers(ts, pos, t, p);
      var m := pos + |Flat(l)|;
      Climbs(ts, pos, l, m, limit, level);
      Climbs(ts, m + 1, r, p, Right(op), level + 1);
      ClimbsBinary(ts, pos, t, m, p, limit, level);
  }

  /** What is in hand after a tree's tokens, or that they are nested too deep. */
  predicate InHand(ts: seq<Token>, pos: nat, t: Tree, p: nat, limit: nat, level: int)
    requires pos <= p <= |ts|
  { BinopFrom(ts, pos, limit, level) == if level + Levels(t) < LJ_MAX_XLEVEL then Climb(ts, p, t, limit, level + 1) else TooDeep }

  lemma ClimbsParen(ts: seq<Token>, pos: nat, e: Tree, p: nat, limit: nat, level: int)
    requires pos + 1 < p <= |ts| && ts[pos] == TOpen && ts[p - 1] == TClose && InHand(ts, pos + 1, e, p - 1, 0, level + 1)
    ensures InHand(ts, pos, Paren(e), p, limit, level)
  {
    assert Climb(ts, p - 1, e, 0, level + 2) == Parsed(e, p - 1);
    hide BinopFrom, Climb;
    OwnLevel(ts, pos, limit, level);
    Positive(e);
  }

  lemma ClimbsUnary(ts: seq<Token>, pos: nat, t: Tree, p: nat, limit: nat, level: int)
    requires t.Unary? && pos < p <= |ts| && ts[pos] == UnaryToken(t.u) && Next(ts, p) <= UNARY_PRIORITY && InHand(ts, pos + 1, t.t, p, UNARY_PRIORITY, level + 1)
    ensures InHand(ts, pos, t, p, limit, level)
  {
    assert Climb(ts, p, t.t, UNARY_PRIORITY, level + 2) == Parsed(t.t, p);
    hide BinopFrom, Climb;
    OwnLevel(ts, pos, limit, level);
    Positive(t.t);
  }

  lemma ClimbsBinary(ts: seq<Token>, pos: nat, t: Tree, m: nat, p: nat, limit: nat, level: int)
    requires t.Binary? && pos < m < p <= |ts| && ts[m] == TBin(t.op) && Left(t.op) > limit && Next(ts, p) <= Right(t.op)
    requires InHand(ts, pos, t.l, m, limit, level) && InHand(ts, m + 1, t.r, p, Right(t.op), level + 1)
    ensures InHand(ts, pos, t, p, limit, level)
  {
    assert Climb(ts, p, t.r, Right(t.op), level + 2) == Parsed(t.r, p);
    assert Next(ts, m) == Left(t.op);
    hide BinopFrom, Left, Right;
  }

  lemma OwnLevel(ts: seq<Token>, pos: nat, limit: nat, level: int)
    requires pos <= |ts|
    ensures BinopFrom(ts, pos, limit, level) ==
      if level + 1 >= LJ_MAX_XLEVEL then TooDeep
      else match UnopFrom(ts, pos, level + 1) case Parsed(v, p) => Climb(ts, p, v, limit, level + 1) case e => e
  {
  }

  lemma {:induction false} Positive(t: Tree)
    ensures Levels(t) >= 1
  {
  }

  /** An expression: all the tokens, at a given syntax level. */
  predicate Parses(ts: seq<Token>, level: int, t: Tree) { BinopFrom(ts, 0, 0, level) == Parsed(t, |ts|) }

  /** A tree's tokens parse back into it if and only if it is grouped as the
      priorities ask, and not nested too deep. */
  lemma ParsesBack(t: Tree, level: int)
    ensures Parses(Flat(t), level, t) <==> Grouped(t, 0, 0) && level + Levels(t) < LJ_MAX_XLEVEL
    ensures Grouped(t, 0, 0) && level + Levels(t) >= LJ_MAX_XLEVEL ==> BinopFrom(Flat(t), 0, 0, level) == TooDeep
  {
    var ts := Flat(t);
    assert ts[0..|ts|] == ts;
    assert Covers(ts, 0, t, |ts|);
    hide Flat, Grouped, BinopFrom;
    BinopSound(ts, 0, 0, level);
    if Grouped(t, 0, 0) { Climbs(ts, 0, t, |ts|, 0, level); }
  }

  /** A row of tokens is the text of at most one grouped tree. */
  lemma OneGrouping(t: Tree, t2: Tree)
    requires Flat(t) == Flat(t2) && Grouped(t, 0, 0) && Grouped(t2, 0, 0)
    ensures t == t2
  {
    var level: int := -(Levels(t) as int) - Levels(t2) as int;
    hide Flat, Grouped, BinopFrom, Levels;
    ParsesBack(t, level);
    ParsesBack(t2, level);
  }

  // -- The fewest parentheses -----------------------------------------------------------------

  /** The tree without its parentheses. */
  function Bare(t: Tree): Tree {
    match t
    case Atom(_) => t
    case Paren(e) => Bare(e)
    case Unary(u, e) => Unary(u, Bare(e))
    case Binary(op, l, r) => Binary(op, Bare(l), Bare(r))
  }

  predicate IsBare(t: Tree) {
    match t
    case Atom(_) => true
    case Paren(_) => false
    case Unary(_, e) => IsBare(e)
    case Binary(_, l, r) => IsBare(l) && IsBare(r)
  }

  /** The operator at the root can stand between the limit and the next operator. */
  predicate Stands(t: Tree, limit: nat, next: nat) {
    match t
    case Unary(_, _) => next <= UNARY_PRIORITY
    case Binary(op, _, _) => Left(op) > limit && next <= Right(op)
    case _ => true
  }

  /** A tree with parentheses where an operator could not stand without them. */
  function Printed(t: Tree, limit: nat, next: nat): Tree
    requires IsBare(t)
    decreases t, 1
  { if Stands(t, limit, next) then Inside(t, limit, next) else Paren(Inside(t, 0, 0)) }

  function Inside(t: Tree, limit: nat, next: nat): Tree
    requires IsBare(t)
    decreases t, 0
  {
    match t
    case Atom(_) => t
    case Unary(u, e) => Unary(u, Printed(e, UNARY_PRIORITY, next))
    case Binary(op, l, r) => Binary(op, Printed(l, limit, Left(op)), Printed(r, Right(op), next))
  }

  function Parens(t: Tree): nat {
    match t
    case Atom(_) => 0
    case Paren(e) => 1 + Parens(e)
    case Unary(_, e) => Parens(e)
    case Binary(_, l, r) => Parens(l) + Parens(r)
  }

  /** No token, or a binary operator. */
  predicate IsPriority(n: nat) { n == 0 || exists op: BinOp :: n == Left(op) }

  lemma PriorityGap(n: nat)
    requires IsPriority(n) && n <= 13
    ensures n <= UNARY_PRIORITY
  {
  }

  lemma {:induction false} PrintedGroups(t: Tree, limit: nat, next: nat)
    requires IsBare(t)
    ensures Grouped(Printed(t, limit, next), limit, next) && Bare(Printed(t, limit, next)) == t
    decreases t, if Stands(t, limit, next) then 0 else 1
  {
    if !Stands(t, limit, next) {
      PrintedGroups(t, 0, 0);
    } else {
      match t
      case Atom(_) =>
      case Unary(u, e) =>
        PrintedGroups(e, UNARY_PRIORITY, next);
        assert Printed(t, limit, next) == Unary(u, Printed(e, UNARY_PRIORITY, next));
      case Binary(op, l, r) =>
        PrintedGroups(l, limit, Left(op));
        PrintedGroups(r, Right(op), next);
        assert Printed(t, limit, next) == Binary(op, Printed(l, limit, Left(op)), Printed(r, Right(op), next));
    }
  }

  /** Before an operator that binds tighter than the limit, the limit is not what
      asks for parentheses. */
  lemma {:induction false} LimitIdle(t: Tree, limit: nat, next: nat)
    requires IsBare(t) && limit < next
    ensures Printed(t, limit, next) == Printed(t, 0, next)
  {
    match t
    case Binary(op, l, r) => if Left(op) > limit { LimitIdle(l, limit, Left(op)); }
    case _ =>
  }

  /** Behind an operator whose right operand ends before the next one, the next
      is not what asks for parentheses. */
  lemma {:induction false} NextIdle(t: Tree, limit: nat, next: nat)
    requires IsBare(t) && next <= limit <= 13 && IsPriority(next)
    ensures Printed(t, limit, next) == Printed(t, limit, 0)
  {
    PriorityGap(next);
    match t
    case Unary(_, e) => NextIdle(e, UNARY_PRIORITY, next);
    case Binary(op, l, r) => if Left(op) > limit { NextIdle(r, Right(op), next); }
    case _ =>
  }

  /** Where an operator stands without parentheses, its context asks for none
      inside. */
  lemma ContextIdle(t: Tree, limit: nat, next: nat)
    requires IsBare(t) && Stands(t, limit, next) && IsPriority(next)
    ensures Inside(t, limit, next) == Inside(t, 0, 0)
  {
    match t
    case Unary(_, e) => NextIdle(e, UNARY_PRIORITY, next);
    case Binary(op, l, r) =>
      LimitIdle(l, limit, Left(op));
      NextIdle(r, Right(op), next);
    case _ =>
  }

  lemma {:induction false} FewestIn(t: Tree, limit: nat, next: nat)
    requires Grouped(t, limit, next) && IsPriority(next)
    ensures IsBare(Bare(t)) && Parens(Printed(Bare(t), limit, next)) <= Parens(t)
  {
    match t
    case Atom(_) =>
    case Paren(e) =>
      FewestIn(e, 0, 0);
      if Stands(Bare(t), limit, next) { ContextIdle(Bare(t), limit, next); }
    case Unary(_, e) => FewestIn(e, UNARY_PRIORITY, next);
    case Binary(op, l, r) =>
      FewestIn(l, limit, Left(op));
      FewestIn(r, Right(op), next);
  }

  /** Printing with parentheses only where the priorities would regroup: the text
      parses back into the same operators and operands, and any text that does
      has at least as many parentheses. */
  lemma PrintParse(t: Tree, level: int)
    requires IsBare(t)
    ensures var p := Printed(t, 0, 0);
      && Bare(p) == t && (Parses(Flat(p), level, p) <==> level + Levels(p) < LJ_MAX_XLEVEL)
      && forall p2 :: Parses(Flat(p2), level, p2) && Bare(p2) == t ==> Parens(p) <= Parens(p2)
  {
    hide Flat, Printed, BinopFrom, Levels;
    var p := Printed(t, 0, 0);
    PrintedGroups(t, 0, 0);
    ParsesBack(p, level);
    forall p2 | Parses(Flat(p2), level, p2) && Bare(p2) == t
      ensures Parens(p) <= Parens(p2)
    {
      ParsesBack(p2, level);
      FewestIn(p2, 0, 0);
    }
  }

  // -- The parser -------------------------------------------------------------------------------

  /** What a parsing method gives back: a tree, or the reason it stopped. */
  datatype Got = Built(t: Tree) | Fails(e: Result)

  class Parser {
    const toks: seq<Token>
    var pos: nat
    var level: int

    ghost predicate Valid()
      reads this
    { pos <= |toks| }

    constructor (toks: seq<Token>, level: int)
      ensures Valid() && this.toks == toks && pos == 0 && this.level == level
    {
      this.toks, pos, this.level := toks, 0, level;
    }

    /** The result of a method is that of the function, and where it ends. */
    ghost predicate Is(g: Got, r: Result)
      reads this
    { if r.Parsed? then g == Built(r.t) && pos == r.pos else g == Fails(r) }

    method Token2Binop() returns (op: Option<BinOp>)
      requires Valid()
      ensures op == if pos < |toks| && toks[pos].TBin? then Some(toks[pos].op) else None
    {
      op := if pos < |toks| && toks[pos].TBin? then Some(toks[pos].op) else None;
    }

    method ExprSimple() returns (g: Got)
      requires Valid() && (pos < |toks| ==> UnaryOf(toks[pos]).None?)
      modifies this
      ensures Valid() && Is(g, UnopFrom(toks, old(pos), old(level))) && (g.Built? ==> level == old(level))
      decreases |toks| - pos, 0
    {
      if pos < |toks| && toks[pos].TOpen? {
        pos := pos + 1;
        var e := Expr();
        if e.Fails? { return e; }
        if pos == |toks| || toks[pos] != TClose { return Fails(Unexpected); }
        pos := pos + 1;
        g := Built(Paren(e.t));
      } else if pos < |toks| && toks[pos].TAtom? {
        g := Built(Atom(toks[pos].n));
        pos := pos + 1;
      } else {
        g := Fails(Unexpected);
      }
    }

    method ExprUnop() returns (g: Got)
      requires Valid()
      modifies this
      ensures Valid() && Is(g, UnopFrom(toks, old(pos), old(level))) && (g.Built? ==> level == old(level))
      decreases |toks| - pos, 1
    {
      var u: UnOp;
      if pos < |toks| && toks[pos] == TNot {
        u := Not;
      } else if pos < |toks| && toks[pos] == TBin(Sub) {
        u := Unm;
      } else if pos < |toks| && toks[pos] == THash {
        u := Len;
      } else if pos < |toks| && toks[pos] == TBin(BXor) {
        u := BNot;
      } else {
        g := ExprSimple();
        return;
      }
      pos := pos + 1;
      var e, _ := ExprBinop(UNARY_PRIORITY);
      if e.Fails? { return e; }
      g := Built(Unary(u, e.t));
    }

    /** The tree, and the operator that stands behind it. */
    method ExprBinop(limit: nat) returns (g: Got, opr: Option<BinOp>)
      requires Valid()
      modifies this
      ensures Valid() && Is(g, BinopFrom(toks, old(pos), limit, old(level)))
      ensures g.Built? ==> level == old(level) && opr == if pos < |toks| && toks[pos].TBin? then Some(toks[pos].op) else None
      decreases |toks| - pos, 2
    {
      hide UnopFrom;
      level, opr := level + 1, None;
      if level >= LJ_MAX_XLEVEL { return Fails(TooDeep), None; }
      var v := ExprUnop();
      if v.Fails? { return v, None; }
      var t := v.t;
      opr := Token2Binop();
      while opr.Some? && Left(opr.value) > limit
        invariant Valid() && old(pos) < pos && level == old(level) + 1
        invariant opr == if pos < |toks| && toks[pos].TBin? then Some(toks[pos].op) else None
        invariant BinopFrom(toks, old(pos), limit, old(level)) == Climb(toks, pos, t, limit, level)
        decreases |toks| - pos
      {
        var op := opr.value;
        pos := pos + 1;
        var v2, nextop := ExprBinop(Right(op));
        if v2.Fails? { return v2, None; }
        t, opr := Binary(op, t, v2.t), nextop;
      }
      level := level - 1;
      g := Built(t);
    }

    method Expr() returns (g: Got)
      requires Valid()
      modifies this
      ensures Valid() && Is(g, BinopFrom(toks, old(pos), 0, old(level))) && (g.Built? ==> level == old(level))
      decreases |toks| - pos, 3
    {
      var e, _ := ExprBinop(0);
      g := e;
    }
  }

  /** Printing and parsing: the same tree comes back unless it is nested too deep. */
  method Reparse(t: Tree, level: int) returns (g: Got)
    requires IsBare(t)
    ensures var p := Printed(t, 0, 0);
      g == if level + Levels(p) < LJ_MAX_XLEVEL then Built(p) else Fails(TooDeep)
    ensures g.Built? ==> Bare(g.t) == t
  {
    PrintParse(t, level);
    PrintedGroups(t, 0, 0);
    ParsesBack(Printed(t, 0, 0), level);
    var parser := new Parser(Flat(Printed(t, 0, 0)), level);
    g := parser.Expr();
  }
}
