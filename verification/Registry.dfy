/** The registry of compiled traces: root traces, the side traces below them,
    and the exits that lead from one to the other. */
module Registry {
  import opened Bytecode

  const SNAPCOUNT_DONE := 255

  /** Start instructions of root traces. */
  predicate RootOp(op: int) { op == FORL || op == ITERL || op == LOOP || op == FUNCF }

  /** A snapshot as an exit: how often it was taken, and its side trace. */
  datatype Exit = Exit(count: int, sidetrace: int)

  /** A trace: where it starts, the instruction there, the root trace it belongs
      to (0 for a root trace), the exit it continues, its children and exits, and
      the root trace its end goes on in (0 if there is none). */
  datatype Trace = Trace(start: int, startins: Ins, root: int, parent: int, exitno: int, nchild: int, snap: seq<Exit>, link: int)
  datatype Slot = Free | Used(t: Trace)

  predicate Live(r: seq<Slot>, i: int) { 0 < i < |r| && r[i].Used? }

  function RootOf(r: seq<Slot>, i: int): int
    requires Live(r, i)
  { if r[i].t.root == 0 then i else r[i].t.root }

  function Sum(r: seq<Slot>, f: Slot -> int): int {
    if r == [] then 0 else Sum(r[..|r| - 1], f) + f(r[|r| - 1])
  }

  lemma {:induction false} SumUpdate(r: seq<Slot>, i: int, x: Slot, f: Slot -> int)
    requires 0 <= i < |r|
    ensures Sum(r[i := x], f) == Sum(r, f) - f(r[i]) + f(x)
  {
    var n := |r| - 1;
    if i < n {
      SumUpdate(r[..n], i, x, f);
      assert r[i := x][..n] == r[..n][i := x];
    } else {
      assert r[i := x][..n] == r[..n];
    }
  }

  /** Side traces of root `k`. */
  function KidOf(k: int): Slot -> int { (s: Slot) => if s.Used? && s.t.root == k then 1 else 0 }
  function SideOf(): Slot -> int { (s: Slot) => if s.Used? && s.t.root != 0 then 1 else 0 }
  function ExitsOf(): Slot -> int { (s: Slot) => if s.Used? then LinkedIn(s.t.snap) else 0 }

  function LinkedIn(snap: seq<Exit>): int {
    if snap == [] then 0 else LinkedIn(snap[..|snap| - 1]) + if snap[|snap| - 1].sidetrace != 0 then 1 else 0
  }

  lemma {:induction false} LinkedUpdate(snap: seq<Exit>, x: int, e: Exit)
    requires 0 <= x < |snap|
    ensures LinkedIn(snap[x := e]) == LinkedIn(snap) - (if snap[x].sidetrace != 0 then 1 else 0) + (if e.sidetrace != 0 then 1 else 0)
  {
    var n := |snap| - 1;
    if x < n {
      LinkedUpdate(snap[..n], x, e);
      assert snap[x := e][..n] == snap[..n][x := e];
    } else {
      assert snap[x := e][..n] == snap[..n];
    }
  }

  // -- Trees of traces -------------------------------------------------------------

  /** An exit is open, or leads to the side trace that continues it; its
      counter is then done. */
  predicate ExitOk(r: seq<Slot>, i: int, x: int)
    requires Live(r, i) && 0 <= x < |r[i].t.snap|
  {
    var e := r[i].t.snap[x];
    && 0 <= e.count <= SNAPCOUNT_DONE
    && (e.sidetrace != 0 ==> e.count == SNAPCOUNT_DONE && Live(r, e.sidetrace) && r[e.sidetrace].t.root != 0 && r[e.sidetrace].t.parent == i && r[e.sidetrace].t.exitno == x)
  }

  /** A root trace counts its side traces. A side trace continues an exit of an
      older trace of the same tree. */
  ghost predicate TraceOk(r: seq<Slot>, maxside: int, i: int)
    requires Live(r, i)
  {
    var t := r[i].t;
    && t.snap != [] && (forall x {:trigger ExitOk(r, i, x)} :: 0 <= x < |t.snap| ==> ExitOk(r, i, x))
    && if t.root == 0 then RootOp(t.startins.op) && t.parent == 0 && t.nchild == Sum(r, KidOf(i)) && 0 <= t.nchild <= maxside
       else
         && Live(r, t.root) && r[t.root].t.root == 0 && Live(r, t.parent) && t.parent < i && RootOf(r, t.parent) == t.root && t.startins.op == JMP
         && 0 <= t.exitno < |r[t.parent].t.snap| && r[t.parent].t.snap[t.exitno].sidetrace == i
  }

  /** The registry: traces fill it from 1 on, root traces start at different
      instructions, and as many exits are linked as there are side traces. */
  ghost predicate TreeOk(r: seq<Slot>, maxside: int) {
    && r != [] && r[0].Free?
    && (forall i, j :: 0 < i < j < |r| && r[j].Used? ==> r[i].Used?)
    && (forall i {:trigger TraceOk(r, maxside, i)} :: Live(r, i) ==> TraceOk(r, maxside, i))
    && (forall i, j :: Live(r, i) && Live(r, j) && i != j && r[i].t.root == 0 && r[j].t.root == 0 ==> r[i].t.start != r[j].t.start)
    && Sum(r, SideOf()) == Sum(r, ExitsOf())
  }

  /** The next number a trace gets: the first free slot. */
  predicate IsNext(r: seq<Slot>, n: int) { 0 < n < |r| && r[n].Free? && forall i {:trigger r[i]} :: 0 < i < |r| ==> (r[i].Used? <==> i < n) }

  /** No two exits share a side trace. */
  lemma LinkedOnce(r: seq<Slot>, maxside: int, i: int, x: int, j: int, y: int)
    requires TreeOk(r, maxside) && Live(r, i) && Live(r, j) && 0 <= x < |r[i].t.snap| && 0 <= y < |r[j].t.snap|
    requires r[i].t.snap[x].sidetrace == r[j].t.snap[y].sidetrace != 0
    ensures i == j && x == y
  {
    assert TraceOk(r, maxside, i) && TraceOk(r, maxside, j);
    assert ExitOk(r, i, x) && ExitOk(r, j, y);
  }

  /** Going from parent to parent ends at the root trace of the tree. */
  function Ancestor(r: seq<Slot>, i: int, n: nat): int
    decreases n
  {
    if n == 0 || !Live(r, i) || r[i].t.root == 0 then i else Ancestor(r, r[i].t.parent, n - 1)
  }

  lemma {:induction false} Rooted(r: seq<Slot>, maxside: int, i: int, n: nat)
    requires TreeOk(r, maxside) && Live(r, i) && i <= n
    ensures Ancestor(r, i, n) == RootOf(r, i)
    decreases n
  {
    hide Sum;
    assert TraceOk(r, maxside, i);
    if r[i].t.root != 0 { Rooted(r, maxside, r[i].t.parent, n - 1); }
  }

  // -- What changes the registry ------------------------------------------------------

  /** A new root trace. */
  lemma RootAdded(r: seq<Slot>, maxside: int, n: int, t: Trace)
    requires TreeOk(r, maxside) && IsNext(r, n) && 0 <= maxside
    requires t.root == 0 && t.parent == 0 && t.nchild == 0 && RootOp(t.startins.op) && t.snap != [] && forall x {:trigger t.snap[x]} :: 0 <= x < |t.snap| ==> t.snap[x] == Exit(0, 0)
    requires forall i {:trigger r[i]} :: Live(r, i) && r[i].t.root == 0 ==> r[i].t.start != t.start
    ensures TreeOk(r[n := Used(t)], maxside)
  {
    hide Sum, LinkedIn;
    var r2 := r[n := Used(t)];
    NoKids(r, maxside, n);
    NoLinks(t.snap);
    SumUpdate(r, n, Used(t), SideOf());
    SumUpdate(r, n, Used(t), ExitsOf());
    forall i | Live(r2, i) ensures TraceOk(r2, maxside, i) {
      SumUpdate(r, n, Used(t), KidOf(i));
      if i != n {
        assert TraceOk(r, maxside, i);
        forall x | 0 <= x < |r2[i].t.snap| ensures ExitOk(r2, i, x) { assert ExitOk(r, i, x); }
      }
    }
  }

  lemma {:induction false} NoLinks(snap: seq<Exit>)
    requires forall x {:trigger snap[x]} :: 0 <= x < |snap| ==> snap[x].sidetrace == 0
    ensures LinkedIn(snap) == 0
  {
    if snap != [] { NoLinks(snap[..|snap| - 1]); }
  }

  lemma {:induction false} SumZero(r: seq<Slot>, f: Slot -> int)
    requires forall i {:trigger r[i]} :: 0 <= i < |r| ==> f(r[i]) == 0
    ensures Sum(r, f) == 0
  {
    if r != [] {
      var a := r[..|r| - 1];
      forall i {:trigger a[i]} | 0 <= i < |a| ensures f(a[i]) == 0 { assert a[i] == r[i]; }
      SumZero(a, f);
    }
  }

  /** A free number has no side traces yet. */
  lemma NoKids(r: seq<Slot>, maxside: int, n: int)
    requires TreeOk(r, maxside) && IsNext(r, n)
    ensures Sum(r, KidOf(n)) == 0
  {
    forall i | 0 <= i < |r| ensures KidOf(n)(r[i]) == 0 {
      if r[i].Used? { assert TraceOk(r, maxside, i); }
    }
    SumZero(r, KidOf(n));
  }

  /** The registry with a side trace at exit `x` of trace `p`: the exit is linked
      and done, and the root counts one more child. */
  function WithSide(r: seq<Slot>, n: int, t: Trace, p: int, x: int): seq<Slot>
    requires 0 < n < |r| && Live(r, p) && p != n && 0 <= x < |r[p].t.snap| && Live(r, t.root) && t.root != n
  {
    var r1 := r[n := Used(t)];
    var r2 := r1[p := Used(r1[p].t.(snap := r1[p].t.snap[x := Exit(SNAPCOUNT_DONE, n)]))];
    r2[t.root := Used(r2[t.root].t.(nchild := r2[t.root].t.nchild + 1))]
  }

  /** A trace that only takes part in the links. */
  ghost predicate NewSide(r: seq<Slot>, maxside: int, n: int, t: Trace, p: int, x: int) {
    && IsNext(r, n) && Live(r, p) && 0 <= x < |r[p].t.snap| && r[p].t.snap[x].sidetrace == 0
    && t.root == RootOf(r, p) && t.parent == p && t.exitno == x && t.startins.op == JMP && t.nchild == 0
    && t.snap != [] && (forall y {:trigger t.snap[y]} :: 0 <= y < |t.snap| ==> t.snap[y] == Exit(0, 0))
    && Live(r, t.root) && r[t.root].t.nchild < maxside
  }

  lemma RootLive(r: seq<Slot>, maxside: int, i: int)
    requires TreeOk(r, maxside) && Live(r, i)
    ensures Live(r, RootOf(r, i)) && r[RootOf(r, i)].t.root == 0
  {
    assert TraceOk(r, maxside, i);
  }

  lemma SideAdded(r: seq<Slot>, maxside: int, n: int, t: Trace, p: int, x: int)
    requires TreeOk(r, maxside) && NewSide(r, maxside, n, t, p, x)
    ensures TreeOk(WithSide(r, n, t, p, x), maxside)
  {
    hide Sum, LinkedIn;
    var r2 := WithSide(r, n, t, p, x);
    RootLive(r, maxside, p);
    SideSums(r, maxside, n, t, p, x);
    forall i | Live(r2, i) ensures TraceOk(r2, maxside, i) {
      if i == n {
        forall y | 0 <= y < |t.snap| ensures ExitOk(r2, n, y) { assert t.snap[y] == Exit(0, 0); }
      } else {
        SideTraceOk(r, maxside, n, t, p, x, i);
      }
    }
  }

  lemma SideTraceOk(r: seq<Slot>, maxside: int, n: int, t: Trace, p: int, x: int, i: int)
    requires TreeOk(r, maxside) && NewSide(r, maxside, n, t, p, x) && Live(r, i) && i != n
    ensures Live(WithSide(r, n, t, p, x), i) && TraceOk(WithSide(r, n, t, p, x), maxside, i)
  {
    hide Sum, LinkedIn;
    var r2 := WithSide(r, n, t, p, x);
    assert TraceOk(r, maxside, i);
    RootLive(r, maxside, p);
    KidSum(r, maxside, n, t, p, x, i);
    forall y | 0 <= y < |r2[i].t.snap| ensures ExitOk(r2, i, y) {
      assert ExitOk(r, i, y);
    }
    if r[i].t.root != 0 { assert TraceOk(r, maxside, r[i].t.parent); }
  }

  lemma KidSum(r: seq<Slot>, maxside: int, n: int, t: Trace, p: int, x: int, k: int)
    requires TreeOk(r, maxside) && NewSide(r, maxside, n, t, p, x) && k != 0
    ensures Sum(WithSide(r, n, t, p, x), KidOf(k)) == Sum(r, KidOf(k)) + if k == t.root then 1 else 0
  {
    hide Sum, LinkedIn;
    var f := KidOf(k);
    var r1 := r[n := Used(t)];
    SumUpdate(r, n, Used(t), f);
    var u := Used(r1[p].t.(snap := r1[p].t.snap[x := Exit(SNAPCOUNT_DONE, n)]));
    SumUpdate(r1, p, u, f);
    var r2 := r1[p := u];
    SumUpdate(r2, t.root, Used(r2[t.root].t.(nchild := r2[t.root].t.nchild + 1)), f);
  }

  lemma SideSums(r: seq<Slot>, maxside: int, n: int, t: Trace, p: int, x: int)
    requires TreeOk(r, maxside) && NewSide(r, maxside, n, t, p, x)
    ensures var r2 := WithSide(r, n, t, p, x); Sum(r2, SideOf()) == Sum(r2, ExitsOf())
  {
    hide Sum, LinkedIn;
    var r1 := r[n := Used(t)];
    var u := Used(r1[p].t.(snap := r1[p].t.snap[x := Exit(SNAPCOUNT_DONE, n)]));
    var r2 := r1[p := u];
    var v := Used(r2[t.root].t.(nchild := r2[t.root].t.nchild + 1));
    NoLinks(t.snap);
    LinkedUpdate(r[p].t.snap, x, Exit(SNAPCOUNT_DONE, n));
    SumUpdate(r, n, Used(t), SideOf());
    SumUpdate(r1, p, u, SideOf());
    SumUpdate(r2, t.root, v, SideOf());
    SumUpdate(r, n, Used(t), ExitsOf());
    SumUpdate(r1, p, u, ExitsOf());
    SumUpdate(r2, t.root, v, ExitsOf());
  }

  /** Counting an exit. */
  lemma ExitCounted(r: seq<Slot>, maxside: int, p: int, x: int, c: int)
    requires TreeOk(r, maxside) && Live(r, p) && 0 <= x < |r[p].t.snap| && r[p].t.snap[x].sidetrace == 0 && 0 <= c <= SNAPCOUNT_DONE
    ensures TreeOk(r[p := Used(r[p].t.(snap := r[p].t.snap[x := Exit(c, 0)]))], maxside)
  {
    hide Sum, LinkedIn;
    var u := Used(r[p].t.(snap := r[p].t.snap[x := Exit(c, 0)]));
    var r2 := r[p := u];
    LinkedUpdate(r[p].t.snap, x, Exit(c, 0));
    SumUpdate(r, p, u, SideOf());
    SumUpdate(r, p, u, ExitsOf());
    forall i | Live(r2, i) ensures TraceOk(r2, maxside, i) {
      assert TraceOk(r, maxside, i);
      SumUpdate(r, p, u, KidOf(i));
      if r[i].t.root != 0 { assert TraceOk(r, maxside, r[i].t.parent); }
      forall y | 0 <= y < |r2[i].t.snap| ensures ExitOk(r2, i, y) { assert ExitOk(r, i, y); }
    }
  }

  /** A free slot more, or every slot free. */
  lemma Pushed(r: seq<Slot>, maxside: int)
    requires TreeOk(r, maxside)
    ensures TreeOk(r + [Free], maxside)
  {
    var r2 := r + [Free];
    assert r2[..|r2| - 1] == r;
    forall i | Live(r2, i) ensures TraceOk(r2, maxside, i) {
      assert TraceOk(r, maxside, i);
      forall y | 0 <= y < |r2[i].t.snap| ensures ExitOk(r2, i, y) { assert ExitOk(r, i, y); }
    }
  }

  lemma Emptied(r: seq<Slot>, maxside: int)
    requires r != [] && forall i {:trigger r[i]} :: 0 <= i < |r| ==> r[i].Free?
    ensures TreeOk(r, maxside)
  {
    SumZero(r, SideOf());
    SumZero(r, ExitsOf());
  }
}
