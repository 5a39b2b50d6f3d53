/** The names of a whole chunk: what the parser does with them step by step, and
    where each use of a name leads in the functions that come out. */
module ChunkNames {
  import opened Upvalues
  import opened NameScopes

  /** What the parser does with names: a function opens or ends, a variable is
      declared, declared ones become active, active ones end, a name is used or a
      variable assigned to. */
  datatype NameEvent = Open | Close | New(name: int) | Add(n: nat) | Remove(level: nat) | Use(used: nat) | Set(vidx: int)

  /** The functions being compiled and the variables, at one moment. */
  datatype Shot = Shot(fs: seq<Frame>, vs: seq<Var>)

  function Top(a: Shot): Frame
    requires a.fs != []
  { a.fs[|a.fs| - 1] }

  /** Is every declared variable of the innermost function active? */
  predicate Settled(a: Shot)
    requires a.fs != []
  { Top(a).nactvar == |Top(a).varmap| }

  // -- What each event does ------------------------------------------------------------

  /** The innermost function is finished, and stands among the functions inside
      the enclosing one. */
  ghost predicate ClosedTo(a: Shot, b: Shot) {
    && |a.fs| > 1 && |b.fs| == |a.fs| - 1 && Top(b).kids != []
    && var p := Top(b).kids[|Top(b).kids| - 1]; Made(Top(a), a.vs, p) && b == Shot(Left(a.fs, p), a.vs[..p.vbase])
  }

  ghost predicate AddedTo(a: Shot, b: Shot, n: nat) {
    a.fs != [] && b.fs == RaisedBy(a.fs, n) && Activated(a.vs, b.vs, Top(a).varmap, Top(a).nactvar, n)
  }

  ghost predicate RemovedTo(a: Shot, b: Shot, level: nat)
    requires a.fs != []
  {
    var f := Top(a);
    var n := if level < f.nactvar then level else f.nactvar;
    0 <= n <= |f.varmap| && b == Shot(a.fs[|a.fs| - 1 := f.(nactvar := n, varmap := f.varmap[..n])], a.vs)
  }

  ghost predicate Looked(a: Shot, v: int, name: nat) { MapsOk(a.fs) && ActiveOk(Flat(a.fs), a.vs) && v == Newest(Flat(a.fs), a.vs, |Flat(a.fs)|, name) }

  /** A name is used: the newest active variable of that name, in any of the
      functions. */
  ghost predicate UsedAs(a: Shot, b: Shot, v: int, e: Place)
    requires a.fs != []
  {
    && b.vs == a.vs && GrownOnly(a.fs, b.fs)
    && if v == VINDEX_NONE then e == Global && b == a
       else 0 <= v < |a.vs| && if v >= Top(a).vbase then e == Local(a.vs[v].slot) && b == a
       else e.Upval? && 0 <= e.i < |Top(b).uvmap| && Top(b).uvmap[e.i] == v && Captured(a.fs, b.fs, v)
  }

  /** What an event does; what makes no sense where it comes changes nothing. */
  ghost predicate Happened(ev: NameEvent, a: Shot, b: Shot, e: Place) {
    a.fs != [] && match ev
      case Open => b == Shot(a.fs + [Frame(|a.vs|, 0, [], [], [], [])], a.vs)
      case Close => if Settled(a) && |a.fs| > 1 then ClosedTo(a, b) else b == a
      case New(name) => b == Shot(Declared(a.fs, |a.vs|), a.vs + [Var(name, 0, VINDEX_NONE, false)])
      case Add(n) => if Top(a).nactvar + n <= |Top(a).varmap| then AddedTo(a, b, n) else b == a
      case Remove(level) => if Settled(a) then RemovedTo(a, b, level) else b == a
      case Use(name) => exists v {:trigger Looked(a, v, name)} :: Looked(a, v, name) && UsedAs(a, b, v, e)
      case Set(v) => b == if 0 <= v < |a.vs| then Shot(a.fs, a.vs[v := a.vs[v].(rw := true)]) else a
  }

  /** The limit an event hits. */
  ghost predicate LimitHit(ev: NameEvent, a: Shot) {
    a.fs != [] && match ev
      case New(_) => |Top(a).varmap| >= LJ_MAX_LOCVAR || |a.vs| >= LJ_MAX_VSTACK
      case Use(name) => exists v {:trigger Looked(a, v, name)} :: Looked(a, v, name) && v != VINDEX_NONE && NoRoom(a.fs, v)
      case _ => false
  }

  ghost function Now(s: Scopes): Shot
    reads s
  { Shot(s.fs, s.vstack) }

  /** Handles one event. */
  method Handle(s: Scopes, ev: NameEvent) returns (err: seq<Error>, ghost e: Place)
    requires s.Valid()
    modifies s, s.vhash
    ensures err == [] ==> s.Valid() && Happened(ev, old(Now(s)), Now(s), e)
    ensures err != [] ==> LimitHit(ev, old(Now(s)))
  {
    hide AllOk, ClosedTo, Looked, Made, Activated, GrownOnly, NoRoom, Captured, Newest, Flat, MapsOk, ActiveOk;
    FrameThere(s.fs, s.vstack, s.vhash[..]);
    ghost var a := Now(s);
    var f := s.fs[|s.fs| - 1];
    var settled := f.nactvar == |f.varmap|;
    err, e := [], Global;
    match ev
    case Open =>
      s.FsInit();
    case Close =>
      if settled && |s.fs| > 1 {
        var p := s.FsFinish();
        LeftClosed(a, Now(s), p);
      }
    case New(name) =>
      err := s.VarNew(name, |f.varmap| - f.nactvar);
    case Add(n) =>
      if f.nactvar + n <= |f.varmap| {
        s.VarAdd(n);
      }
    case Remove(level) =>
      if settled {
        s.VarRemove(level);
      }
    case Use(name) =>
      LookedUp(a, s.vhash[..], name);
      var v;
      err, e, v := s.VarLookup(name);
    case Set(v) =>
      if 0 <= v < |s.vstack| {
        s.Assign(v);
      }
  }

  lemma FrameThere(fs: seq<Frame>, vs: seq<Var>, hash: seq<int>)
    requires AllOk(fs, vs, hash)
    ensures fs != [] && 0 <= fs[|fs| - 1].nactvar <= |fs[|fs| - 1].varmap|
  {
    FrameHere(fs, vs);
  }

  lemma LeftClosed(a: Shot, b: Shot, p: Proto)
    requires |a.fs| > 1 && Made(Top(a), a.vs, p) && b == Shot(Left(a.fs, p), a.vs[..p.vbase])
    ensures ClosedTo(a, b)
  {
  }

  lemma LookedUp(a: Shot, hash: seq<int>, name: nat)
    requires AllOk(a.fs, a.vs, hash)
    ensures MapsOk(a.fs) && ActiveOk(Flat(a.fs), a.vs) && Looked(a, Newest(Flat(a.fs), a.vs, |Flat(a.fs)|, name), name)
  {
  }

  // -- Functions by their place in the chunk --------------------------------------------

  /** A function, open or finished: its variables, its upvalues, and which of its
      variables are declared but not yet active. */
  datatype View = View(vbase: int, locals: seq<Var>, uvvars: seq<int>, pending: seq<int>)
  datatype Found = Found(view: View) | Nowhere

  function Cut<T>(s: seq<T>, lo: int, hi: int): seq<T> { if 0 <= lo <= hi <= |s| then s[lo..hi] else [] }

  /** A function inside a finished one: `path` says which of the functions inside,
      which of those inside it, and so on. */
  function ProtoAt(p: Proto, path: seq<nat>): Found
    decreases |path|
  {
    if path == [] then Found(View(p.vbase, p.locals, p.uvvars, []))
    else if path[0] < |p.kids| then ProtoAt(p.kids[path[0]], path[1..])
    else Nowhere
  }

  function OwnView(a: Shot, k: int): View
    requires 0 <= k < |a.fs|
  { View(a.fs[k].vbase, Cut(a.vs, a.fs[k].vbase, End(a.fs, |a.vs|, k)), a.fs[k].uvmap, Cut(a.fs[k].varmap, a.fs[k].nactvar, |a.fs[k].varmap|)) }

  /** The same from open function `k` on: the next open one is going to be the
      next inside it. */
  function FrameAt(a: Shot, k: int, path: seq<nat>): Found
    requires 0 <= k < |a.fs|
    decreases |path|
  {
    if path == [] then Found(OwnView(a, k))
    else if path[0] < |a.fs[k].kids| then ProtoAt(a.fs[k].kids[path[0]], path[1..])
    else if k + 1 < |a.fs| && path[0] == |a.fs[k].kids| then FrameAt(a, k + 1, path[1..])
    else Nowhere
  }

  /** Where the innermost open function is going to be. */
  function PathFrom(fs: seq<Frame>, k: int): seq<nat>
    requires 0 <= k < |fs|
    decreases |fs| - k
  { if k + 1 == |fs| then [] else [|fs[k].kids|] + PathFrom(fs, k + 1) }

  /** A function later: the same, with perhaps more variables and upvalues; the
      registers of variables that were active stay. */
  ghost predicate Later(v: View, w: View) {
    && w.vbase == v.vbase && v.uvvars <= w.uvvars && |v.locals| <= |w.locals|
    && forall j {:trigger w.locals[j]} {:trigger v.locals[j]} :: 0 <= j < |v.locals| ==>
         && w.locals[j].name == v.locals[j].name
         && ((v.vbase + j) !in v.pending ==> w.locals[j].slot == v.locals[j].slot && (v.vbase + j) !in w.pending)
  }

  ghost predicate StillThere(x: Found, y: Found) { x.Found? ==> y.Found? && Later(x.view, y.view) }

  lemma LaterTrans(u: View, v: View, w: View)
    requires Later(u, v) && Later(v, w)
    ensures Later(u, w)
  {
    forall j {:trigger w.locals[j]} {:trigger u.locals[j]} | 0 <= j < |u.locals|
      ensures w.locals[j].name == u.locals[j].name && ((u.vbase + j) !in u.pending ==> w.locals[j].slot == u.locals[j].slot && (u.vbase + j) !in w.pending)
    {
      assert v.locals[j].name == u.locals[j].name;
    }
  }

  lemma LaterSame(v: View)
    ensures Later(v, v)
  {
  }

  // -- What stays through an event --------------------------------------------------------

  /** Every function there is still is. */
  ghost predicate Kept(a: Shot, b: Shot) {
    a.fs != [] && b.fs != [] && forall path {:trigger FrameAt(b, 0, path)} :: StillThere(FrameAt(a, 0, path), FrameAt(b, 0, path))
  }

  ghost predicate OwnLater(a: Shot, b: Shot, k: int)
    requires 0 <= k < |a.fs| && k < |b.fs|
  { b.fs[k].kids == a.fs[k].kids && Later(OwnView(a, k), OwnView(b, k)) }

  lemma {:induction false} FramesKeep(a: Shot, b: Shot, k: int, path: seq<nat>)
    requires 0 <= k < |a.fs| <= |b.fs| && forall i {:trigger OwnLater(a, b, i)} :: 0 <= i < |a.fs| ==> OwnLater(a, b, i)
    ensures StillThere(FrameAt(a, k, path), FrameAt(b, k, path))
    decreases |path|
  {
    hide Later, OwnView;
    assert OwnLater(a, b, k);
    if path != [] {
      if path[0] < |a.fs[k].kids| {
        var x := FrameAt(a, k, path);
        if x.Found? { LaterSame(x.view); }
      } else if k + 1 < |a.fs| && path[0] == |a.fs[k].kids| {
        FramesKeep(a, b, k + 1, path[1..]);
      }
    }
  }

  lemma OwnKept(a: Shot, b: Shot)
    requires 0 < |a.fs| <= |b.fs| && forall i {:trigger OwnLater(a, b, i)} :: 0 <= i < |a.fs| ==> OwnLater(a, b, i)
    ensures Kept(a, b)
  {
    forall path ensures StillThere(FrameAt(a, 0, path), FrameAt(b, 0, path)) { FramesKeep(a, b, 0, path); }
  }

  lemma KeptSame(a: Shot)
    requires a.fs != []
    ensures Kept(a, a)
  {
    hide Later;
    forall path ensures StillThere(FrameAt(a, 0, path), FrameAt(a, 0, path)) { if FrameAt(a, 0, path).Found? { LaterSame(FrameAt(a, 0, path).view); } }
  }

  lemma KeptTrans(a: Shot, b: Shot, c: Shot)
    requires Kept(a, b) && Kept(b, c)
    ensures Kept(a, c)
  {
    hide Later, FrameAt;
    forall path ensures StillThere(FrameAt(a, 0, path), FrameAt(c, 0, path)) {
      var x, y, z := FrameAt(a, 0, path), FrameAt(b, 0, path), FrameAt(c, 0, path);
      assert StillThere(x, y) && StillThere(y, z);
      if x.Found? { LaterTrans(x.view, y.view, z.view); }
    }
  }

  /** Open functions lie one behind the other on the stack of variables. */
  lemma EndsIn(fs: seq<Frame>, nv: int, k: int)
    requires FramesOk(fs, nv) && 0 <= k < |fs|
    ensures 0 <= fs[k].vbase <= End(fs, nv, k) <= nv && 0 <= fs[k].nactvar <= |fs[k].varmap|
    ensures forall i {:trigger fs[k].varmap[i]} :: 0 <= i < |fs[k].varmap| ==> fs[k].vbase <= fs[k].varmap[i] < End(fs, nv, k)
  {
    assert FrameOk(fs, nv, k);
    if k + 1 < |fs| {
      EndsUp(fs, nv, k + 1, |fs| - 1);
      assert FrameOk(fs, nv, |fs| - 1);
    }
  }

  /** Variable `x` of function `k` is not waiting to become active. */
  predicate Waits(f: Frame, x: int) { x in Cut(f.varmap, f.nactvar, |f.varmap|) }

  /** A function later, variable by variable. */
  lemma OwnAt(a: Shot, b: Shot, k: int)
    requires 0 <= k < |a.fs| && k < |b.fs| && b.fs[k].kids == a.fs[k].kids && b.fs[k].vbase == a.fs[k].vbase && a.fs[k].uvmap <= b.fs[k].uvmap
    requires 0 <= a.fs[k].vbase <= End(a.fs, |a.vs|, k) <= |a.vs| && End(a.fs, |a.vs|, k) <= End(b.fs, |b.vs|, k) <= |b.vs|
    requires forall x {:trigger a.vs[x]} {:trigger b.vs[x]} :: a.fs[k].vbase <= x < End(a.fs, |a.vs|, k) ==>
      b.vs[x].name == a.vs[x].name && (!Waits(a.fs[k], x) ==> b.vs[x].slot == a.vs[x].slot && !Waits(b.fs[k], x))
    ensures OwnLater(a, b, k)
  {
    var v, w := OwnView(a, k), OwnView(b, k);
    forall j {:trigger w.locals[j]} {:trigger v.locals[j]} | 0 <= j < |v.locals|
      ensures w.locals[j].name == v.locals[j].name && ((v.vbase + j) !in v.pending ==> w.locals[j].slot == v.locals[j].slot && (v.vbase + j) !in w.pending)
    {
      assert v.locals[j] == a.vs[v.vbase + j] && w.locals[j] == b.vs[v.vbase + j];
    }
  }

  lemma KeptOpen(a: Shot, b: Shot)
    requires FramesOk(a.fs, |a.vs|) && b == Shot(a.fs + [Frame(|a.vs|, 0, [], [], [], [])], a.vs)
    ensures Kept(a, b)
  {
    forall i | 0 <= i < |a.fs| ensures OwnLater(a, b, i) {
      EndsIn(a.fs, |a.vs|, i);
      OwnAt(a, b, i);
    }
    OwnKept(a, b);
  }

  lemma KeptNew(a: Shot, b: Shot, name: int)
    requires FramesOk(a.fs, |a.vs|) && b == Shot(Declared(a.fs, |a.vs|), a.vs + [Var(name, 0, VINDEX_NONE, false)])
    ensures Kept(a, b)
  {
    hide Later, OwnView;
    forall i | 0 <= i < |a.fs| ensures OwnLater(a, b, i) {
      EndsIn(a.fs, |a.vs|, i);
      var f, g := a.fs[i], b.fs[i];
      if i == |a.fs| - 1 { assert Cut(g.varmap, g.nactvar, |g.varmap|) == Cut(f.varmap, f.nactvar, |f.varmap|) + [|a.vs|]; }
      forall x {:trigger a.vs[x]} {:trigger b.vs[x]} | f.vbase <= x < End(a.fs, |a.vs|, i)
        ensures b.vs[x].name == a.vs[x].name && (!Waits(f, x) ==> b.vs[x].slot == a.vs[x].slot && !Waits(g, x))
      {
        assert b.vs[x] == a.vs[x];
        if i < |a.fs| - 1 { assert g == f; }
      }
      OwnAt(a, b, i);
    }
    OwnKept(a, b);
  }

  lemma KeptAdd(a: Shot, b: Shot, n: nat)
    requires FramesOk(a.fs, |a.vs|) && AddedTo(a, b, n)
    ensures Kept(a, b)
  {
    hide Later, OwnView;
    var t := |a.fs| - 1;
    var f, g := a.fs[t], b.fs[t];
    EndsIn(a.fs, |a.vs|, t);
    forall i | 0 <= i < |a.fs| ensures OwnLater(a, b, i) {
      EndsIn(a.fs, |a.vs|, i);
      if i < t { EndsUp(a.fs, |a.vs|, i + 1, t); }
      forall x {:trigger a.vs[x]} {:trigger b.vs[x]} | a.fs[i].vbase <= x < End(a.fs, |a.vs|, i)
        ensures b.vs[x].name == a.vs[x].name && (!Waits(a.fs[i], x) ==> b.vs[x].slot == a.vs[x].slot && !Waits(b.fs[i], x))
      {
        if i < t || !Waits(f, x) { WaitsNot(f, g, x, n, i < t); }
      }
      OwnAt(a, b, i);
    }
    OwnKept(a, b);
  }

  lemma WaitsNot(f: Frame, g: Frame, x: int, n: nat, outer: bool)
    requires 0 <= f.nactvar && f.nactvar + n <= |f.varmap| && g == f.(nactvar := f.nactvar + n)
    requires if outer then x !in f.varmap else !Waits(f, x)
    ensures x !in f.varmap[f.nactvar..f.nactvar + n] && !Waits(g, x)
  {
    var rest := f.varmap[f.nactvar..];
    assert Cut(f.varmap, f.nactvar, |f.varmap|) == rest && rest == f.varmap[f.nactvar..f.nactvar + n] + f.varmap[f.nactvar + n..];
    assert Cut(g.varmap, g.nactvar, |g.varmap|) == f.varmap[f.nactvar + n..];
  }

  lemma WaitsFewer(f: Frame, g: Frame)
    requires (g.varmap == f.varmap && g.nactvar == f.nactvar) || g.nactvar == |g.varmap|
    ensures forall x {:trigger Waits(g, x)} :: Waits(g, x) ==> Waits(f, x)
  {
  }

  /** Variables keep their names and registers, and functions the variables they
      declared, or fewer, all active. */
  lemma KeptSimply(a: Shot, b: Shot)
    requires FramesOk(a.fs, |a.vs|) && |b.fs| == |a.fs| && |b.vs| == |a.vs|
    requires forall x {:trigger b.vs[x]} {:trigger a.vs[x]} :: 0 <= x < |a.vs| ==> b.vs[x].name == a.vs[x].name && b.vs[x].slot == a.vs[x].slot
    requires forall k {:trigger b.fs[k]} {:trigger a.fs[k]} :: 0 <= k < |a.fs| ==>
      && b.fs[k].kids == a.fs[k].kids && b.fs[k].vbase == a.fs[k].vbase && a.fs[k].uvmap <= b.fs[k].uvmap
      && ((b.fs[k].varmap == a.fs[k].varmap && b.fs[k].nactvar == a.fs[k].nactvar) || b.fs[k].nactvar == |b.fs[k].varmap|)
    ensures Kept(a, b)
  {
    hide Later, OwnView, FramesOk;
    RootBase(a.fs, |a.vs|);
    forall i | 0 <= i < |a.fs| ensures OwnLater(a, b, i) {
      EndsIn(a.fs, |a.vs|, i);
      var f, g := a.fs[i], b.fs[i];
      assert g.vbase == f.vbase && End(b.fs, |b.vs|, i) == End(a.fs, |a.vs|, i);
      WaitsFewer(f, g);
      forall x {:trigger a.vs[x]} {:trigger b.vs[x]} | f.vbase <= x < End(a.fs, |a.vs|, i)
        ensures b.vs[x].name == a.vs[x].name && (!Waits(f, x) ==> b.vs[x].slot == a.vs[x].slot && !Waits(g, x))
      {
        assert b.vs[x].name == a.vs[x].name && (Waits(g, x) ==> Waits(f, x));
      }
      OwnAt(a, b, i);
    }
    OwnKept(a, b);
  }

  /** A finished function is the open one as it was. */
  lemma {:induction false} MadeSame(f: Frame, vs: seq<Var>, p: Proto, path: seq<nat>)
    requires Made(f, vs, p) && path != [] && path[0] < |f.kids|
    ensures ProtoAt(p, path) == ProtoAt(f.kids[path[0]], path[1..])
  {
    var g, h := p.kids[path[0]], f.kids[path[0]];
    assert g == h.(uv := g.uv);
  }

  lemma MadeKeeps(a: Shot, p: Proto, path: seq<nat>)
    requires FramesOk(a.fs, |a.vs|) && Settled(a) && Made(Top(a), a.vs, p)
    ensures StillThere(FrameAt(a, |a.fs| - 1, path), ProtoAt(p, path))
  {
    var t := |a.fs| - 1;
    EndsIn(a.fs, |a.vs|, t);
    if path == [] {
      assert Cut(a.vs, Top(a).vbase, |a.vs|) == p.locals && Cut(Top(a).varmap, Top(a).nactvar, |Top(a).varmap|) == [];
      LaterSame(OwnView(a, t));
    } else if path[0] < |Top(a).kids| {
      MadeSame(Top(a), a.vs, p, path);
      if ProtoAt(p, path).Found? { LaterSame(ProtoAt(p, path).view); }
    }
  }

  lemma {:induction false} CloseKeeps(a: Shot, b: Shot, k: int, path: seq<nat>)
    requires FramesOk(a.fs, |a.vs|) && Settled(a) && ClosedTo(a, b) && 0 <= k < |b.fs|
    ensures StillThere(FrameAt(a, k, path), FrameAt(b, k, path))
    decreases |path|
  {
    var t := |a.fs| - 1;
    var p := Top(b).kids[|Top(b).kids| - 1];
    EndsIn(a.fs, |a.vs|, k);
    EndsIn(a.fs, |a.vs|, t);
    if path == [] {
      EndsUp(a.fs, |a.vs|, k + 1, t);
      assert OwnView(b, k) == OwnView(a, k);
      LaterSame(OwnView(a, k));
    } else if path[0] < |a.fs[k].kids| {
      assert b.fs[k].kids[path[0]] == a.fs[k].kids[path[0]];
      if FrameAt(a, k, path).Found? { LaterSame(FrameAt(a, k, path).view); }
    } else if path[0] == |a.fs[k].kids| {
      if k + 1 < t { CloseKeeps(a, b, k + 1, path[1..]); } else { MadeKeeps(a, p, path[1..]); }
    }
  }

  lemma KeptClose(a: Shot, b: Shot)
    requires FramesOk(a.fs, |a.vs|) && Settled(a) && ClosedTo(a, b)
    ensures Kept(a, b)
  {
    forall path ensures StillThere(FrameAt(a, 0, path), FrameAt(b, 0, path)) { CloseKeeps(a, b, 0, path); }
  }

  lemma EventKept(ev: NameEvent, a: Shot, b: Shot, e: Place)
    requires FramesOk(a.fs, |a.vs|) && Happened(ev, a, b, e)
    ensures Kept(a, b)
  {
    hide ClosedTo, AddedTo, Looked, FramesOk;
    match ev
    case Open => KeptOpen(a, b);
    case Close => if Settled(a) && |a.fs| > 1 { KeptClose(a, b); } else { KeptSame(a); }
    case New(name) => KeptNew(a, b, name);
    case Add(n) => if Top(a).nactvar + n <= |Top(a).varmap| { KeptAdd(a, b, n); } else { KeptSame(a); }
    case Remove(level) => if Settled(a) { KeptSimply(a, b); } else { KeptSame(a); }
    case Use(name) =>
      KeptSimply(a, b);
    case Set(v) =>
      KeptSimply(a, b);
  }

  // -- Where a use of a name leads --------------------------------------------------------

  lemma {:induction false} PathLeads(a: Shot, k: int, n: nat)
    requires 0 <= k < |a.fs| && n <= |a.fs| - 1 - k
    ensures |PathFrom(a.fs, k)| == |a.fs| - 1 - k && FrameAt(a, k, PathFrom(a.fs, k)[..n]) == Found(OwnView(a, k + n))
    decreases |a.fs| - k
  {
    hide OwnView;
    var path := PathFrom(a.fs, k);
    if k + 1 < |a.fs| {
      PathLeads(a, k + 1, if n > 0 then n - 1 else 0);
      if n > 0 { assert path[..n][1..] == path[1..][..n - 1]; }
    }
  }

  /** The functions on the way to one inside a finished chunk. */
  function ChainOf(p: Proto, path: seq<nat>): (c: seq<Proto>)
    requires ProtoAt(p, path).Found?
    ensures |c| == |path| + 1 && c[0] == p
    decreases |path|
  { [p] + if path == [] then [] else ChainOf(p.kids[path[0]], path[1..]) }

  lemma {:induction false} ChainNested(p: Proto, path: seq<nat>)
    requires ProtoAt(p, path).Found?
    ensures Nested(ChainOf(p, path))
    decreases |path|
  {
    if path != [] {
      var c, d := ChainOf(p, path), ChainOf(p.kids[path[0]], path[1..]);
      ChainNested(p.kids[path[0]], path[1..]);
      forall n {:trigger c[n]} | 0 < n < |c|
        ensures c[n] in c[n - 1].kids
      {
        assert c[n] == d[n - 1];
        if n > 1 { assert c[n - 1] == d[n - 2]; }
      }
    }
  }

  lemma {:induction false} ChainAt(p: Proto, path: seq<nat>, k: nat)
    requires ProtoAt(p, path).Found? && k <= |path|
    ensures var q := ChainOf(p, path)[k]; ProtoAt(p, path[..k]) == Found(View(q.vbase, q.locals, q.uvvars, []))
    decreases |path|
  {
    if k > 0 {
      ChainAt(p.kids[path[0]], path[1..], k - 1);
      assert path[..k][1..] == path[1..][..k - 1];
    }
  }

  lemma {:induction false} DeclaredIs(c: seq<Proto>, v: int, k: int)
    requires 0 <= k < |c| && c[k].vbase <= v && forall j {:trigger c[j]} :: k < j < |c| ==> v < c[j].vbase
    ensures DeclaredBy(c, v) == k
    decreases |c|
  {
    if k < |c| - 1 { DeclaredIs(c[..|c| - 1], v, k); }
  }

  /** A use of `name` leads right: the name denotes the newest active variable, or
      nothing; in the finished chunk, from the function it is used in, the place
      it was resolved to leads to the function that declares that variable, and
      to its register; the variable there has that name. */
  ghost predicate UseRight(main: Proto, a: Shot, name: nat, e: Place) {
    a.fs != [] && exists v {:trigger Looked(a, v, name)} :: Looked(a, v, name) && LeadsTo(main, a, v, name, e)
  }

  ghost predicate LeadsTo(main: Proto, a: Shot, v: int, name: nat, e: Place)
    requires a.fs != []
  {
    var path := PathFrom(a.fs, 0);
    if v == VINDEX_NONE then e == Global
    else
      && 0 <= v < |a.vs| && ProtoAt(main, path).Found? && Nested(ChainOf(main, path))
      && exists d {:trigger EndsAt(ChainOf(main, path), d, v, name, a.vs[v].slot, e)} :: EndsAt(ChainOf(main, path), d, v, name, a.vs[v].slot, e)
  }

  /** Of the functions `c`, the one that declares the variable is `d`: the innermost
      one itself, or where following the upvalue outwards ends. */
  predicate EndsAt(c: seq<Proto>, d: int, v: int, name: nat, slot: int, e: Place) {
    && 0 <= d < |c| && Declares(c[d], v, name, slot)
    && match e
       case Local(r) => d == |c| - 1 && r == slot
       case Upval(i) => d < |c| - 1 && Follow(c, i) == (d, slot)
       case Global => false
  }

  predicate Declares(p: Proto, v: int, name: int, slot: int) {
    0 <= v - p.vbase < |p.locals| && p.locals[v - p.vbase].name == name && p.locals[v - p.vbase].slot == slot
  }

  /** The newest variable of a name is active in one of the functions. */
  lemma {:induction false} NewestIs(active: seq<int>, vs: seq<Var>, n: int, name: int)
    requires ActiveOk(active, vs) && 0 <= n <= |active|
    ensures var v := Newest(active, vs, n, name); v == VINDEX_NONE || (v in active && 0 <= v < |vs| && vs[v].name == name)
  {
    if n > 0 && vs[active[n - 1]].name != name { NewestIs(active, vs, n - 1, name); }
  }

  lemma {:induction false} FlatHas(fs: seq<Frame>, v: int) returns (k: int, i: int)
    requires MapsOk(fs) && v in Flat(fs)
    ensures 0 <= k < |fs| && 0 <= i < fs[k].nactvar <= |fs[k].varmap| && fs[k].varmap[i] == v
    decreases |fs|
  {
    var f := fs[|fs| - 1];
    if v in Flat(fs[..|fs| - 1]) {
      k, i := FlatHas(fs[..|fs| - 1], v);
    } else {
      k := |fs| - 1;
      i :| 0 <= i < f.nactvar && f.varmap[..f.nactvar][i] == v;
    }
  }

  lemma NotWaiting(f: Frame, i: int)
    requires 0 <= i < f.nactvar <= |f.varmap| && Increasing(f.varmap)
    ensures !Waits(f, f.varmap[i])
  {
    var rest := Cut(f.varmap, f.nactvar, |f.varmap|);
    forall j {:trigger rest[j]} | 0 <= j < |rest| ensures rest[j] != f.varmap[i] { assert rest[j] == f.varmap[f.nactvar + j]; }
  }

  /** The function that declares an active variable, in the finished chunk. */
  lemma Home(main: Proto, a: Shot, v: int, k: int, i: int)
    requires FramesOk(a.fs, |a.vs|) && 0 <= k < |a.fs| && 0 <= i < a.fs[k].nactvar <= |a.fs[k].varmap| && a.fs[k].varmap[i] == v
    requires forall path {:trigger ProtoAt(main, path)} :: StillThere(FrameAt(a, 0, path), ProtoAt(main, path))
    ensures var path := PathFrom(a.fs, 0);
      && |path| == |a.fs| - 1 && ProtoAt(main, path).Found? && 0 <= v < |a.vs| && Declares(ChainOf(main, path)[k], v, a.vs[v].name, a.vs[v].slot)
  {
    var path := PathFrom(a.fs, 0);
    PathLeads(a, 0, |a.fs| - 1);
    PathLeads(a, 0, k);
    assert path[..|path|] == path;
    assert StillThere(FrameAt(a, 0, path), ProtoAt(main, path)) && StillThere(FrameAt(a, 0, path[..k]), ProtoAt(main, path[..k]));
    ChainAt(main, path, k);
    EndsIn(a.fs, |a.vs|, k);
    assert FrameOk(a.fs, |a.vs|, k);
    NotWaiting(a.fs[k], i);
    var x, w := OwnView(a, k), ProtoAt(main, path[..k]).view;
    assert x.locals[v - x.vbase] == a.vs[v];
    assert w.locals[v - x.vbase].slot == x.locals[v - x.vbase].slot;
  }

  /** The bases of the functions on the way are those of the open ones. */
  lemma Bases(main: Proto, a: Shot, v: int, k: int)
    requires FramesOk(a.fs, |a.vs|) && 0 <= k < |a.fs| - 1 && a.fs[k].vbase <= v < a.fs[k + 1].vbase && ProtoAt(main, PathFrom(a.fs, 0)).Found?
    requires forall path {:trigger ProtoAt(main, path)} :: StillThere(FrameAt(a, 0, path), ProtoAt(main, path))
    ensures var c := ChainOf(main, PathFrom(a.fs, 0)); |c| == |a.fs| && DeclaredBy(c[..|c| - 1], v) == k
  {
    var path := PathFrom(a.fs, 0);
    PathLeads(a, 0, 0);
    var c := ChainOf(main, path);
    forall j {:trigger c[j]} | 0 <= j < |c| ensures c[j].vbase == a.fs[j].vbase {
      PathLeads(a, 0, j);
      ChainAt(main, path, j);
      assert StillThere(FrameAt(a, 0, path[..j]), ProtoAt(main, path[..j]));
    }
    var d := c[..|c| - 1];
    forall j {:trigger d[j]} | k < j < |d| ensures v < d[j].vbase { EndsUp(a.fs, |a.vs|, k + 1, j); assert d[j] == c[j]; }
    assert d[k] == c[k];
    DeclaredIs(d, v, k);
  }

  lemma UsedRight(main: Proto, a: Shot, b: Shot, name: nat, e: Place)
    requires FramesOk(a.fs, |a.vs|) && Happened(Use(name), a, b, e) && Sound(main) && main.uv == [] && main.vbase == 0
    requires forall path {:trigger ProtoAt(main, path)} :: StillThere(FrameAt(a, 0, path), ProtoAt(main, path))
    requires b.fs != [] && forall path {:trigger ProtoAt(main, path)} :: StillThere(FrameAt(b, 0, path), ProtoAt(main, path))
    ensures UseRight(main, a, name, e)
  {
    hide FramesOk, Sound, FrameAt, StillThere, Flat, LeadsTo, UsedAs;
    var v :| Looked(a, v, name) && UsedAs(a, b, v, e);
    VarLeads(main, a, b, v, name, e);
  }

  lemma VarLeads(main: Proto, a: Shot, b: Shot, v: int, name: nat, e: Place)
    requires FramesOk(a.fs, |a.vs|) && a.fs != [] && Looked(a, v, name) && UsedAs(a, b, v, e) && Sound(main) && main.uv == [] && main.vbase == 0
    requires forall path {:trigger ProtoAt(main, path)} :: StillThere(FrameAt(a, 0, path), ProtoAt(main, path))
    requires b.fs != [] && forall path {:trigger ProtoAt(main, path)} :: StillThere(FrameAt(b, 0, path), ProtoAt(main, path))
    ensures LeadsTo(main, a, v, name, e)
  {
    hide FramesOk, Sound, FrameAt, StillThere, Flat, EndsAt, GrownOnly, Captured;
    if v != VINDEX_NONE {
      NewestIs(Flat(a.fs), a.vs, |Flat(a.fs)|, name);
      var k, i := FlatHas(a.fs, v);
      Home(main, a, v, k, i);
      ChainNested(main, PathFrom(a.fs, 0));
      Ending(main, a, b, v, k, i, name, e);
    }
  }

  lemma Ending(main: Proto, a: Shot, b: Shot, v: int, k: int, i: int, name: nat, e: Place)
    requires FramesOk(a.fs, |a.vs|) && a.fs != [] && v != VINDEX_NONE && UsedAs(a, b, v, e) && Sound(main) && main.uv == [] && main.vbase == 0
    requires forall path {:trigger ProtoAt(main, path)} :: StillThere(FrameAt(a, 0, path), ProtoAt(main, path))
    requires b.fs != [] && forall path {:trigger ProtoAt(main, path)} :: StillThere(FrameAt(b, 0, path), ProtoAt(main, path))
    requires 0 <= k < |a.fs| && 0 <= i < |a.fs[k].varmap| && a.fs[k].varmap[i] == v && 0 <= v < |a.vs|
    requires var path := PathFrom(a.fs, 0); |path| == |a.fs| - 1 && ProtoAt(main, path).Found? && Declares(ChainOf(main, path)[k], v, name, a.vs[v].slot)
    ensures EndsAt(ChainOf(main, PathFrom(a.fs, 0)), k, v, name, a.vs[v].slot, e)
  {
    hide FramesOk, Sound, FrameAt, StillThere, Follow, Captured;
    var t := |a.fs| - 1;
    EndsIn(a.fs, |a.vs|, k);
    if v >= Top(a).vbase {
      if k < t { BasesUp(a.fs, |a.vs|, k + 1, t); }
    } else {
      UpvalHome(main, a, b, v, k, e.i);
    }
  }

  lemma BasesUp(fs: seq<Frame>, nv: int, j: int, k: int)
    requires FramesOk(fs, nv) && 0 <= j <= k < |fs|
    ensures fs[j].vbase <= fs[k].vbase
  {
    EndsUp(fs, nv, j, k);
  }

  lemma UpvalHome(main: Proto, a: Shot, b: Shot, v: int, k: int, i: int)
    requires FramesOk(a.fs, |a.vs|) && Sound(main) && main.uv == [] && main.vbase == 0 && 0 <= k < |a.fs| && a.fs[k].vbase <= v < End(a.fs, |a.vs|, k) && v < Top(a).vbase
    requires b.vs == a.vs && GrownOnly(a.fs, b.fs) && 0 <= i < |Top(b).uvmap| && Top(b).uvmap[i] == v
    requires forall path {:trigger ProtoAt(main, path)} :: StillThere(FrameAt(a, 0, path), ProtoAt(main, path))
    requires b.fs != [] && forall path {:trigger ProtoAt(main, path)} :: StillThere(FrameAt(b, 0, path), ProtoAt(main, path))
    requires ProtoAt(main, PathFrom(a.fs, 0)).Found?
    ensures var c := ChainOf(main, PathFrom(a.fs, 0));
      k < |c| - 1 && |c| == |a.fs| && 0 <= v - c[k].vbase < |c[k].locals| && Follow(c, i) == (k, c[k].locals[v - c[k].vbase].slot)
  {
    hide Later, FramesOk, Sound, FrameAt, Follow, Nested, StillThere, OwnView, DeclaredBy;
    var path := PathFrom(a.fs, 0);
    var c := ChainOf(main, path);
    Bases(main, a, v, k);
    SamePath(a.fs, b.fs, 0);
    PathLeads(b, 0, |b.fs| - 1);
    assert path[..|path|] == path;
    ChainAt(main, path, |path|);
    assert StillThere(FrameAt(b, 0, path), ProtoAt(main, path));
    LaterUv(b, ProtoAt(main, path), i);
    ChainNested(main, path);
    NestedSound(c);
    SoundSize(c[|c| - 1]);
    FollowsHome(c, i);
  }

  lemma LaterUv(b: Shot, y: Found, i: int)
    requires b.fs != [] && StillThere(Found(OwnView(b, |b.fs| - 1)), y) && 0 <= i < |Top(b).uvmap|
    ensures y.Found? && i < |y.view.uvvars| && y.view.uvvars[i] == Top(b).uvmap[i]
  {
  }

  lemma {:induction false} SamePath(fs: seq<Frame>, fs2: seq<Frame>, k: int)
    requires GrownOnly(fs, fs2) && 0 <= k < |fs|
    ensures PathFrom(fs2, k) == PathFrom(fs, k)
    decreases |fs| - k
  {
    assert fs2[k].kids == fs[k].kids;
    if k + 1 < |fs| { SamePath(fs, fs2, k + 1); }
  }

  // -- Whole chunks -------------------------------------------------------------------------

  /** Each event happens, from the moment before it to the one behind it, and
      resolves a name to the place recorded. */
  ghost predicate History(events: seq<NameEvent>, h: seq<Shot>, places: seq<Place>) {
    && |h| == |places| + 1 <= |events| + 1 && h[0] == Shot([Frame(0, 0, [], [], [], [])], [])
    && (forall n {:trigger places[n]} :: 0 <= n < |places| ==> Happened(events[n], h[n], h[n + 1], places[n]))
  }

  /** What was there at an earlier moment is there now; and the moments are those
      of the parser. */
  ghost predicate KeptSince(h: seq<Shot>, b: Shot) { forall n {:trigger h[n]} :: 0 <= n < |h| ==> FramesOk(h[n].fs, |h[n].vs|) && Kept(h[n], b) }

  lemma KeptOn(h: seq<Shot>, b: Shot, c: Shot)
    requires KeptSince(h, b) && Kept(b, c)
    ensures KeptSince(h, c)
  {
    hide Kept;
    forall n {:trigger h[n]} | 0 <= n < |h| ensures FramesOk(h[n].fs, |h[n].vs|) && Kept(h[n], c) { KeptTrans(h[n], b, c); }
  }

  lemma HistoryMore(events: seq<NameEvent>, h: seq<Shot>, places: seq<Place>, b: Shot, e: Place)
    requires History(events, h, places) && |places| < |events| && Happened(events[|places|], h[|places|], b, e) && KeptSince(h, h[|h| - 1]) && FramesOk(b.fs, |b.vs|)
    ensures History(events, h + [b], places + [e]) && KeptSince(h + [b], b)
  {
    hide Happened, Kept, FramesOk;
    var h2, p2, a := h + [b], places + [e], h[|h| - 1];
    assert h2[|h|] == b && FramesOk(a.fs, |a.vs|);
    forall n {:trigger p2[n]} | 0 <= n < |p2| ensures Happened(events[n], h2[n], h2[n + 1], p2[n]) { if n < |places| { assert p2[n] == places[n]; } }
    EventKept(events[|places|], a, b, e);
    KeptOn(h, a, b);
    RootBase(b.fs, |b.vs|);
    KeptSame(b);
    forall n {:trigger h2[n]} | 0 <= n < |h2| ensures FramesOk(h2[n].fs, |h2[n].vs|) && Kept(h2[n], b) { if n < |h| { assert h2[n] == h[n]; } }
  }

  lemma AllUsesRight(events: seq<NameEvent>, h: seq<Shot>, places: seq<Place>, z: Shot, main: Proto)
    requires History(events, h, places) && KeptSince(h, z) && FramesOk(z.fs, |z.vs|) && |z.fs| == 1 && Settled(z) && Made(Top(z), z.vs, main)
    requires Sound(main) && main.uv == [] && main.vbase == 0
    ensures forall n {:trigger places[n]} :: 0 <= n < |places| && events[n].Use? ==> UseRight(main, h[n], events[n].used, places[n])
  {
    hide Happened, Kept, FramesOk, Made, Sound, UseRight;
    forall n {:trigger places[n]} | 0 <= n < |places| && events[n].Use?
      ensures UseRight(main, h[n], events[n].used, places[n])
    {
      ThereInMain(h[n], z, main);
      ThereInMain(h[n + 1], z, main);
      UsedRight(main, h[n], h[n + 1], events[n].used, places[n]);
    }
  }

  lemma ThereInMain(a: Shot, z: Shot, main: Proto)
    requires Kept(a, z) && FramesOk(z.fs, |z.vs|) && |z.fs| == 1 && Settled(z) && Made(Top(z), z.vs, main)
    ensures a.fs != [] && forall path {:trigger ProtoAt(main, path)} :: StillThere(FrameAt(a, 0, path), ProtoAt(main, path))
  {
    hide Later, FrameAt, FramesOk, Made, ProtoAt;
    forall path {:trigger ProtoAt(main, path)} ensures StillThere(FrameAt(a, 0, path), ProtoAt(main, path)) {
      MadeKeeps(z, main, path);
      var x, y, w := FrameAt(a, 0, path), FrameAt(z, 0, path), ProtoAt(main, path);
      assert StillThere(x, y);
      if x.Found? { LaterTrans(x.view, y.view, w.view); }
    }
  }

  lemma AllFrames(fs: seq<Frame>, vs: seq<Var>, hash: seq<int>)
    requires AllOk(fs, vs, hash)
    ensures FramesOk(fs, |vs|)
  {
  }

  /** Any sequence of events, and the end of the chunk. Every event happens; unless
      a limit is hit, every use of a name leads right in the finished chunk, which
      is sound, so every upvalue of every function in it leads home. */
  method CompileNames(events: seq<NameEvent>) returns (err: seq<Error>, main: Proto, ghost h: seq<Shot>, ghost places: seq<Place>)
    ensures History(events, h, places) && (err == [] <==> |places| == |events|) && (err != [] ==> LimitHit(events[|places|], h[|places|]))
    ensures err == [] ==> forall n {:trigger places[n]} :: 0 <= n < |places| && events[n].Use? ==> UseRight(main, h[n], events[n].used, places[n])
    ensures err == [] ==> Sound(main) && main.uv == [] && main.vbase == 0
    ensures err == [] ==> forall c: seq<Proto>, i: int {:trigger EndsHome(c, i)} :: c != [] && Nested(c) && c[0] == main && 0 <= i < |c[|c| - 1].uv| ==> EndsHome(c, i)
  {
    hide AllOk, Sound, EndsHome, Nested, Happened, KeptSince, LimitHit, UseRight, FramesOk, Made;
    main := Proto(0, [], [], [], []);
    var s := new Scopes();
    err, h, places := [], [Now(s)], [];
    AllFrames(s.fs, s.vstack, s.vhash[..]);
    HistoryStart(events, Now(s));
    var n := 0;
    while n < |events|
      invariant 0 <= n <= |events| && fresh(s) && fresh(s.vhash) && s.Valid()
      invariant History(events, h, places) && |places| == n && h[n] == Now(s) && KeptSince(h, Now(s)) && err == []
    {
      ghost var e;
      err, e := Handle(s, events[n]);
      if err != [] {
        return;
      }
      AllFrames(s.fs, s.vstack, s.vhash[..]);
      HistoryMore(events, h, places, Now(s), e);
      h, places := h + [Now(s)], places + [e];
      n := n + 1;
    }
    FrameThere(s.fs, s.vstack, s.vhash[..]);
    while |s.fs| > 1
      invariant fresh(s) && fresh(s.vhash) && s.Valid() && s.fs != [] && KeptSince(h, Now(s))
      decreases |s.fs|
    {
      ghost var a := Now(s);
      var _ := FinishPending(s);
      KeptOn(h, a, Now(s));
    }
    ghost var a := Now(s);
    ghost var z;
    main, z := FinishMain(s);
    KeptOn(h, a, z);
    AllUsesRight(events, h, places, z, main);
    forall c: seq<Proto>, i: int {:trigger EndsHome(c, i)} | c != [] && Nested(c) && c[0] == main && 0 <= i < |c[|c| - 1].uv| ensures EndsHome(c, i) {
      FollowsHome(c, i);
    }
  }

  lemma HistoryStart(events: seq<NameEvent>, a: Shot)
    requires a == Shot([Frame(0, 0, [], [], [], [])], []) && FramesOk(a.fs, |a.vs|)
    ensures History(events, [a], []) && KeptSince([a], a)
  {
    KeptSame(a);
  }

  /** A function ends with every declared variable active. */
  method FinishPending(s: Scopes) returns (p: Proto)
    requires s.Valid() && |s.fs| > 1
    modifies s, s.vhash
    ensures s.Valid() && |s.fs| == old(|s.fs|) - 1 && Kept(old(Now(s)), Now(s))
  {
    hide AllOk, Sound, Kept, Made, Activated, FramesOk, ClosedTo;
    FrameThere(s.fs, s.vstack, s.vhash[..]);
    AllFrames(s.fs, s.vstack, s.vhash[..]);
    var f := s.fs[|s.fs| - 1];
    ghost var a := Now(s);
    s.VarAdd(|f.varmap| - f.nactvar);
    ghost var b := Now(s);
    AllFrames(s.fs, s.vstack, s.vhash[..]);
    KeptAdd(a, b, |f.varmap| - f.nactvar);
    p := s.FsFinish();
    LeftClosed(b, Now(s), p);
    KeptClose(b, Now(s));
    KeptTrans(a, b, Now(s));
  }

  /** The main function ends; `z` is the moment before. */
  method FinishMain(s: Scopes) returns (p: Proto, ghost z: Shot)
    requires s.Valid() && |s.fs| == 1
    modifies s, s.vhash
    ensures FramesOk(z.fs, |z.vs|) && |z.fs| == 1 && Settled(z) && Kept(old(Now(s)), z) && Made(Top(z), z.vs, p)
    ensures Sound(p) && p.uv == [] && p.vbase == 0
  {
    hide AllOk, Sound, Kept, Made, Activated, FramesOk;
    FrameThere(s.fs, s.vstack, s.vhash[..]);
    AllFrames(s.fs, s.vstack, s.vhash[..]);
    var f := s.fs[0];
    ghost var a := Now(s);
    s.VarAdd(|f.varmap| - f.nactvar);
    z := Now(s);
    AllFrames(s.fs, s.vstack, s.vhash[..]);
    KeptAdd(a, z, |f.varmap| - f.nactvar);
    p := s.FsFinish();
  }
}
