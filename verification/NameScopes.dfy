/** Names and upvalues of the parser: one stack of variables for all functions
    being compiled, 32 hash chains over the active ones, and for each function
    the upvalues captured so far. */
module NameScopes {
  import opened Upvalues

  const CHAINS := 32
  const VINDEX_NONE := 0xffff

  /** A function being compiled: its first variable, its active variables and
      those declared but not yet active, its upvalues, and the functions finished
      inside it, whose entries are still raw. */
  datatype Frame = Frame(vbase: int, nactvar: int, varmap: seq<int>, uvmap: seq<int>, uvtmp: seq<int>, kids: seq<Proto>)

  datatype Place = Local(slot: int) | Upval(i: int) | Global
  datatype Error = TooManyLocals | TooManyLevels | TooManyUpvalues

  predicate Hashed(v: Var) { v.name >= 0 }
  function HashOf(name: int): int { name % CHAINS }

  // -- Hash chains ---------------------------------------------------------------------

  predicate ActiveOk(active: seq<int>, vs: seq<Var>) {
    && |vs| <= LJ_MAX_VSTACK && (forall k {:trigger active[k]} :: 0 <= k < |active| ==> 0 <= active[k] < |vs|)
    && forall j, k :: 0 <= j < k < |active| ==> active[j] < active[k]
  }

  /** The newest of the first `n` active variables in chain `h`. */
  function Head(active: seq<int>, vs: seq<Var>, n: int, h: int): int
    requires ActiveOk(active, vs) && 0 <= n <= |active|
  {
    if n == 0 then VINDEX_NONE
    else if Hashed(vs[active[n - 1]]) && HashOf(vs[active[n - 1]].name) == h then active[n - 1]
    else Head(active, vs, n - 1, h)
  }

  predicate PrevOk(active: seq<int>, vs: seq<Var>, k: int)
    requires ActiveOk(active, vs) && 0 <= k < |active|
  { Hashed(vs[active[k]]) ==> vs[active[k]].prev == Head(active, vs, k, HashOf(vs[active[k]].name)) }

  predicate ChainsOk(active: seq<int>, vs: seq<Var>, hash: seq<int>) {
    && ActiveOk(active, vs) && |hash| == CHAINS
    && (forall h {:trigger hash[h]} :: 0 <= h < CHAINS ==> hash[h] == Head(active, vs, |active|, h))
    && forall k {:trigger PrevOk(active, vs, k)} :: 0 <= k < |active| ==> PrevOk(active, vs, k)
  }

  /** The newest active variable of that name, searched for one by one. */
  function Newest(active: seq<int>, vs: seq<Var>, n: int, name: int): int
    requires ActiveOk(active, vs) && 0 <= n <= |active|
  {
    if n == 0 then VINDEX_NONE else if vs[active[n - 1]].name == name then active[n - 1] else Newest(active, vs, n - 1, name)
  }

  lemma {:induction false} HeadFacts(active: seq<int>, vs: seq<Var>, n: int, name: int) returns (k: int)
    requires ActiveOk(active, vs) && 0 <= n <= |active| && name >= 0
    ensures var r := Head(active, vs, n, HashOf(name));
      if r == VINDEX_NONE then Newest(active, vs, n, name) == VINDEX_NONE
      else 0 <= k < n && r == active[k] && Hashed(vs[r]) && HashOf(vs[r].name) == HashOf(name) && Newest(active, vs, n, name) == Newest(active, vs, k + 1, name)
  {
    k := 0;
    if n > 0 {
      if Hashed(vs[active[n - 1]]) && HashOf(vs[active[n - 1]].name) == HashOf(name) {
        k := n - 1;
      } else {
        k := HeadFacts(active, vs, n - 1, name);
      }
    }
  }

  /** Chains depend on the variables listed only. */
  lemma {:induction false} HeadSame(active: seq<int>, vs: seq<Var>, active2: seq<int>, vs2: seq<Var>, n: int, h: int)
    requires ActiveOk(active, vs) && ActiveOk(active2, vs2) && 0 <= n <= |active| && n <= |active2|
    requires forall k {:trigger active[k]} :: 0 <= k < n ==> active2[k] == active[k] && vs2[active[k]].name == vs[active[k]].name
    ensures Head(active2, vs2, n, h) == Head(active, vs, n, h)
  {
    if n > 0 { HeadSame(active, vs, active2, vs2, n - 1, h); }
  }

  /** A variable becomes active: it heads its chain. */
  lemma ChainsPush(active: seq<int>, vs: seq<Var>, hash: seq<int>, v: int, vs2: seq<Var>, hash2: seq<int>)
    requires ChainsOk(active, vs, hash) && 0 <= v < |vs| == |vs2| && (active != [] ==> active[|active| - 1] < v)
    requires forall i {:trigger vs2[i]} :: 0 <= i < |vs| ==> vs2[i].name == vs[i].name && (i != v ==> vs2[i] == vs[i])
    requires Hashed(vs[v]) ==> vs2[v].prev == hash[HashOf(vs[v].name)] && hash2 == hash[HashOf(vs[v].name) := v]
    requires !Hashed(vs[v]) ==> hash2 == hash
    ensures ChainsOk(active + [v], vs2, hash2)
  {
    var active2 := active + [v];
    forall j, k | 0 <= j < k < |active2| ensures active2[j] < active2[k] { if k == |active| { assert active2[j] <= active[|active| - 1]; } }
    assert ActiveOk(active2, vs2);
    forall n, h | 0 <= n <= |active| ensures Head(active2, vs2, n, h) == Head(active, vs, n, h) { HeadSame(active, vs, active2, vs2, n, h); }
    forall k | 0 <= k < |active2| ensures PrevOk(active2, vs2, k) { if k < |active| { assert PrevOk(active, vs, k); } }
    forall h | 0 <= h < CHAINS ensures hash2[h] == Head(active2, vs2, |active2|, h) { assert hash[h] == Head(active, vs, |active|, h); }
  }

  /** The newest variable goes: its link is the head again. */
  lemma ChainsPop(active: seq<int>, vs: seq<Var>, hash: seq<int>, hash2: seq<int>)
    requires ChainsOk(active, vs, hash) && active != []
    requires var v := vs[active[|active| - 1]]; hash2 == if Hashed(v) then hash[HashOf(v.name) := v.prev] else hash
    ensures ChainsOk(active[..|active| - 1], vs, hash2)
  {
    var n := |active| - 1;
    var active2 := active[..n];
    assert ActiveOk(active2, vs);
    assert PrevOk(active, vs, n);
    forall m, h | 0 <= m <= n ensures Head(active2, vs, m, h) == Head(active, vs, m, h) { HeadSame(active, vs, active2, vs, m, h); }
    forall k | 0 <= k < n ensures PrevOk(active2, vs, k) { assert PrevOk(active, vs, k); }
    forall h | 0 <= h < CHAINS ensures hash2[h] == Head(active2, vs, n, h) { assert hash[h] == Head(active, vs, |active|, h); }
  }

  /** Variables that are not active may come and go. */
  lemma ChainsKept(active: seq<int>, vs: seq<Var>, hash: seq<int>, vs2: seq<Var>)
    requires ChainsOk(active, vs, hash) && ActiveOk(active, vs2)
    requires forall k {:trigger active[k]} :: 0 <= k < |active| ==> vs2[active[k]].name == vs[active[k]].name && vs2[active[k]].prev == vs[active[k]].prev
    ensures ChainsOk(active, vs2, hash)
  {
    forall n, h | 0 <= n <= |active| ensures Head(active, vs2, n, h) == Head(active, vs, n, h) { HeadSame(active, vs, active, vs2, n, h); }
    forall k | 0 <= k < |active| ensures PrevOk(active, vs2, k) { assert PrevOk(active, vs, k); }
  }

  // -- Functions being compiled ------------------------------------------------------------

  predicate MapsOk(fs: seq<Frame>) { forall k {:trigger fs[k]} :: 0 <= k < |fs| ==> 0 <= fs[k].nactvar <= |fs[k].varmap| }

  /** The active variables of all functions, oldest first. */
  function Flat(fs: seq<Frame>): seq<int>
    requires MapsOk(fs)
  {
    if fs == [] then [] else Flat(fs[..|fs| - 1]) + fs[|fs| - 1].varmap[..fs[|fs| - 1].nactvar]
  }

  /** Where the variables of function `k` end. */
  function End(fs: seq<Frame>, nv: int, k: int): int
    requires 0 <= k < |fs|
  { if k + 1 < |fs| then fs[k + 1].vbase else nv }

  predicate Increasing(s: seq<int>) { forall i, j :: 0 <= i < j < |s| ==> s[i] < s[j] }

  predicate FrameOk(fs: seq<Frame>, nv: int, k: int)
    requires 0 <= k < |fs|
  {
    var f := fs[k];
    && 0 <= f.vbase <= End(fs, nv, k) && 0 <= f.nactvar <= |f.varmap| <= LJ_MAX_LOCVAR
    && (forall i {:trigger f.varmap[i]} :: 0 <= i < |f.varmap| ==> f.vbase <= f.varmap[i] < End(fs, nv, k))
    && Increasing(f.varmap)
  }

  predicate FramesOk(fs: seq<Frame>, nv: int) {
    fs != [] && fs[0].vbase == 0 && forall k {:trigger FrameOk(fs, nv, k)} :: 0 <= k < |fs| ==> FrameOk(fs, nv, k)
  }

  /** An active variable lives in the register of its rank. */
  predicate SlotsOk(fs: seq<Frame>, vs: seq<Var>) {
    && (forall v {:trigger vs[v]} :: 0 <= v < |vs| ==> 0 <= vs[v].slot < LJ_MAX_LOCVAR)
    && forall k, i {:trigger fs[k].varmap[i]} :: 0 <= k < |fs| && 0 <= i < fs[k].nactvar && i < |fs[k].varmap| && 0 <= fs[k].varmap[i] < |vs| ==> vs[fs[k].varmap[i]].slot == i
  }

  /** The upvalues of function `k`, with the one about to be added. */
  function MapWith(fs: seq<Frame>, k: int, fi: int, vidx: int): seq<int>
    requires 0 <= k < |fs|
  { if k == fi then fs[k].uvmap + [vidx] else fs[k].uvmap }

  predicate TmpOk(fs: seq<Frame>, k: int, i: int, fi: int, vidx: int)
    requires 0 <= k < |fs| && 0 <= i < |fs[k].uvmap| == |fs[k].uvtmp|
  {
    && k > 0 && 0 <= fs[k].uvmap[i] < fs[k].vbase
    && var m, e := MapWith(fs, k - 1, fi, vidx), fs[k].uvtmp[i];
      if fs[k].uvmap[i] >= fs[k - 1].vbase then e == fs[k].uvmap[i] else LJ_MAX_VSTACK <= e < LJ_MAX_VSTACK + |m| && m[e - LJ_MAX_VSTACK] == fs[k].uvmap[i]
  }

  predicate UvFrameOk(fs: seq<Frame>, k: int, fi: int, vidx: int)
    requires 0 <= k < |fs|
  {
    && |fs[k].uvmap| == |fs[k].uvtmp| <= LJ_MAX_UPVAL && Distinct(fs[k].uvmap)
    && forall i {:trigger TmpOk(fs, k, i, fi, vidx)} :: 0 <= i < |fs[k].uvmap| ==> TmpOk(fs, k, i, fi, vidx)
  }

  /** Each upvalue names a variable of the enclosing function or its upvalue for
      the same variable; in function `fi`, one for `vidx` is about to be added. */
  predicate UvOk(fs: seq<Frame>, fi: int, vidx: int) {
    forall k {:trigger UvFrameOk(fs, k, fi, vidx)} :: 0 <= k < |fs| ==> UvFrameOk(fs, k, fi, vidx)
  }

  /** A function finished inside `f`, with raw entries. */
  ghost predicate RawOk(f: Frame, end: int, k: Proto) {
    && f.vbase <= k.vbase <= end && Sound(k) && Distinct(k.uvvars)
    && forall i {:trigger RawEntry(f, k, i)} :: 0 <= i < |k.uv| ==> RawEntry(f, k, i)
  }

  predicate RawEntry(f: Frame, k: Proto, i: int)
    requires 0 <= i < |k.uv| == |k.uvvars|
  {
    && 0 <= k.uvvars[i] < k.vbase
    && if k.uvvars[i] >= f.vbase then k.uv[i] == k.uvvars[i]
       else LJ_MAX_VSTACK <= k.uv[i] < LJ_MAX_VSTACK + |f.uvmap| && f.uvmap[k.uv[i] - LJ_MAX_VSTACK] == k.uvvars[i]
  }

  ghost predicate KidsOk(fs: seq<Frame>, nv: int) {
    forall k, n {:trigger fs[k].kids[n]} :: 0 <= k < |fs| && 0 <= n < |fs[k].kids| ==> RawOk(fs[k], End(fs, nv, k), fs[k].kids[n])
  }

  lemma {:induction false} FlatBelow(fs: seq<Frame>, nv: int)
    requires FramesOk(fs, nv)
    ensures MapsOk(fs)
    ensures forall x {:trigger x in Flat(fs)} :: x in Flat(fs) ==> 0 <= x < nv
    ensures fs[|fs| - 1].vbase <= nv
  {
    var n := |fs| - 1;
    forall k | 0 <= k < |fs| ensures 0 <= fs[k].nactvar <= |fs[k].varmap| { assert FrameOk(fs, nv, k); }
    assert FrameOk(fs, nv, n);
    if n == 0 {
      assert fs[..n] == [];
    } else {
      PrefixOk(fs, nv);
      FlatBelow(fs[..n], fs[n].vbase);
    }
  }

  lemma PrefixOk(fs: seq<Frame>, nv: int)
    requires FramesOk(fs, nv) && |fs| > 1
    ensures FramesOk(fs[..|fs| - 1], fs[|fs| - 1].vbase)
  {
    var n := |fs| - 1;
    forall k | 0 <= k < n ensures FrameOk(fs[..n], fs[n].vbase, k) { assert FrameOk(fs, nv, k); }
  }

  /** Only the active variables matter. */
  lemma {:induction false} FlatSame(fs: seq<Frame>, fs2: seq<Frame>)
    requires |fs| == |fs2| && MapsOk(fs)
    requires forall k {:trigger fs2[k]} :: 0 <= k < |fs| ==> fs2[k].nactvar == fs[k].nactvar && fs2[k].varmap == fs[k].varmap
    ensures MapsOk(fs2) && Flat(fs2) == Flat(fs)
  {
    if fs != [] {
      var a, b := fs[..|fs| - 1], fs2[..|fs| - 1];
      assert forall k :: 0 <= k < |a| ==> a[k] == fs[k] && b[k] == fs2[k];
      FlatSame(a, b);
    }
  }

  lemma FlatTop(fs: seq<Frame>, f: Frame)
    requires fs != [] && MapsOk(fs) && 0 <= f.nactvar <= |f.varmap|
    ensures MapsOk(fs[..|fs| - 1]) && MapsOk(fs[|fs| - 1 := f]) && Flat(fs[|fs| - 1 := f]) == Flat(fs[..|fs| - 1]) + f.varmap[..f.nactvar]
  {
    assert fs[|fs| - 1 := f][..|fs| - 1] == fs[..|fs| - 1];
  }

  class Scopes {
    var vstack: seq<Var>
    const vhash: array<int>
    var fs: seq<Frame>

    ghost predicate Valid()
      reads this, vhash
    {
      vhash.Length == CHAINS && AllOk(fs, vstack, vhash[..])
    }

    /** Before the main function. */
    constructor ()
      ensures Valid() && fs == [Frame(0, 0, [], [], [], [])] && vstack == [] && fresh(vhash)
    {
      vstack := [];
      vhash := new int[CHAINS](_ => VINDEX_NONE);
      fs := [Frame(0, 0, [], [], [], [])];
      new;
      EmptyOk(vhash[..]);
    }

    /** A function opens inside the innermost one. */
    method FsInit()
      requires Valid()
      modifies this`fs
      ensures Valid() && fs == old(fs) + [Frame(|vstack|, 0, [], [], [], [])]
    {
      OpenOk(fs, vstack, vhash[..]);
      fs := fs + [Frame(|vstack|, 0, [], [], [], [])];
    }

    /** Declares a variable, the `n`-th that is not yet active. */
    method VarNew(name: int, n: int) returns (err: seq<Error>)
      requires Valid() && fs[|fs| - 1].nactvar + n == |fs[|fs| - 1].varmap|
      modifies this`vstack, this`fs
      ensures err == [] ==> Valid() && vstack == old(vstack) + [Var(name, 0, VINDEX_NONE, false)]
      ensures err == [] ==> fs == old(fs)[|old(fs)| - 1 := old(fs)[|old(fs)| - 1].(varmap := old(fs)[|old(fs)| - 1].varmap + [|old(vstack)|])]
      ensures err != [] ==> vstack == old(vstack) && fs == old(fs) && (fs[|fs| - 1].nactvar + n >= LJ_MAX_LOCVAR || |vstack| >= LJ_MAX_VSTACK)
    {
      var f := fs[|fs| - 1];
      if f.nactvar + n >= LJ_MAX_LOCVAR {
        return [TooManyLocals];
      }
      if |vstack| >= LJ_MAX_VSTACK {
        return [TooManyLevels];
      }
      NewOk(fs, vstack, vhash[..], name);
      fs := fs[|fs| - 1 := f.(varmap := f.varmap + [|vstack|])];
      vstack := vstack + [Var(name, 0, VINDEX_NONE, false)];
      err := [];
    }

    /** The next `nvars` declared variables become active. */
    method VarAdd(nvars: nat)
      requires Valid() && fs[|fs| - 1].nactvar + nvars <= |fs[|fs| - 1].varmap|
      modifies this`vstack, this`fs, vhash
      ensures Valid() && fs == RaisedBy(old(fs), nvars)
      ensures Activated(old(vstack), vstack, old(fs)[|old(fs)| - 1].varmap, old(fs)[|old(fs)| - 1].nactvar, nvars)
    {
      ghost var fs0, vs0 := fs, vstack;
      FrameHere(fs, vstack);
      ActivatedNone(fs, vstack);
      ghost var f0 := fs[|fs| - 1];
      RaisedNone(fs);
      hide Valid, RaisedBy, Activated, Increasing;
      var n := 0;
      while n < nvars
        invariant 0 <= n <= nvars && Valid() && fs == RaisedBy(fs0, n)
        invariant Activated(vs0, vstack, f0.varmap, f0.nactvar, n)
      {
        ghost var vs := vstack;
        RaisedMore(fs0, n);
        Activate();
        ActivatedMore(vs0, vs, vstack, f0.varmap, f0.nactvar, n);
        n := n + 1;
      }
    }

    method Activate()
      requires Valid() && fs[|fs| - 1].nactvar < |fs[|fs| - 1].varmap|
      modifies this`vstack, this`fs, vhash
      ensures Valid() && fs == Raised(old(fs))
      ensures Activated(old(vstack), vstack, old(fs)[|old(fs)| - 1].varmap, old(fs)[|old(fs)| - 1].nactvar, 1)
    {
      var f := fs[|fs| - 1];
      ghost var hash0 := vhash[..];
      ActivateOk(fs, vstack, hash0);
      hide AllOk, Activated;
      var vidx := f.varmap[f.nactvar];
      var v := vstack[vidx].(slot := f.nactvar);
      if Hashed(v) {
        var h := HashOf(v.name);
        v := v.(prev := vhash[h]);
        vhash[h] := vidx;
        assert vhash[..] == hash0[h := vidx];
      }
      ActivatedOne(vstack, f.varmap, f.nactvar, v);
      vstack := vstack[vidx := v];
      fs := fs[|fs| - 1 := f.(nactvar := f.nactvar + 1)];
    }

    /** The active variables of the innermost function from `tolevel` on end. */
    method VarRemove(tolevel: nat)
      requires Valid() && fs[|fs| - 1].nactvar == |fs[|fs| - 1].varmap|
      modifies this`fs, vhash
      ensures Valid() && var f := old(fs)[|old(fs)| - 1]; var n := if tolevel < f.nactvar then tolevel else f.nactvar;
        0 <= n <= |f.varmap| && fs == old(fs)[|old(fs)| - 1 := f.(nactvar := n, varmap := f.varmap[..n])]
    {
      ghost var f0, n0 := fs[|fs| - 1], fs[|fs| - 1].nactvar;
      UpdateSame(fs);
      assert f0.varmap[..n0] == f0.varmap;
      FrameHere(fs, vstack);
      hide AllOk, FramesOk, ChainsOk, SlotsOk, UvOk, KidsOk, MapsOk;
      while fs[|fs| - 1].nactvar > tolevel
        invariant Valid() && |fs| == |old(fs)| > 0 && vstack == old(vstack)
        invariant var n := fs[|fs| - 1].nactvar; 0 <= n <= n0 && (n < tolevel ==> n == n0) && fs == old(fs)[|old(fs)| - 1 := f0.(nactvar := n, varmap := f0.varmap[..n])]
        decreases fs[|fs| - 1].nactvar
      {
        ghost var n := fs[|fs| - 1].nactvar;
        assert f0.varmap[..n][..n - 1] == f0.varmap[..n - 1];
        Deactivate();
      }
    }

    method Deactivate()
      requires Valid() && 0 < fs[|fs| - 1].nactvar == |fs[|fs| - 1].varmap|
      modifies this`fs, vhash
      ensures Valid() && var f := old(fs)[|old(fs)| - 1]; fs == old(fs)[|old(fs)| - 1 := f.(nactvar := f.nactvar - 1, varmap := f.varmap[..f.nactvar - 1])]
    {
      var f := fs[|fs| - 1];
      ghost var hash0 := vhash[..];
      DeactivateOk(fs, vstack, hash0);
      var n := f.nactvar - 1;
      var v := vstack[f.varmap[n]];
      fs := fs[|fs| - 1 := f.(nactvar := n, varmap := f.varmap[..n])];
      if Hashed(v) {
        vhash[HashOf(v.name)] := v.prev;
        assert vhash[..] == hash0[HashOf(v.name) := v.prev];
      }
    }

    /** A variable is assigned to. */
    method Assign(vidx: int)
      requires Valid() && 0 <= vidx < |vstack|
      modifies this`vstack
      ensures Valid() && vstack == old(vstack)[vidx := old(vstack)[vidx].(rw := true)]
    {
      AssignOk(fs, vstack, vhash[..], vidx);
      vstack := vstack[vidx := vstack[vidx].(rw := true)];
    }

    method FindUpval(k: int, vidx: int) returns (i: int)
      requires 0 <= k < |fs|
      ensures -1 <= i < |fs[k].uvmap| && (i >= 0 ==> fs[k].uvmap[i] == vidx) && (i < 0 ==> vidx !in fs[k].uvmap)
    {
      i := 0;
      while i < |fs[k].uvmap|
        invariant 0 <= i <= |fs[k].uvmap| && vidx !in fs[k].uvmap[..i]
      {
        if fs[k].uvmap[i] == vidx {
          return;
        }
        i := i + 1;
      }
      assert fs[k].uvmap[..i] == fs[k].uvmap;
      i := -1;
    }

    /** A variable found: a register of the innermost function, or an upvalue
        that every function between it and the declaring one captures in turn. It
        fails only if a function on the way has no room for it. */
    method VarResolve(vidx: int) returns (err: seq<Error>, e: Place)
      requires Valid() && 0 <= vidx < |vstack|
      modifies this`fs
      ensures err == [] ==> Valid() && GrownOnly(old(fs), fs) && Captured(old(fs), fs, vidx)
      ensures err == [] && vidx >= old(fs)[|old(fs)| - 1].vbase ==> fs == old(fs) && e == Local(vstack[vidx].slot)
      ensures err == [] && vidx < old(fs)[|old(fs)| - 1].vbase ==> e.Upval? && 0 <= e.i < |fs[|fs| - 1].uvmap| && fs[|fs| - 1].uvmap[e.i] == vidx
      ensures err != [] ==> err == [TooManyUpvalues] && NoRoom(old(fs), vidx)
    {
      var top := |fs| - 1;
      e := Local(vstack[vidx].slot);
      err := [];
      if vidx >= fs[top].vbase {
        NoneCaptured(fs, |vstack|, vidx, top);
        return;
      }
      var uvidx := FindUpval(top, vidx);
      if uvidx >= 0 {
        HeldCaptured(fs, |vstack|, vidx, top);
        return [], Upval(uvidx);
      }
      e := Upval(|fs[top].uvmap|);
      ghost var fs0 := fs;
      CaptureStart(fs, |vstack|, vidx);
      var fi, more := top, true;
      hide AllOk, ChainsOk, SlotsOk, KidsOk, UvOk, FramesOk, MapsOk, Flat, Capturing, Captured, GrownOnly, NoRoom;
      while more
        invariant fs0 == old(fs) && |fs| == |fs0| == top + 1 && 0 < fi <= top && Capturing(fs0, fs, |vstack|, fi, more, vidx)
        decreases more, fi
      {
        CaptureFacts(fs0, fs, |vstack|, fi, vidx);
        var nuv := |fs[fi].uvmap|;
        if nuv >= LJ_MAX_UPVAL {
          FullAt(fs0, fi, vidx);
          return [TooManyUpvalues], e;
        }
        var tmp := vidx;
        if vidx >= fs[fi - 1].vbase {
          more := false;
        } else {
          uvidx := FindUpval(fi - 1, vidx);
          if uvidx >= 0 {
            tmp := LJ_MAX_VSTACK + uvidx;
            more := false;
          } else {
            tmp := LJ_MAX_VSTACK + |fs[fi - 1].uvmap|;
          }
        }
        CaptureStep(fs0, fs, |vstack|, fi, vidx, tmp, more);
        fs := fs[fi := fs[fi].(uvmap := fs[fi].uvmap + [vidx], uvtmp := fs[fi].uvtmp + [tmp])];
        if more {
          fi := fi - 1;
        }
      }
      CaptureEnd(fs0, fs, vstack, vhash[..], fi, vidx);
    }

    /** A name: the newest active variable of that name in any of the functions,
        as a register or an upvalue of the innermost one; or else a global. */
    method VarLookup(name: nat) returns (err: seq<Error>, e: Place, vidx: int)
      requires Valid()
      modifies this`fs
      ensures vidx == Newest(old(Flat(fs)), vstack, |old(Flat(fs))|, name) && (err == [] ==> Valid() && GrownOnly(old(fs), fs))
      ensures vidx == VINDEX_NONE ==> err == [] && e == Global && fs == old(fs)
      ensures vidx != VINDEX_NONE ==> 0 <= vidx < |vstack| && (err == [] ==> Captured(old(fs), fs, vidx))
      ensures err == [] && vidx != VINDEX_NONE && vidx >= old(fs)[|old(fs)| - 1].vbase ==> fs == old(fs) && e == Local(vstack[vidx].slot)
      ensures err != [] ==> vidx != VINDEX_NONE && NoRoom(old(fs), vidx)
      ensures err == [] && vidx != VINDEX_NONE && vidx < old(fs)[|old(fs)| - 1].vbase ==> e.Upval? && 0 <= e.i < |fs[|fs| - 1].uvmap| && fs[|fs| - 1].uvmap[e.i] == vidx
    {
      hide FramesOk, SlotsOk, UvOk, KidsOk, Flat, GrownOnly;
      ghost var active := Flat(fs);
      ghost var n := |active|;
      vidx := vhash[HashOf(name)];
      assert vhash[..][HashOf(name)] == vidx;
      ghost var k := HeadFacts(active, vstack, n, name);
      while vidx != VINDEX_NONE
        invariant fs == old(fs) && Valid() && 0 <= n <= |active| && vidx == Head(active, vstack, n, HashOf(name))
        invariant Newest(active, vstack, |active|, name) == Newest(active, vstack, n, name)
        invariant vidx != VINDEX_NONE ==> 0 <= k < n && vidx == active[k] && Hashed(vstack[vidx]) && HashOf(vstack[vidx].name) == HashOf(name) && Newest(active, vstack, n, name) == Newest(active, vstack, k + 1, name)
        invariant vidx == VINDEX_NONE ==> Newest(active, vstack, n, name) == VINDEX_NONE
        decreases n
      {
        if vstack[vidx].name == name {
          err, e := VarResolve(vidx);
          return;
        }
        assert PrevOk(active, vstack, k);
        n := k;
        vidx := vstack[vidx].prev;
        k := HeadFacts(active, vstack, n, name);
      }
      err, e := [], Global;
      GrownSame(fs);
    }

    /** Now that the variables of the innermost function are final, what was
        captured inside it is. */
    method FixKids(kids: seq<Proto>) returns (fixed: seq<Proto>)
      requires forall n {:trigger kids[n]} :: 0 <= n < |kids| ==> forall i {:trigger kids[n].uv[i]} :: 0 <= i < |kids[n].uv| ==> 0 <= kids[n].uv[i] && (kids[n].uv[i] < LJ_MAX_VSTACK ==> kids[n].uv[i] < |vstack|)
      ensures fixed == FixedKids(vstack, kids)
    {
      fixed := [];
      var n := 0;
      while n < |kids|
        invariant 0 <= n <= |kids| && fixed == FixedKids(vstack, kids[..n])
      {
        var uv: seq<int> := [];
        var i := 0;
        while i < |kids[n].uv|
          invariant 0 <= i <= |kids[n].uv| && uv == FixedUv(vstack, kids[n].uv[..i])
        {
          var e := kids[n].uv[i];
          uv := uv + [if e >= LJ_MAX_VSTACK then e - LJ_MAX_VSTACK else Captures(vstack[e])];
          assert kids[n].uv[..i + 1][..i] == kids[n].uv[..i];
          i := i + 1;
        }
        assert kids[n].uv[..i] == kids[n].uv;
        fixed := fixed + [kids[n].(uv := uv)];
        assert kids[..n + 1][..n] == kids[..n];
        n := n + 1;
      }
      assert kids[..n] == kids;
    }

    /** The innermost function is finished: everything captured inside it, at any
        depth, is right. */
    method FsFinish() returns (p: Proto)
      requires Valid() && fs[|fs| - 1].nactvar == |fs[|fs| - 1].varmap|
      modifies this`fs, this`vstack, vhash
      ensures Sound(p) && 0 <= p.vbase <= |old(vstack)| && p.vbase == old(fs)[|old(fs)| - 1].vbase && (|old(fs)| == 1 ==> p.uv == [] && p.vbase == 0)
      ensures Made(old(fs)[|old(fs)| - 1], old(vstack), p)
      ensures |old(fs)| > 1 ==> Valid() && vstack == old(vstack)[..p.vbase] && fs == Left(old(fs), p)
    {
      VarRemove(0);
      var top := |fs| - 1;
      var f := fs[top];
      FinishOk(fs, vstack, vhash[..]);
      FinishedMade(f, vstack);
      var kids := FixKids(f.kids);
      p := Proto(f.vbase, vstack[f.vbase..], f.uvtmp, f.uvmap, kids);
      vstack := vstack[..f.vbase];
      fs := fs[..top];
      if top > 0 {
        fs := fs[top - 1 := fs[top - 1].(kids := fs[top - 1].kids + [p])];
      }
    }
  }

  /** A function on the way is full, and has no upvalue for the variable. */
  ghost predicate NoRoom(fs: seq<Frame>, vidx: int) { exists k {:trigger fs[k]} :: 0 < k < |fs| && |fs[k].uvmap| >= LJ_MAX_UPVAL && vidx !in fs[k].uvmap }

  lemma EmptyOk(hash: seq<int>)
    requires |hash| == CHAINS && forall h {:trigger hash[h]} :: 0 <= h < CHAINS ==> hash[h] == VINDEX_NONE
    ensures AllOk([Frame(0, 0, [], [], [], [])], [], hash)
  {
    var fs := [Frame(0, 0, [], [], [], [])];
    EmptyFlat(fs[0]);
    EmptyChains(hash);
    hide Flat, ChainsOk;
    assert FrameOk(fs, 0, 0) && UvFrameOk(fs, 0, -1, 0);
  }

  lemma EmptyFlat(f: Frame)
    requires f.nactvar == 0 && f.varmap == []
    ensures MapsOk([f]) && Flat([f]) == []
  {
    assert [f][..0] == [];
  }

  lemma EmptyChains(hash: seq<int>)
    requires |hash| == CHAINS && forall h {:trigger hash[h]} :: 0 <= h < CHAINS ==> hash[h] == VINDEX_NONE
    ensures ChainsOk([], [], hash)
  {
  }

  /** The next `n` declared variables have become active, in the registers of their
      ranks; nothing else of any variable but its link has changed. */
  ghost predicate Activated(vs: seq<Var>, vs2: seq<Var>, varmap: seq<int>, nactvar: int, n: int) {
    && |vs2| == |vs| && 0 <= nactvar && 0 <= n && nactvar + n <= |varmap|
    && (forall v {:trigger vs2[v]} :: 0 <= v < |vs| ==> vs2[v].name == vs[v].name && vs2[v].rw == vs[v].rw && (v !in varmap[nactvar..nactvar + n] ==> vs2[v] == vs[v]))
    && forall i {:trigger varmap[i]} :: nactvar <= i < nactvar + n && 0 <= varmap[i] < |vs| ==> vs2[varmap[i]].slot == i
  }

  function RaisedBy(fs: seq<Frame>, n: int): seq<Frame>
    requires fs != []
  { fs[|fs| - 1 := fs[|fs| - 1].(nactvar := fs[|fs| - 1].nactvar + n)] }

  lemma RaisedNone(fs: seq<Frame>)
    requires fs != []
    ensures RaisedBy(fs, 0) == fs
  {
  }

  lemma RaisedMore(fs: seq<Frame>, n: int)
    requires fs != []
    ensures var a := RaisedBy(fs, n);
      |a| == |fs| && a[|fs| - 1].varmap == fs[|fs| - 1].varmap && a[|fs| - 1].nactvar == fs[|fs| - 1].nactvar + n && Raised(a) == RaisedBy(fs, n + 1)
  {
  }

  lemma ActivatedOne(vs: seq<Var>, varmap: seq<int>, nactvar: int, w: Var)
    requires 0 <= nactvar < |varmap| && 0 <= varmap[nactvar] < |vs|
    requires w.name == vs[varmap[nactvar]].name && w.rw == vs[varmap[nactvar]].rw && w.slot == nactvar
    ensures Activated(vs, vs[varmap[nactvar] := w], varmap, nactvar, 1)
  {
    assert varmap[nactvar..nactvar + 1] == [varmap[nactvar]];
  }

  lemma ActivatedNone(fs: seq<Frame>, vs: seq<Var>)
    requires FramesOk(fs, |vs|)
    ensures fs != [] && Activated(vs, vs, fs[|fs| - 1].varmap, fs[|fs| - 1].nactvar, 0)
  {
    FrameHere(fs, vs);
  }

  lemma ActivatedMore(vs: seq<Var>, vs1: seq<Var>, vs2: seq<Var>, varmap: seq<int>, nactvar: int, n: int)
    requires Activated(vs, vs1, varmap, nactvar, n) && Activated(vs1, vs2, varmap, nactvar + n, 1)
    requires Increasing(varmap)
    ensures Activated(vs, vs2, varmap, nactvar, n + 1)
  {
    var m := nactvar + n;
    assert varmap[nactvar..m + 1] == varmap[nactvar..m] + [varmap[m]] && varmap[m..m + 1] == [varmap[m]];
    forall v {:trigger vs2[v]} | 0 <= v < |vs|
      ensures vs2[v].name == vs[v].name && vs2[v].rw == vs[v].rw && (v !in varmap[nactvar..m + 1] ==> vs2[v] == vs[v])
    {
      assert vs1[v].name == vs[v].name;
    }
    forall i {:trigger varmap[i]} | nactvar <= i < m + 1 && 0 <= varmap[i] < |vs|
      ensures vs2[varmap[i]].slot == i
    {
      if i < m { assert vs2[varmap[i]] == vs1[varmap[i]]; }
    }
  }

  lemma UpdateSame(fs: seq<Frame>)
    requires fs != []
    ensures fs[|fs| - 1 := fs[|fs| - 1].(nactvar := fs[|fs| - 1].nactvar + 0)] == fs
  {
  }

  // -- What each operation keeps ------------------------------------------------------------

  ghost predicate AllOk(fs: seq<Frame>, vs: seq<Var>, hash: seq<int>) {
    && FramesOk(fs, |vs|) && MapsOk(fs) && ChainsOk(Flat(fs), vs, hash) && SlotsOk(fs, vs)
    && UvOk(fs, -1, 0) && fs[0].uvmap == [] && KidsOk(fs, |vs|)
  }

  /** Frames that differ only in what they have declared capture the same. */
  lemma UvSame(fs: seq<Frame>, fs2: seq<Frame>)
    requires UvOk(fs, -1, 0) && |fs| <= |fs2|
    requires forall k {:trigger fs2[k]} :: 0 <= k < |fs| ==> fs2[k].vbase == fs[k].vbase && fs2[k].uvmap == fs[k].uvmap && fs2[k].uvtmp == fs[k].uvtmp
    requires forall k {:trigger fs2[k]} :: |fs| <= k < |fs2| ==> fs2[k].uvmap == [] && fs2[k].uvtmp == []
    ensures UvOk(fs2, -1, 0)
  {
    forall k | 0 <= k < |fs2| ensures UvFrameOk(fs2, k, -1, 0) {
      if k < |fs| {
        assert UvFrameOk(fs, k, -1, 0);
        forall i | 0 <= i < |fs2[k].uvmap| ensures TmpOk(fs2, k, i, -1, 0) {
          assert TmpOk(fs, k, i, -1, 0);
          assert k > 0 ==> fs2[k - 1].uvmap == fs[k - 1].uvmap;
        }
      }
    }
  }

  /** Frames that differ only in what they have declared hold the same. */
  lemma KidsSame(fs: seq<Frame>, nv: int, fs2: seq<Frame>, nv2: int)
    requires KidsOk(fs, nv) && fs != [] && |fs| <= |fs2| && nv <= nv2
    requires forall k {:trigger fs2[k]} :: 0 <= k < |fs| ==> fs2[k].vbase == fs[k].vbase && fs2[k].kids == fs[k].kids && fs[k].uvmap <= fs2[k].uvmap
    requires (forall k {:trigger fs2[k]} :: |fs| <= k < |fs2| ==> fs2[k].kids == [] && fs2[k].vbase >= nv)
    ensures KidsOk(fs2, nv2)
  {
    forall k, n | 0 <= k < |fs2| && 0 <= n < |fs2[k].kids| ensures RawOk(fs2[k], End(fs2, nv2, k), fs2[k].kids[n]) {
      var p := fs[k].kids[n];
      assert RawOk(fs[k], End(fs, nv, k), p);
      forall i | 0 <= i < |p.uv| ensures RawEntry(fs2[k], p, i) { assert RawEntry(fs[k], p, i); }
    }
  }

  lemma OpenOk(fs: seq<Frame>, vs: seq<Var>, hash: seq<int>)
    requires AllOk(fs, vs, hash)
    ensures AllOk(fs + [Frame(|vs|, 0, [], [], [], [])], vs, hash)
  {
    var fs2 := fs + [Frame(|vs|, 0, [], [], [], [])];
    FlatBelow(fs, |vs|);
    forall k | 0 <= k < |fs2| ensures FrameOk(fs2, |vs|, k) { if k < |fs| { assert FrameOk(fs, |vs|, k); } }
    assert fs2[..|fs|] == fs;
    assert MapsOk(fs2);
    assert Flat(fs2) == Flat(fs) + [] == Flat(fs);
    UvSame(fs, fs2);
    KidsSame(fs, |vs|, fs2, |vs|);
  }

  function Declared(fs: seq<Frame>, v: int): seq<Frame>
    requires fs != []
  { fs[|fs| - 1 := fs[|fs| - 1].(varmap := fs[|fs| - 1].varmap + [v])] }

  lemma NewOk(fs: seq<Frame>, vs: seq<Var>, hash: seq<int>, name: int)
    requires AllOk(fs, vs, hash) && |vs| < LJ_MAX_VSTACK && |fs[|fs| - 1].varmap| < LJ_MAX_LOCVAR
    ensures AllOk(Declared(fs, |vs|), vs + [Var(name, 0, VINDEX_NONE, false)], hash)
  {
    var fs2, vs2 := Declared(fs, |vs|), vs + [Var(name, 0, VINDEX_NONE, false)];
    NewFrames(fs, vs, vs2);
    hide FramesOk, SlotsOk, UvOk, KidsOk;
    NewFlat(fs, |vs|);
    ActiveKept(Flat(fs), vs, vs2);
    ChainsKept(Flat(fs), vs, hash, vs2);
  }

  lemma NewFlat(fs: seq<Frame>, v: int)
    requires fs != [] && MapsOk(fs)
    ensures MapsOk(Declared(fs, v)) && Flat(Declared(fs, v)) == Flat(fs)
  {
    var f, t := fs[|fs| - 1], |fs| - 1;
    FlatTop(fs, Declared(fs, v)[t]);
    assert fs[t := f] == fs;
    FlatTop(fs, f);
    assert Declared(fs, v)[t].varmap[..f.nactvar] == f.varmap[..f.nactvar];
  }

  lemma NewFrames(fs: seq<Frame>, vs: seq<Var>, vs2: seq<Var>)
    requires FramesOk(fs, |vs|) && MapsOk(fs) && SlotsOk(fs, vs) && UvOk(fs, -1, 0) && fs[0].uvmap == [] && KidsOk(fs, |vs|)
    requires |fs[|fs| - 1].varmap| < LJ_MAX_LOCVAR && |vs2| == |vs| + 1 && vs <= vs2 && vs2[|vs|].slot == 0
    ensures var fs2 := Declared(fs, |vs|); FramesOk(fs2, |vs2|) && SlotsOk(fs2, vs2) && UvOk(fs2, -1, 0) && fs2[0].uvmap == [] && KidsOk(fs2, |vs2|)
  {
    var fs2 := Declared(fs, |vs|);
    assert FrameOk(fs, |vs|, |fs| - 1);
    forall k | 0 <= k < |fs2| ensures FrameOk(fs2, |vs2|, k) { assert FrameOk(fs, |vs|, k); }
    NewSlots(fs, vs, fs2, vs2);
    UvSame(fs, fs2);
    KidsSame(fs, |vs|, fs2, |vs2|);
  }

  lemma NewSlots(fs: seq<Frame>, vs: seq<Var>, fs2: seq<Frame>, vs2: seq<Var>)
    requires FramesOk(fs, |vs|) && SlotsOk(fs, vs) && |vs2| == |vs| + 1 && vs <= vs2 && vs2[|vs|].slot == 0
    requires var t := |fs| - 1; fs2 == fs[t := fs[t].(varmap := fs[t].varmap + [|vs|])]
    ensures SlotsOk(fs2, vs2)
  {
    forall k, i | 0 <= k < |fs2| && 0 <= i < fs2[k].nactvar && i < |fs2[k].varmap| && 0 <= fs2[k].varmap[i] < |vs2| ensures vs2[fs2[k].varmap[i]].slot == i {
      assert FrameOk(fs, |vs|, k);
      assert fs2[k].varmap[i] == fs[k].varmap[i];
      if k + 1 < |fs| { EndsUp(fs, |vs|, k + 1, |fs| - 1); assert FrameOk(fs, |vs|, |fs| - 1); }
    }
  }

  lemma ActiveKept(active: seq<int>, vs: seq<Var>, vs2: seq<Var>)
    requires ActiveOk(active, vs) && |vs| <= |vs2| <= LJ_MAX_VSTACK
    ensures ActiveOk(active, vs2)
  {
  }

  function Raised(fs: seq<Frame>): seq<Frame>
    requires fs != []
  { fs[|fs| - 1 := fs[|fs| - 1].(nactvar := fs[|fs| - 1].nactvar + 1)] }

  lemma ActivateOk(fs: seq<Frame>, vs: seq<Var>, hash: seq<int>)
    requires AllOk(fs, vs, hash) && fs[|fs| - 1].nactvar < |fs[|fs| - 1].varmap|
    ensures var f := fs[|fs| - 1]; 0 <= f.nactvar && var x := f.varmap[f.nactvar];
      && 0 <= x < |vs| && |hash| == CHAINS
      && var v := vs[x].(slot := f.nactvar);
      if Hashed(v) then AllOk(Raised(fs), vs[x := v.(prev := hash[HashOf(v.name)])], hash[HashOf(v.name) := x])
      else AllOk(Raised(fs), vs[x := v], hash)
  {
    var f := fs[|fs| - 1];
    assert FrameOk(fs, |vs|, |fs| - 1);
    var x := f.varmap[f.nactvar];
    var v := vs[x].(slot := f.nactvar);
    var w := if Hashed(v) then v.(prev := hash[HashOf(v.name)]) else v;
    RaisedFrames(fs, vs, w);
    RaisedFlat(fs);
    LastBelow(fs, |vs|, x);
    hide FramesOk, FrameOk, SlotsOk, UvOk, KidsOk, Flat, ChainsOk;
    ChainsPush(Flat(fs), vs, hash, x, vs[x := w], if Hashed(v) then hash[HashOf(v.name) := x] else hash);
  }

  lemma RaisedFlat(fs: seq<Frame>)
    requires fs != [] && MapsOk(fs) && fs[|fs| - 1].nactvar < |fs[|fs| - 1].varmap|
    ensures MapsOk(Raised(fs)) && Flat(Raised(fs)) == Flat(fs) + [fs[|fs| - 1].varmap[fs[|fs| - 1].nactvar]]
  {
    var f, t := fs[|fs| - 1], |fs| - 1;
    FlatTop(fs, Raised(fs)[t]);
    assert fs[t := f] == fs;
    FlatTop(fs, f);
    assert f.varmap[..f.nactvar + 1] == f.varmap[..f.nactvar] + [f.varmap[f.nactvar]];
  }

  lemma RaisedFrames(fs: seq<Frame>, vs: seq<Var>, w: Var)
    requires FramesOk(fs, |vs|) && MapsOk(fs) && SlotsOk(fs, vs) && UvOk(fs, -1, 0) && fs[0].uvmap == [] && KidsOk(fs, |vs|) && fs[|fs| - 1].nactvar < |fs[|fs| - 1].varmap|
    requires w.slot == fs[|fs| - 1].nactvar
    ensures var x := fs[|fs| - 1].varmap[fs[|fs| - 1].nactvar]; 0 <= x < |vs| && var vs2 := vs[x := w];
      FramesOk(Raised(fs), |vs2|) && SlotsOk(Raised(fs), vs2) && UvOk(Raised(fs), -1, 0) && Raised(fs)[0].uvmap == [] && KidsOk(Raised(fs), |vs2|)
  {
    var f, fs2 := fs[|fs| - 1], Raised(fs);
    assert FrameOk(fs, |vs|, |fs| - 1);
    forall k | 0 <= k < |fs2| ensures FrameOk(fs2, |vs|, k) { assert FrameOk(fs, |vs|, k); }
    ActivateSlots(fs, vs, fs2, vs[f.varmap[f.nactvar] := w]);
    UvSame(fs, fs2);
    KidsSame(fs, |vs|, fs2, |vs|);
  }

  /** A variable not yet active is newer than all that are. */
  lemma LastBelow(fs: seq<Frame>, nv: int, x: int)
    requires FramesOk(fs, nv) && MapsOk(fs) && fs[|fs| - 1].nactvar < |fs[|fs| - 1].varmap| && x == fs[|fs| - 1].varmap[fs[|fs| - 1].nactvar]
    ensures Flat(fs) != [] ==> Flat(fs)[|Flat(fs)| - 1] < x
  {
    var t := |fs| - 1;
    var f := fs[t];
    assert FrameOk(fs, nv, t);
    var a := fs[..t];
    if f.nactvar == 0 && Flat(fs) != [] {
      assert Flat(fs) == Flat(a) + [];
      if t > 0 {
        PrefixOk(fs, nv);
        FlatBelow(a, f.vbase);
        assert Flat(a)[|Flat(a)| - 1] in Flat(a);
      }
    }
  }

  lemma ActivateSlots(fs: seq<Frame>, vs: seq<Var>, fs2: seq<Frame>, vs2: seq<Var>)
    requires FramesOk(fs, |vs|) && SlotsOk(fs, vs) && var t := |fs| - 1; var f := fs[t]; 0 <= f.nactvar < |f.varmap| && var x := f.varmap[f.nactvar];
      && 0 <= x < |vs| == |vs2| && fs2 == fs[t := f.(nactvar := f.nactvar + 1)] && vs2[x].slot == f.nactvar < LJ_MAX_LOCVAR && forall v {:trigger vs2[v]} :: 0 <= v < |vs| && v != x ==> vs2[v] == vs[v]
    ensures SlotsOk(fs2, vs2)
  {
    var t := |fs| - 1;
    assert FrameOk(fs, |vs|, t);
    forall k, i | 0 <= k < |fs2| && 0 <= i < fs2[k].nactvar && i < |fs2[k].varmap| && 0 <= fs2[k].varmap[i] < |vs2| ensures vs2[fs2[k].varmap[i]].slot == i {
      assert FrameOk(fs, |vs|, k);
      if k < t { EndsUp(fs, |vs|, k + 1, t); } else if i < fs[t].nactvar { assert fs[t].varmap[i] < fs[t].varmap[fs[t].nactvar]; }
      assert fs[k].varmap[i] == fs2[k].varmap[i];
    }
  }

  lemma {:induction false} EndsUp(fs: seq<Frame>, nv: int, j: int, k: int)
    requires FramesOk(fs, nv) && 0 <= j <= k < |fs|
    ensures fs[j].vbase <= fs[k].vbase
    decreases k - j
  {
    if j < k {
      assert FrameOk(fs, nv, j);
      EndsUp(fs, nv, j + 1, k);
    }
  }

  lemma FrameHere(fs: seq<Frame>, vs: seq<Var>)
    requires FramesOk(fs, |vs|)
    ensures fs != [] && 0 <= fs[|fs| - 1].nactvar <= |fs[|fs| - 1].varmap|
    ensures Increasing(fs[|fs| - 1].varmap)
  {
    assert FrameOk(fs, |vs|, |fs| - 1);
  }

  function Popped(fs: seq<Frame>): seq<Frame>
    requires fs != [] && 0 < fs[|fs| - 1].nactvar <= |fs[|fs| - 1].varmap|
  { fs[|fs| - 1 := fs[|fs| - 1].(nactvar := fs[|fs| - 1].nactvar - 1, varmap := fs[|fs| - 1].varmap[..fs[|fs| - 1].nactvar - 1])] }

  lemma DeactivateOk(fs: seq<Frame>, vs: seq<Var>, hash: seq<int>)
    requires AllOk(fs, vs, hash) && 0 < fs[|fs| - 1].nactvar == |fs[|fs| - 1].varmap|
    ensures var f := fs[|fs| - 1]; var x := f.varmap[f.nactvar - 1];
      && 0 <= x < |vs| && |hash| == CHAINS
      && AllOk(Popped(fs), vs, if Hashed(vs[x]) then hash[HashOf(vs[x].name) := vs[x].prev] else hash)
  {
    PoppedFrames(fs, vs);
    var f := fs[|fs| - 1];
    var x := f.varmap[f.nactvar - 1];
    hide FramesOk, SlotsOk, UvOk, KidsOk;
    FlatPop(fs);
    ChainsPop(Flat(fs), vs, hash, if Hashed(vs[x]) then hash[HashOf(vs[x].name) := vs[x].prev] else hash);
  }

  lemma PoppedFrames(fs: seq<Frame>, vs: seq<Var>)
    requires FramesOk(fs, |vs|) && MapsOk(fs) && SlotsOk(fs, vs) && UvOk(fs, -1, 0) && fs[0].uvmap == [] && KidsOk(fs, |vs|) && 0 < fs[|fs| - 1].nactvar == |fs[|fs| - 1].varmap|
    ensures var fs2 := Popped(fs); FramesOk(fs2, |vs|) && MapsOk(fs2) && SlotsOk(fs2, vs) && UvOk(fs2, -1, 0) && fs2[0].uvmap == [] && KidsOk(fs2, |vs|)
    ensures 0 <= fs[|fs| - 1].varmap[fs[|fs| - 1].nactvar - 1] < |vs|
  {
    var fs2 := Popped(fs);
    assert FrameOk(fs, |vs|, |fs| - 1);
    forall k | 0 <= k < |fs2| ensures FrameOk(fs2, |vs|, k) { assert FrameOk(fs, |vs|, k); }
    DeactivateSlots(fs, vs, fs2);
    UvSame(fs, fs2);
    KidsSame(fs, |vs|, fs2, |vs|);
  }

  lemma FlatPop(fs: seq<Frame>)
    requires fs != [] && MapsOk(fs) && var f := fs[|fs| - 1]; 0 < f.nactvar == |f.varmap|
    ensures var f := fs[|fs| - 1]; var n := f.nactvar - 1; var fs2 := fs[|fs| - 1 := f.(nactvar := n, varmap := f.varmap[..n])];
      MapsOk(fs2) && Flat(fs) == Flat(fs2) + [f.varmap[n]] && Flat(fs)[..|Flat(fs)| - 1] == Flat(fs2)
  {
    var f, t := fs[|fs| - 1], |fs| - 1;
    var n := f.nactvar - 1;
    var fs2 := fs[t := f.(nactvar := n, varmap := f.varmap[..n])];
    FlatTop(fs, fs2[t]);
    assert fs[t := f] == fs;
    FlatTop(fs, f);
    assert fs2[t].varmap[..n] == f.varmap[..n] && f.varmap[..n + 1] == f.varmap[..n] + [f.varmap[n]];
  }

  lemma DeactivateSlots(fs: seq<Frame>, vs: seq<Var>, fs2: seq<Frame>)
    requires SlotsOk(fs, vs) && fs != [] && var t := |fs| - 1; var f := fs[t]; 0 < f.nactvar == |f.varmap| && fs2 == fs[t := f.(nactvar := f.nactvar - 1, varmap := f.varmap[..f.nactvar - 1])]
    ensures SlotsOk(fs2, vs)
  {
    forall k, i | 0 <= k < |fs2| && 0 <= i < fs2[k].nactvar && i < |fs2[k].varmap| && 0 <= fs2[k].varmap[i] < |vs| ensures vs[fs2[k].varmap[i]].slot == i {
      assert fs[k].varmap[i] == fs2[k].varmap[i];
    }
  }

  lemma AssignOk(fs: seq<Frame>, vs: seq<Var>, hash: seq<int>, v: int)
    requires AllOk(fs, vs, hash) && 0 <= v < |vs|
    ensures AllOk(fs, vs[v := vs[v].(rw := true)], hash)
  {
    var vs2 := vs[v := vs[v].(rw := true)];
    ActiveKept(Flat(fs), vs, vs2);
    ChainsKept(Flat(fs), vs, hash, vs2);
  }

  /** Functions have captured more, and nothing else has changed. */
  ghost predicate GrownOnly(fs: seq<Frame>, fs2: seq<Frame>) {
    |fs2| == |fs| && forall k {:trigger fs2[k]} {:trigger fs[k]} :: 0 <= k < |fs| ==>
      fs2[k].vbase == fs[k].vbase && fs2[k].nactvar == fs[k].nactvar && fs2[k].varmap == fs[k].varmap && fs2[k].kids == fs[k].kids && fs[k].uvmap <= fs2[k].uvmap
  }

  /** The upvalues of a function once a variable further out is used inside it. */
  function With(f: Frame, v: int): seq<int> { if v < f.vbase && v !in f.uvmap then f.uvmap + [v] else f.uvmap }

  /** Every function inside the declaring one holds the variable now, and nothing
      else is captured. */
  ghost predicate Captured(fs: seq<Frame>, fs2: seq<Frame>, v: int) {
    |fs2| == |fs| && forall k {:trigger fs2[k]} :: 0 <= k < |fs| ==> fs2[k] == fs[k].(uvmap := With(fs[k], v), uvtmp := fs2[k].uvtmp)
  }

  /** The first `n + 1` functions hold the variable already where they need to. */
  ghost predicate Held(fs: seq<Frame>, v: int, n: int) { forall k {:trigger fs[k]} :: 0 <= k <= n && k < |fs| ==> With(fs[k], v) == fs[k].uvmap }

  /** A variable is being captured: functions from `fi` on have it, or all but
      `fi`, which is next. */
  ghost predicate Capturing(fs0: seq<Frame>, fs: seq<Frame>, nv: int, fi: int, more: bool, v: int) {
    && FramesOk(fs0, nv) && UvOk(fs0, -1, 0) && |fs| == |fs0| && 0 < fi < |fs0| && GrownOnly(fs0, fs)
    && (forall k {:trigger fs[k]} :: 0 <= k < fi || (k == fi && more) ==> fs[k] == fs0[k])
    && (forall k {:trigger fs[k]} :: fi <= k < |fs0| && !(k == fi && more) ==> v < fs0[k].vbase && v !in fs0[k].uvmap && fs[k].uvmap == fs0[k].uvmap + [v])
    && if more then UvOk(fs, fi, v) && v !in fs[fi].uvmap && 0 <= v < fs[fi].vbase else UvOk(fs, -1, 0) && Held(fs0, v, fi - 1)
  }

  lemma CaptureStart(fs: seq<Frame>, nv: int, v: int)
    requires FramesOk(fs, nv) && UvOk(fs, -1, 0) && 0 <= v < fs[|fs| - 1].vbase && v !in fs[|fs| - 1].uvmap
    ensures |fs| > 1 && Capturing(fs, fs, nv, |fs| - 1, true, v)
  {
    UvMore(fs, -1, 0, |fs| - 1, v);
  }

  lemma CaptureFacts(fs0: seq<Frame>, fs: seq<Frame>, nv: int, fi: int, v: int)
    requires Capturing(fs0, fs, nv, fi, true, v)
    ensures fs[fi] == fs0[fi] && fs[fi - 1] == fs0[fi - 1] && v !in fs[fi].uvmap && 0 <= v < fs[fi].vbase
  {
  }

  lemma FullAt(fs: seq<Frame>, fi: int, v: int)
    requires 0 < fi < |fs| && |fs[fi].uvmap| >= LJ_MAX_UPVAL && v !in fs[fi].uvmap
    ensures NoRoom(fs, v)
  {
  }

  lemma CaptureStep(fs0: seq<Frame>, fs: seq<Frame>, nv: int, fi: int, v: int, tmp: int, more: bool)
    requires Capturing(fs0, fs, nv, fi, true, v) && |fs[fi].uvmap| < LJ_MAX_UPVAL
    requires if v >= fs[fi - 1].vbase then tmp == v && !more
             else if more then tmp == LJ_MAX_VSTACK + |fs[fi - 1].uvmap| && v !in fs[fi - 1].uvmap
             else 0 <= tmp - LJ_MAX_VSTACK < |fs[fi - 1].uvmap| && fs[fi - 1].uvmap[tmp - LJ_MAX_VSTACK] == v
    ensures var fi2 := if more then fi - 1 else fi;
      0 < fi2 && Capturing(fs0, fs[fi := fs[fi].(uvmap := fs[fi].uvmap + [v], uvtmp := fs[fi].uvtmp + [tmp])], nv, fi2, more, v)
  {
    UvPush(fs, fi, v, tmp, more);
    RootBase(fs0, nv);
    if !more {
      if v >= fs[fi - 1].vbase { NoneHeld(fs0, nv, v, fi - 1); } else { HeldOn(fs0, nv, v, fi - 1); }
    }
    hide UvOk, FramesOk, Held;
  }

  lemma CaptureEnd(fs0: seq<Frame>, fs: seq<Frame>, vs: seq<Var>, hash: seq<int>, fi: int, v: int)
    requires AllOk(fs0, vs, hash) && Capturing(fs0, fs, |vs|, fi, false, v)
    ensures AllOk(fs, vs, hash) && GrownOnly(fs0, fs) && Captured(fs0, fs, v) && fs[|fs| - 1].uvmap == fs0[|fs| - 1].uvmap + [v]
  {
    GrownOk(fs0, fs, vs, hash);
    AllCaptured(fs0, fs, v, fi);
  }

  lemma NoneHeld(fs: seq<Frame>, nv: int, v: int, n: int)
    requires FramesOk(fs, nv) && 0 <= n < |fs| && v >= fs[n].vbase
    ensures Held(fs, v, n)
  {
    forall k {:trigger fs[k]} | 0 <= k <= n ensures With(fs[k], v) == fs[k].uvmap { EndsUp(fs, nv, k, n); }
  }

  /** A function that holds a variable has it from the enclosing one. */
  lemma {:induction false} HeldOn(fs: seq<Frame>, nv: int, v: int, n: int)
    requires FramesOk(fs, nv) && UvOk(fs, -1, 0) && 0 <= n < |fs| && v in fs[n].uvmap
    ensures Held(fs, v, n)
  {
    assert UvFrameOk(fs, n, -1, 0);
    var i :| 0 <= i < |fs[n].uvmap| && fs[n].uvmap[i] == v;
    assert TmpOk(fs, n, i, -1, 0);
    if v >= fs[n - 1].vbase { NoneHeld(fs, nv, v, n - 1); } else { HeldOn(fs, nv, v, n - 1); }
  }

  lemma AllCaptured(fs: seq<Frame>, fs2: seq<Frame>, v: int, fi: int)
    requires GrownOnly(fs, fs2) && 0 < fi <= |fs| && Held(fs, v, fi - 1)
    requires (forall k {:trigger fs2[k]} :: 0 <= k < fi ==> fs2[k] == fs[k]) && forall k {:trigger fs2[k]} :: fi <= k < |fs| ==> fs2[k].uvmap == With(fs[k], v)
    ensures Captured(fs, fs2, v)
  {
  }

  lemma NoneCaptured(fs: seq<Frame>, nv: int, v: int, n: int)
    requires FramesOk(fs, nv) && n == |fs| - 1 && v >= fs[n].vbase
    ensures Captured(fs, fs, v)
  {
    NoneHeld(fs, nv, v, n);
  }

  lemma HeldCaptured(fs: seq<Frame>, nv: int, v: int, n: int)
    requires FramesOk(fs, nv) && UvOk(fs, -1, 0) && n == |fs| - 1 >= 0 && v in fs[n].uvmap
    ensures Captured(fs, fs, v)
  {
    HeldOn(fs, nv, v, n);
  }

  lemma GrownSame(fs: seq<Frame>)
    ensures GrownOnly(fs, fs)
  {
  }

  lemma RootBase(fs: seq<Frame>, nv: int)
    requires FramesOk(fs, nv)
    ensures fs != [] && fs[0].vbase == 0
  {
  }

  /** A longer list of upvalues serves the functions inside as well. */
  lemma UvMore(fs: seq<Frame>, fi: int, v: int, fi2: int, v2: int)
    requires UvOk(fs, fi, v) && fi == -1
    ensures UvOk(fs, fi2, v2)
  {
    forall k | 0 <= k < |fs| ensures UvFrameOk(fs, k, fi2, v2) {
      assert UvFrameOk(fs, k, fi, v);
      forall i | 0 <= i < |fs[k].uvmap| ensures TmpOk(fs, k, i, fi2, v2) { assert TmpOk(fs, k, i, fi, v); }
    }
  }

  lemma UvPush(fs: seq<Frame>, fi: int, vidx: int, tmp: int, more: bool)
    requires 0 < fi < |fs| && UvOk(fs, fi, vidx) && 0 <= vidx < fs[fi].vbase && vidx !in fs[fi].uvmap && |fs[fi].uvmap| < LJ_MAX_UPVAL
    requires if vidx >= fs[fi - 1].vbase then tmp == vidx && !more
             else if more then tmp == LJ_MAX_VSTACK + |fs[fi - 1].uvmap|
             else 0 <= tmp - LJ_MAX_VSTACK < |fs[fi - 1].uvmap| && fs[fi - 1].uvmap[tmp - LJ_MAX_VSTACK] == vidx
    ensures UvOk(fs[fi := fs[fi].(uvmap := fs[fi].uvmap + [vidx], uvtmp := fs[fi].uvtmp + [tmp])], if more then fi - 1 else -1, if more then vidx else 0)
  {
    var fs2 := fs[fi := fs[fi].(uvmap := fs[fi].uvmap + [vidx], uvtmp := fs[fi].uvtmp + [tmp])];
    var (fi2, v2) := if more then (fi - 1, vidx) else (-1, 0);
    forall k | 0 <= k < |fs2| ensures UvFrameOk(fs2, k, fi2, v2) {
      assert UvFrameOk(fs, k, fi, vidx);
      forall i | 0 <= i < |fs2[k].uvmap| && |fs2[k].uvmap| == |fs2[k].uvtmp| ensures TmpOk(fs2, k, i, fi2, v2) {
        if i < |fs[k].uvmap| { assert TmpOk(fs, k, i, fi, vidx); }
      }
    }
  }

  lemma GrownOk(fs: seq<Frame>, fs2: seq<Frame>, vs: seq<Var>, hash: seq<int>)
    requires AllOk(fs, vs, hash) && GrownOnly(fs, fs2) && UvOk(fs2, -1, 0) && fs2[0].uvmap == []
    ensures AllOk(fs2, vs, hash)
  {
    forall k | 0 <= k < |fs2| ensures FrameOk(fs2, |vs|, k) { assert FrameOk(fs, |vs|, k); }
    FlatSame(fs, fs2);
    KidsSame(fs, |vs|, fs2, |vs|);
    forall k, i | 0 <= k < |fs2| && 0 <= i < fs2[k].nactvar && i < |fs2[k].varmap| && 0 <= fs2[k].varmap[i] < |vs| ensures vs[fs2[k].varmap[i]].slot == i {
      assert fs[k].varmap[i] == fs2[k].varmap[i];
    }
  }

  // -- Finishing a function ---------------------------------------------------------------------

  function FixedUv(vs: seq<Var>, uv: seq<int>): (r: seq<int>)
    ensures |r| == |uv|
  {
    if uv == [] then []
    else
      var e := uv[|uv| - 1];
      FixedUv(vs, uv[..|uv| - 1]) + [if e >= LJ_MAX_VSTACK then e - LJ_MAX_VSTACK else if 0 <= e < |vs| then Captures(vs[e]) else 0]
  }

  function FixedKids(vs: seq<Var>, kids: seq<Proto>): (r: seq<Proto>)
    ensures |r| == |kids|
  {
    if kids == [] then [] else FixedKids(vs, kids[..|kids| - 1]) + [kids[|kids| - 1].(uv := FixedUv(vs, kids[|kids| - 1].uv))]
  }

  lemma {:induction false} FixedAt(vs: seq<Var>, uv: seq<int>, i: int)
    requires 0 <= i < |uv|
    ensures FixedUv(vs, uv)[i] == var e := uv[i]; if e >= LJ_MAX_VSTACK then e - LJ_MAX_VSTACK else if 0 <= e < |vs| then Captures(vs[e]) else 0
  {
    if i < |uv| - 1 { FixedAt(vs, uv[..|uv| - 1], i); }
  }

  lemma {:induction false} KidAt(vs: seq<Var>, kids: seq<Proto>, n: int)
    requires 0 <= n < |kids|
    ensures FixedKids(vs, kids)[n] == kids[n].(uv := FixedUv(vs, kids[n].uv))
  {
    if n < |kids| - 1 { KidAt(vs, kids[..|kids| - 1], n); }
  }

  /** A finished function: its variables, the upvalues captured, and the functions
      inside it, of which only the entries have changed. */
  ghost predicate Made(f: Frame, vs: seq<Var>, p: Proto) {
    && p.vbase == f.vbase && 0 <= f.vbase <= |vs| && p.locals == vs[f.vbase..] && p.uvvars == f.uvmap && p.uv == f.uvtmp && |p.kids| == |f.kids|
    && forall n {:trigger p.kids[n]} :: 0 <= n < |p.kids| ==> p.kids[n] == f.kids[n].(uv := p.kids[n].uv)
  }

  /** The enclosing functions once the innermost one is finished. */
  function Left(fs: seq<Frame>, p: Proto): seq<Frame>
    requires |fs| > 1
  { fs[..|fs| - 1][|fs| - 2 := fs[|fs| - 2].(kids := fs[|fs| - 2].kids + [p])] }

  lemma FinishedMade(f: Frame, vs: seq<Var>)
    requires 0 <= f.vbase <= |vs|
    ensures Made(f, vs, Finished(f, vs))
  {
    var p := Finished(f, vs);
    forall n {:trigger p.kids[n]} | 0 <= n < |p.kids|
      ensures p.kids[n] == f.kids[n].(uv := p.kids[n].uv)
    {
      KidAt(vs, f.kids, n);
    }
  }

  function Finished(f: Frame, vs: seq<Var>): Proto
    requires 0 <= f.vbase <= |vs|
  { Proto(f.vbase, vs[f.vbase..], f.uvtmp, f.uvmap, FixedKids(vs, f.kids)) }

  lemma KidFixed(f: Frame, vs: seq<Var>, k: Proto)
    requires 0 <= f.vbase <= |vs| <= LJ_MAX_VSTACK && RawOk(f, |vs|, k) && forall v {:trigger vs[v]} :: 0 <= v < |vs| ==> 0 <= vs[v].slot < LJ_MAX_LOCVAR
    ensures var k2 := k.(uv := FixedUv(vs, k.uv)); KidOk(Finished(f, vs), k2) && Sound(k2)
    ensures forall i {:trigger k.uv[i]} :: 0 <= i < |k.uv| ==> 0 <= k.uv[i] && (k.uv[i] < LJ_MAX_VSTACK ==> k.uv[i] < |vs|)
  {
    var k2, p := k.(uv := FixedUv(vs, k.uv)), Finished(f, vs);
    SoundSize(k);
    SoundSame(k, k2);
    forall i | 0 <= i < |k2.uv| ensures EntryOk(p, k2, i) {
      assert RawEntry(f, k, i);
      FixedAt(vs, k.uv, i);
    }
    forall i | 0 <= i < |k.uv| ensures 0 <= k.uv[i] && (k.uv[i] < LJ_MAX_VSTACK ==> k.uv[i] < |vs|) { assert RawEntry(f, k, i); }
  }

  lemma SoundSame(k: Proto, k2: Proto)
    requires Sound(k) && |k2.uv| == |k.uv| && k2 == k.(uv := k2.uv)
    ensures Sound(k2)
  {
    forall n | 0 <= n < |k2.kids| ensures KidOk(k2, k2.kids[n]) && Sound(k2.kids[n]) {
      var g := k.kids[n];
      assert KidOk(k, g);
      forall i | 0 <= i < |g.uv| ensures EntryOk(k2, g, i) { assert EntryOk(k, g, i); }
    }
  }

  lemma FinishOk(fs: seq<Frame>, vs: seq<Var>, hash: seq<int>)
    requires AllOk(fs, vs, hash) && fs[|fs| - 1].nactvar == 0 && fs[|fs| - 1].varmap == []
    ensures var t := |fs| - 1; var f := fs[t];
      && 0 <= f.vbase <= |vs| && Sound(Finished(f, vs)) && (t == 0 ==> f.uvtmp == [] && f.vbase == 0)
      && (t > 0 ==> AllOk(fs[..t][t - 1 := fs[t - 1].(kids := fs[t - 1].kids + [Finished(f, vs)])], vs[..f.vbase], hash))
      && forall n {:trigger f.kids[n]} :: 0 <= n < |f.kids| ==> forall i {:trigger f.kids[n].uv[i]} :: 0 <= i < |f.kids[n].uv| ==> 0 <= f.kids[n].uv[i] && (f.kids[n].uv[i] < LJ_MAX_VSTACK ==> f.kids[n].uv[i] < |vs|)
  {
    var t := |fs| - 1;
    var f := fs[t];
    assert FrameOk(fs, |vs|, t) && UvFrameOk(fs, t, -1, 0);
    var p := Finished(f, vs);
    forall n | 0 <= n < |f.kids|
      ensures KidOk(p, p.kids[n]) && Sound(p.kids[n]) && forall i {:trigger f.kids[n].uv[i]} :: 0 <= i < |f.kids[n].uv| ==> 0 <= f.kids[n].uv[i] && (f.kids[n].uv[i] < LJ_MAX_VSTACK ==> f.kids[n].uv[i] < |vs|)
    {
      assert RawOk(fs[t], End(fs, |vs|, t), fs[t].kids[n]);
      KidFixed(f, vs, f.kids[n]);
      KidAt(vs, f.kids, n);
    }
    assert Sound(p);
    if t > 0 {
      LeaveOk(fs, vs, hash, p);
    }
  }

  /** Back in the enclosing function. */
  lemma LeaveOk(fs: seq<Frame>, vs: seq<Var>, hash: seq<int>, p: Proto)
    requires AllOk(fs, vs, hash) && |fs| > 1 && fs[|fs| - 1].nactvar == 0 && 0 <= fs[|fs| - 1].vbase <= |vs|
    requires var f := fs[|fs| - 1]; p.vbase == f.vbase && p.uv == f.uvtmp && p.uvvars == f.uvmap && Sound(p)
    ensures var t := |fs| - 1; AllOk(fs[..t][t - 1 := fs[t - 1].(kids := fs[t - 1].kids + [p])], vs[..p.vbase], hash)
  {
    var t := |fs| - 1;
    var a, vs2 := fs[..t], vs[..p.vbase];
    var fs2 := a[t - 1 := fs[t - 1].(kids := fs[t - 1].kids + [p])];
    PrefixOk(fs, |vs|);
    FlatBelow(a, p.vbase);
    LeaveFlat(fs, fs2);
    LeaveChains(fs, vs, hash, p.vbase);
    LeaveFrames(fs, vs, p);
  }

  lemma LeaveFlat(fs: seq<Frame>, fs2: seq<Frame>)
    requires |fs| > 1 && MapsOk(fs) && fs[|fs| - 1].nactvar == 0 && |fs2| == |fs| - 1
    requires forall k {:trigger fs2[k]} :: 0 <= k < |fs2| ==> fs2[k].nactvar == fs[k].nactvar && fs2[k].varmap == fs[k].varmap
    ensures MapsOk(fs[..|fs| - 1]) && MapsOk(fs2) && Flat(fs) == Flat(fs[..|fs| - 1]) == Flat(fs2)
  {
    var a := fs[..|fs| - 1];
    assert MapsOk(a);
    assert Flat(fs) == Flat(a) + [] == Flat(a);
    FlatSame(a, fs2);
  }

  lemma LeaveChains(fs: seq<Frame>, vs: seq<Var>, hash: seq<int>, vbase: int)
    requires MapsOk(fs) && ChainsOk(Flat(fs), vs, hash) && 0 <= vbase <= |vs| && forall x {:trigger x in Flat(fs)} :: x in Flat(fs) ==> 0 <= x < vbase
    ensures ChainsOk(Flat(fs), vs[..vbase], hash)
  {
    var active := Flat(fs);
    forall k | 0 <= k < |active| ensures 0 <= active[k] < vbase { assert active[k] in active; }
    ChainsKept(active, vs, hash, vs[..vbase]);
  }

  lemma LeaveFrames(fs: seq<Frame>, vs: seq<Var>, p: Proto)
    requires FramesOk(fs, |vs|) && SlotsOk(fs, vs) && UvOk(fs, -1, 0) && fs[0].uvmap == [] && KidsOk(fs, |vs|) && |fs| > 1 && 0 <= fs[|fs| - 1].vbase <= |vs|
    requires var f := fs[|fs| - 1]; p.vbase == f.vbase && p.uv == f.uvtmp && p.uvvars == f.uvmap && Sound(p)
    ensures var t := |fs| - 1; var fs2 := fs[..t][t - 1 := fs[t - 1].(kids := fs[t - 1].kids + [p])];
      FramesOk(fs2, p.vbase) && SlotsOk(fs2, vs[..p.vbase]) && UvOk(fs2, -1, 0) && fs2[0].uvmap == [] && KidsOk(fs2, p.vbase)
  {
    var t := |fs| - 1;
    var fs2 := fs[..t][t - 1 := fs[t - 1].(kids := fs[t - 1].kids + [p])];
    forall k | 0 <= k < |fs2| ensures FrameOk(fs2, p.vbase, k) { assert FrameOk(fs, |vs|, k); }
    forall k, i | 0 <= k < |fs2| && 0 <= i < fs2[k].nactvar && i < |fs2[k].varmap| && 0 <= fs2[k].varmap[i] < p.vbase ensures vs[..p.vbase][fs2[k].varmap[i]].slot == i {
      assert fs[k].varmap[i] == fs2[k].varmap[i];
    }
    UvSame(fs[..t], fs2) by { UvPrefix(fs); }
    forall k, n {:trigger fs2[k].kids[n]} | 0 <= k < |fs2| && 0 <= n < |fs2[k].kids| ensures RawOk(fs2[k], End(fs2, p.vbase, k), fs2[k].kids[n]) {
      if k == t - 1 && n == |fs[k].kids| {
        LeaveRaw(fs, |vs|, p);
        RawKids(fs[k], fs2[k], p.vbase, p);
      } else {
        assert RawOk(fs[k], End(fs, |vs|, k), fs[k].kids[n]);
        RawKids(fs[k], fs2[k], End(fs, |vs|, k), fs[k].kids[n]);
      }
    }
  }

  lemma RawKids(f: Frame, f2: Frame, end: int, k: Proto)
    requires RawOk(f, end, k) && f2.vbase == f.vbase && f2.uvmap == f.uvmap
    ensures RawOk(f2, end, k)
  {
    forall i | 0 <= i < |k.uv| ensures RawEntry(f2, k, i) { assert RawEntry(f, k, i); }
  }

  lemma UvPrefix(fs: seq<Frame>)
    requires UvOk(fs, -1, 0) && |fs| > 1
    ensures UvOk(fs[..|fs| - 1], -1, 0)
  {
    var a := fs[..|fs| - 1];
    forall k | 0 <= k < |a| ensures UvFrameOk(a, k, -1, 0) {
      assert UvFrameOk(fs, k, -1, 0);
      forall i | 0 <= i < |a[k].uvmap| ensures TmpOk(a, k, i, -1, 0) { assert TmpOk(fs, k, i, -1, 0); }
    }
  }

  lemma LeaveRaw(fs: seq<Frame>, nv: int, p: Proto)
    requires FramesOk(fs, nv) && UvOk(fs, -1, 0) && |fs| > 1 && var f := fs[|fs| - 1]; p.vbase == f.vbase && p.uv == f.uvtmp && p.uvvars == f.uvmap && Sound(p)
    ensures RawOk(fs[|fs| - 2], p.vbase, p)
  {
    var t := |fs| - 1;
    assert UvFrameOk(fs, t, -1, 0) && FrameOk(fs, nv, t - 1);
    var f := fs[t - 1];
    forall i | 0 <= i < |p.uv| ensures RawEntry(f, p, i) { assert TmpOk(fs, t, i, -1, 0); }
  }
}
