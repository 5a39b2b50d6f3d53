/** Function prototypes and their upvalues: what an entry means once the enclosing
    function is finished, and where following the entries outwards ends. */
module Upvalues {

  const LJ_MAX_LOCVAR := 200
  const LJ_MAX_UPVAL := 60
  const LJ_MAX_VSTACK := 65476
  const UV_LOCAL := 0x8000
  const UV_IMMUTABLE := 0x4000

  /** A declared variable: its name (negative if a program cannot name it), its
      register, the variable before it in its hash chain, and whether it is ever
      assigned to. */
  datatype Var = Var(name: int, slot: int, prev: int, rw: bool)

  /** A finished function: where its variables start on the stack of variables
      and what they are; for each upvalue its entry and the variable it stands
      for; and the functions inside it. */
  datatype Proto = Proto(vbase: int, locals: seq<Var>, uv: seq<int>, uvvars: seq<int>, kids: seq<Proto>)

  predicate Distinct(s: seq<int>) { forall i, j :: 0 <= i < j < |s| ==> s[i] != s[j] }

  /** The entry that captures register `slot` of the enclosing function. */
  function Captures(v: Var): int { v.slot + UV_LOCAL + if v.rw then 0 else UV_IMMUTABLE }

  /** Upvalue `i` of `k` is right inside `p`: a variable of `p`, or the upvalue
      of `p` for the same variable. */
  predicate EntryOk(p: Proto, k: Proto, i: int)
    requires 0 <= i < |k.uv| == |k.uvvars|
  {
    && 0 <= k.uvvars[i] < k.vbase
    && if k.uvvars[i] >= p.vbase then
         k.uvvars[i] - p.vbase < |p.locals| && 0 <= p.locals[k.uvvars[i] - p.vbase].slot < LJ_MAX_LOCVAR && k.uv[i] == Captures(p.locals[k.uvvars[i] - p.vbase])
       else
         0 <= k.uv[i] < |p.uvvars| && p.uvvars[k.uv[i]] == k.uvvars[i]
  }

  predicate KidOk(p: Proto, k: Proto) {
    p.vbase <= k.vbase && |k.uv| == |k.uvvars| <= LJ_MAX_UPVAL && Distinct(k.uvvars) && forall i :: 0 <= i < |k.uv| ==> EntryOk(p, k, i)
  }

  /** Every function inside `p`, at any depth, has right entries. */
  ghost predicate Sound(p: Proto)
    decreases p
  {
    |p.uv| == |p.uvvars| <= LJ_MAX_UPVAL && forall n {:trigger p.kids[n]} :: 0 <= n < |p.kids| ==> KidOk(p, p.kids[n]) && Sound(p.kids[n])
  }

  /** A path of functions, each inside the one before. */
  ghost predicate Nested(c: seq<Proto>) { c != [] && forall n {:trigger c[n]} :: 0 < n < |c| ==> c[n] in c[n - 1].kids }

  predicate IsLocal(e: int) { e >= UV_LOCAL }
  function SlotOf(e: int): int { (e - UV_LOCAL) % UV_IMMUTABLE }

  /** Following upvalue `i` of the innermost function outwards: the function and
      the register it ends at, if it ends. */
  function Follow(c: seq<Proto>, i: int): (int, int)
    decreases |c|
  {
    if |c| < 2 || !(0 <= i < |c[|c| - 1].uv|) then (-1, -1)
    else
      var e := c[|c| - 1].uv[i];
      if IsLocal(e) then (|c| - 2, SlotOf(e)) else Follow(c[..|c| - 1], e)
  }

  /** The function of the path that declares variable `v`: the innermost one
      whose variables start at or below it. */
  function DeclaredBy(c: seq<Proto>, v: int): int
  { if c == [] then -1 else if c[|c| - 1].vbase <= v then |c| - 1 else DeclaredBy(c[..|c| - 1], v) }

  lemma NestedPrefix(c: seq<Proto>)
    requires Nested(c) && |c| > 1
    ensures Nested(c[..|c| - 1]) && c[|c| - 1] in c[|c| - 2].kids
  {
    var d := c[..|c| - 1];
    forall n | 0 < n < |d| ensures d[n] in d[n - 1].kids { assert c[n] in c[n - 1].kids; }
  }

  lemma {:induction false} NestedSound(c: seq<Proto>)
    requires Nested(c) && Sound(c[0])
    ensures Sound(c[|c| - 1]) && (|c| > 1 ==> KidOk(c[|c| - 2], c[|c| - 1]))
  {
    if |c| > 1 {
      NestedPrefix(c);
      NestedSound(c[..|c| - 1]);
    }
  }

  /** Following upvalue `i` ends at the register of the variable it stands for,
      in the function that declares it. */
  predicate EndsHome(c: seq<Proto>, i: int) {
    c != [] && 0 <= i < |c[|c| - 1].uvvars| && var v := c[|c| - 1].uvvars[i]; var d := DeclaredBy(c[..|c| - 1], v);
      0 <= d < |c| - 1 && 0 <= v - c[d].vbase < |c[d].locals| && Follow(c, i) == (d, c[d].locals[v - c[d].vbase].slot)
  }

  /** In a finished chunk this holds of every upvalue of every function, however
      many functions lie in between. */
  lemma {:induction false} FollowsHome(c: seq<Proto>, i: int)
    requires Nested(c) && Sound(c[0]) && c[0].uv == [] && c[0].vbase == 0 && 0 <= i < |c[|c| - 1].uv|
    ensures EndsHome(c, i)
  {
    hide Sound, Nested, EntryOk, KidOk, EndsHome, Follow, DeclaredBy;
    NestedSound(c);
    NotRoot(c, i);
    NestedPrefix(c);
    NestedSound(c[..|c| - 1]);
    KidEntry(c[|c| - 2], c[|c| - 1], i);
    SoundSize(c[|c| - 2]);
    if c[|c| - 1].uvvars[i] >= c[|c| - 2].vbase {
      HomeHere(c, i);
    } else {
      FollowsHome(c[..|c| - 1], c[|c| - 1].uv[i]);
      HomeOutside(c, i);
    }
  }

  lemma NotRoot(c: seq<Proto>, i: int)
    requires Nested(c) && c[0].uv == [] && 0 <= i < |c[|c| - 1].uv|
    ensures |c| > 1
  {
  }

  lemma HomeHere(c: seq<Proto>, i: int)
    requires |c| > 1 && 0 <= i < |c[|c| - 1].uv| == |c[|c| - 1].uvvars|
    requires var v, p := c[|c| - 1].uvvars[i], c[|c| - 2];
      0 <= v - p.vbase < |p.locals| && 0 <= p.locals[v - p.vbase].slot < LJ_MAX_LOCVAR && c[|c| - 1].uv[i] == Captures(p.locals[v - p.vbase])
    ensures EndsHome(c, i)
  {
    LocalEntry(c[|c| - 2].locals[c[|c| - 1].uvvars[i] - c[|c| - 2].vbase]);
  }

  lemma HomeOutside(c: seq<Proto>, i: int)
    requires |c| > 1 && 0 <= i < |c[|c| - 1].uv| == |c[|c| - 1].uvvars| && c[|c| - 1].uvvars[i] < c[|c| - 2].vbase
    requires var e := c[|c| - 1].uv[i]; 0 <= e < LJ_MAX_UPVAL && e < |c[|c| - 2].uvvars| && c[|c| - 2].uvvars[e] == c[|c| - 1].uvvars[i] && EndsHome(c[..|c| - 1], e)
    ensures EndsHome(c, i)
  {
    var d := c[..|c| - 1];
    assert d[|d| - 1] == c[|c| - 2];
  }

  lemma SoundSize(p: Proto)
    requires Sound(p)
    ensures |p.uv| == |p.uvvars| <= LJ_MAX_UPVAL
  {
  }

  lemma KidEntry(p: Proto, k: Proto, i: int)
    requires KidOk(p, k) && 0 <= i < |k.uv|
    ensures |k.uvvars| == |k.uv| && 0 <= k.uvvars[i] && (k.uvvars[i] < p.vbase ==> 0 <= k.uv[i] < |p.uvvars| && p.uvvars[k.uv[i]] == k.uvvars[i])
    ensures k.uvvars[i] >= p.vbase ==>
      k.uvvars[i] - p.vbase < |p.locals| && 0 <= p.locals[k.uvvars[i] - p.vbase].slot < LJ_MAX_LOCVAR && k.uv[i] == Captures(p.locals[k.uvvars[i] - p.vbase])
  {
    assert EntryOk(p, k, i);
  }

  lemma LocalEntry(v: Var)
    requires 0 <= v.slot < LJ_MAX_LOCVAR
    ensures IsLocal(Captures(v)) && SlotOf(Captures(v)) == v.slot && Captures(v) < 0x10000
    ensures (Captures(v) - UV_LOCAL) / UV_IMMUTABLE == if v.rw then 0 else 1
  {
  }
}
