/** Jump lists threaded through operand D of the jumps themselves. */
module JumpLists {
  import opened Bytecode
  import opened Exec
  import opened Patching
  import opened Delivery
  import opened Emission
  import opened Steps
  import opened Branches
  import opened Resolve
  import opened NilMerge

  /** The empty list: the all-ones position, which no instruction occupies. */
  const NO_JMP := -1

  function Elems(s: seq<int>): set<int> { set q | q in s }

  /** The position a jump links to; distance -1, a jump to itself, ends a list. */
  function Next(code: seq<Ins>, pc: int): int
    requires 0 <= pc < |code|
  {
    if JumpOf(code[pc]) == -1 then NO_JMP else pc + 1 + JumpOf(code[pc])
  }

  /** `s` lists, in order, the jumps reached from `head`. */
  ghost predicate IsList(code: seq<Ins>, head: int, s: seq<int>) {
    && head == (if s == [] then NO_JMP else s[0])
    && forall k :: 0 <= k < |s| ==> LinkAt(code, s, k)
  }

  ghost predicate LinkAt(code: seq<Ins>, s: seq<int>, k: int)
    requires 0 <= k < |s|
  {
    && 0 < s[k] < |code| && code[s[k]].op == JMP
    && Next(code, s[k]) == if k + 1 < |s| then s[k + 1] else NO_JMP
  }

  /** A jump list has no cycle: every member is met once. */
  lemma {:induction false} ListDistinct(code: seq<Ins>, head: int, s: seq<int>, i: int, j: int)
    requires IsList(code, head, s) && 0 <= i < j < |s|
    ensures s[i] != s[j]
    decreases |s| - j
  {
    assert LinkAt(code, s, i) && LinkAt(code, s, j) && LinkAt(code, s, i + 1);
    if s[i] == s[j] && j + 1 < |s| { ListDistinct(code, head, s, i + 1, j + 1); }
  }

  /** The code after the last jump of `s1` was linked to `h2` (`jmp_append`). */
  function Linked(code: seq<Ins>, s1: seq<int>, h2: int): seq<Ins> {
    if h2 == NO_JMP || s1 == [] || !(0 <= s1[|s1| - 1] < |code|) then code
    else code[s1[|s1| - 1] := Retarget(code[s1[|s1| - 1]], s1[|s1| - 1], h2)]
  }

  lemma ListPositive(code: seq<Ins>, head: int, s: seq<int>)
    requires IsList(code, head, s)
    ensures forall k :: 0 <= k < |s| ==> 0 < s[k] < |code|
  {
    forall k | 0 <= k < |s| ensures 0 < s[k] < |code| { assert LinkAt(code, s, k); }
  }

  lemma ListKept(c1: seq<Ins>, c2: seq<Ins>, head: int, s: seq<int>)
    requires IsList(c1, head, s) && |c1| <= |c2|
    requires forall q :: q in s && 0 < q < |c1| ==> c2[q] == c1[q]
    ensures IsList(c2, head, s)
  {
    forall k | 0 <= k < |s| ensures LinkAt(c2, s, k) { assert LinkAt(c1, s, k) && s[k] in s; }
  }

  /** Linking the last jump of one list to the head of another concatenates
      them, and touches operand D of that jump only. */
  lemma ListLinked(code: seq<Ins>, h1: int, s1: seq<int>, h2: int, s2: seq<int>, c2: seq<Ins>)
    requires IsList(code, h1, s1) && IsList(code, h2, s2) && s1 != [] && s2 != []
    requires forall q :: q in s1 ==> q !in s2
    requires var last := s1[|s1| - 1]; 0 <= last < |code| && c2 == code[last := Retarget(code[last], last, h2)]
    ensures IsList(c2, h1, s1 + s2)
  {
    var s := s1 + s2;
    var last := s1[|s1| - 1];
    assert LinkAt(code, s2, 0);
    forall k | 0 <= k < |s| ensures LinkAt(c2, s, k) {
      if k < |s1| {
        assert LinkAt(code, s1, k);
        if k < |s1| - 1 { ListDistinct(code, h1, s1, k, |s1| - 1); }
        else { assert JumpOf(c2[last]) == h2 - (last + 1); assert last in s1 && h2 in s2; }
      } else {
        assert LinkAt(code, s2, k - |s1|);
        assert s2[k - |s1|] in s2;
      }
    }
  }

  // -- One more member of a list rewritten ---------------------------------

  lemma ElemsPrefix(s: seq<int>, k: nat)
    requires k < |s|
    ensures Elems(s[..k + 1]) == Elems(s[..k]) + {s[k]}
  {
    assert s[..k + 1] == s[..k] + [s[k]];
  }

  lemma ElemsConcat(s: seq<int>, t: seq<int>)
    ensures Elems(s + t) == Elems(s) + Elems(t)
  {
  }

  ghost predicate JumpsOnly(code: seq<Ins>, list: set<int>) {
    forall q {:trigger q in list} :: q in list ==> 0 < q < |code| && code[q].op == JMP
  }

  lemma PrefixJumps(code: seq<Ins>, list: int, s: seq<int>, k: nat)
    requires IsList(code, list, s) && k < |s|
    ensures s[k] !in Elems(s[..k]) && JumpsOnly(code, Elems(s[..k])) && 0 < s[k] < |code| && code[s[k]].op == JMP
  {
    ListJumps(code, list, s);
    assert s[k] in Elems(s) && forall q :: q in Elems(s[..k]) ==> q in Elems(s);
    if s[k] in Elems(s[..k]) {
      var i :| 0 <= i < k && s[i] == s[k];
      ListDistinct(code, list, s, i, k);
    }
  }

  lemma ListJumps(code: seq<Ins>, list: int, s: seq<int>)
    requires IsList(code, list, s)
    ensures JumpsOnly(code, Elems(s))
  {
    forall q | q in Elems(s) ensures 0 < q < |code| && code[q].op == JMP {
      var i :| 0 <= i < |s| && s[i] == q;
      assert LinkAt(code, s, i);
    }
  }

  /** Dropping the value of one more list member. */
  lemma DropOne(code: seq<Ins>, done: set<int>, q: int)
    requires Shape(code) && 0 < q < |code| && code[q].op == JMP && q !in done
    requires JumpsOnly(code, done)
    ensures var c := Dropped(code, done);
      c[q - 1] == code[q - 1] && c[q] == code[q] &&
      Dropped(code, done + {q}) == c[q - 1 := PatchedTest(c[q - 1], c[q], NO_REG)]
  {
    assert ShapeAt(code, q) && ShapeAt(code, q - 1);
    var c := Dropped(code, done);
    var d := Dropped(code, done + {q});
    forall i | 0 <= i < |code| ensures d[i] == c[q - 1 := PatchedTest(c[q - 1], c[q], NO_REG)][i] {
      if i == q - 1 && !Valued(code[i]) { assert PatchedTest(c[q - 1], c[q], NO_REG) == c[q - 1]; }
    }
  }

  /** Patching one more list member: its test, its base register, its target. */
  lemma PatchOne(code: seq<Ins>, done: set<int>, reg: int, vt: int, dt: int, q: int)
    requires Shape(code) && 0 < q < |code| && code[q].op == JMP && q !in done
    requires JumpsOnly(code, done) && (reg == NO_REG || 0 <= reg < NO_REG - 1)
    ensures var c := Patched(code, done, reg, vt, dt);
      && c[q] == code[q] && Valued(c[q - 1]) == Valued(code[q - 1])
      && var a := c[q].(a := PatchedBase(c[q - 1], c[q], reg));
      && Patched(code, done + {q}, reg, vt, dt) ==
           c[q - 1 := PatchedTest(c[q - 1], c[q], reg)][q := Retarget(a, q, if Valued(c[q - 1]) then vt else dt)]
  {
    assert ShapeAt(code, q) && ShapeAt(code, q - 1);
    if q > 1 { assert ShapeAt(code, q - 2); }
    var c := Patched(code, done, reg, vt, dt);
    var d := Patched(code, done + {q}, reg, vt, dt);
    var a := c[q].(a := PatchedBase(c[q - 1], c[q], reg));
    if q - 1 in done { assert code[q - 1].op == JMP; }
    assert !Valued(c[q - 1]) ==> PatchedTest(c[q - 1], c[q], reg) == c[q - 1];
    var e := c[q - 1 := PatchedTest(c[q - 1], c[q], reg)][q := Retarget(a, q, if Valued(c[q - 1]) then vt else dt)];
    forall i | 0 <= i < |code| ensures d[i] == e[i] {
      if i + 1 < |code| { assert ShapeAt(code, i) && ShapeAt(code, i + 1); }
    }
  }

  /** One round of `jmp_dropval`. */
  lemma DropStep(code: seq<Ins>, list: int, s: seq<int>, k: nat)
    requires IsList(code, list, s) && Shape(code) && k < |s|
    ensures var c := Dropped(code, Elems(s[..k])); var q := s[k];
      && 0 < q < |code| && c[q].op == JMP
      && Dropped(code, Elems(s[..k + 1])) ==
           c[q - 1 := PatchedTest(c[q - 1], c[q], NO_REG)][q := c[q].(a := PatchedBase(c[q - 1], c[q], NO_REG))]
      && IsList(Dropped(code, Elems(s[..k + 1])), list, s)
  {
    PrefixJumps(code, list, s, k);
    ElemsPrefix(s, k);
    DropOne(code, Elems(s[..k]), s[k]);
    DroppedList(code, Elems(s[..k + 1]), list, s);
  }

  lemma DroppedList(code: seq<Ins>, done: set<int>, list: int, s: seq<int>)
    requires IsList(code, list, s) && Shape(code)
    ensures IsList(Dropped(code, done), list, s)
  {
    ListJumps(code, list, s);
    forall q | q in s && 0 < q < |code| ensures Dropped(code, done)[q] == code[q] {
      assert q in Elems(s) && ShapeAt(code, q);
    }
    ListKept(code, Dropped(code, done), list, s);
  }

  /** One round of `jmp_patchval`. */
  lemma PatchStep(code: seq<Ins>, list: int, s: seq<int>, k: nat, reg: int, vt: int, dt: int)
    requires IsList(code, list, s) && Shape(code) && k < |s| && (reg == NO_REG || 0 <= reg < NO_REG - 1)
    ensures var c := Patched(code, Elems(s[..k]), reg, vt, dt); var q := s[k];
      && 0 < q < |code| && c[q] == code[q] && c[q].op == JMP && Valued(c[q - 1]) == Valued(code[q - 1])
      && Next(c, q) == (if k + 1 < |s| then s[k + 1] else NO_JMP)
      && var a := c[q].(a := PatchedBase(c[q - 1], c[q], reg));
      && Patched(code, Elems(s[..k + 1]), reg, vt, dt) ==
           c[q - 1 := PatchedTest(c[q - 1], c[q], reg)][q := Retarget(a, q, if Valued(c[q - 1]) then vt else dt)]
  {
    PrefixJumps(code, list, s, k);
    ElemsPrefix(s, k);
    PatchOne(code, Elems(s[..k]), reg, vt, dt, s[k]);
    assert LinkAt(code, s, k);
  }

  // -- What an emission leaves alone ---------------------------------------

  lemma EmitFrame(v: View, start: int, lim: int, more: seq<Ins>)
    requires Wf(v, start, lim)
    ensures forall q :: q in v.ctx + v.ts + v.fs ==> 0 < q < |v.code| && KeptAt(v.code, Landed(v.code, v.js) + more, q)
  {
    forall q | q in v.ctx + v.ts + v.fs ensures 0 < q < |v.code| && KeptAt(v.code, Landed(v.code, v.js) + more, q) {
      assert q in Lists(v);
      LandedAt(v.code, v.js, q);
      LandedAt(v.code, v.js, q - 1);
      assert ShapeAt(v.code, q);
      if q - 1 in v.js { assert ShapeAt(v.code, q - 1); }
    }
  }

  lemma EmitList(v: View, start: int, lim: int, more: seq<Ins>, head: int, s: seq<int>)
    requires Wf(v, start, lim) && IsList(v.code, head, s) && Elems(s) <= v.ctx + v.ts + v.fs
    ensures IsList(Landed(v.code, v.js) + more, head, s)
  {
    EmitFrame(v, start, lim, more);
    assert forall q :: q in s ==> q in Elems(s);
    ListKept(v.code, Landed(v.code, v.js) + more, head, s);
  }

  lemma EmitKept(v: View, start: int, lim: int, more: seq<Ins>)
    requires Wf(v, start, lim)
    ensures Kept(v.code, Landed(v.code, v.js) + more, v.ctx)
  {
    EmitFrame(v, start, lim, more);
  }

  lemma LandedNone(code: seq<Ins>)
    ensures Landed(code, {}) == code
  {
  }

  /** No list jump is the nil load at the end of the code. */
  lemma ListsAvoid(v: View, start: int, lim: int, head: int, s: seq<int>)
    requires Wf(v, start, lim) && Elems(s) <= Lists(v) && IsNilLoad(v.code[|v.code| - 1])
    ensures |v.code| - 1 !in s
  {
    assert forall q :: q in s ==> q in Elems(s);
  }

  lemma MergeKept(v: View, start: int, lim: int, to: Ins, reg: int)
    requires Wf(v, start, lim) && Merges(v.code[|v.code| - 1], to, reg)
    ensures Kept(v.code, v.code[|v.code| - 1 := to], v.ctx)
  {
    var c := v.code[|v.code| - 1 := to];
    forall q | q in v.ctx && 0 < q < |v.code| ensures KeptAt(v.code, c, q) {
      assert q in Lists(v);
    }
  }

  lemma PlaceFrame(v: View, start: int, lim: int, reg: int)
    requires Wf(v, start, lim) && v.end.Reloc?
    ensures var c := v.code[v.end.pc := v.code[v.end.pc].(a := reg)];
      && c == Landed(Back(v).code, {}) + [v.code[v.end.pc].(a := reg)]
      && Kept(v.code, c, v.ctx)
    ensures v.end.pc !in Lists(v)
  {
    LandedNone(Back(v).code);
    var c := v.code[v.end.pc := v.code[v.end.pc].(a := reg)];
    forall q | q in v.ctx && 0 < q < |v.code| ensures KeptAt(v.code, c, q) {
      assert q in Lists(v);
    }
  }

  lemma ElemsMember(s: seq<int>)
    ensures s != [] ==> s[0] in Elems(s)
  {
  }

  /** Two lists without a common member have the same head only when empty. */
  lemma SameHead(code: seq<Ins>, h1: int, s1: seq<int>, h2: int, s2: seq<int>)
    requires IsList(code, h1, s1) && IsList(code, h2, s2) && Elems(s1) !! Elems(s2)
    ensures h1 == h2 <==> s1 == [] && s2 == []
  {
    ListPositive(code, h1, s1);
    ListPositive(code, h2, s2);
    ElemsMember(s1);
    ElemsMember(s2);
  }

  lemma ElemsApart(s1: seq<int>, s2: seq<int>)
    requires Elems(s1) !! Elems(s2)
    ensures forall q :: q in s1 ==> q !in s2
  {
    assert forall q :: q in s1 ==> q in Elems(s1);
    assert forall q :: q in s2 ==> q in Elems(s2);
  }

  /** Both lists can be walked when they are resolved. */
  lemma TailLists(v: View, start: int, lim: int, reg: int, free: int, link: int, direct: bool, c1: seq<Ins>, js: set<int>, jf: int, jt: int,
                  t: int, ts: seq<int>, f: int, fs: seq<int>)
    requires Wf(v, start, lim) && Tailed(v, reg, free, link, direct, c1, js) && (direct || (jf == |c1| - 3 && jt == |c1| - 1))
    requires IsList(v.code, t, ts) && IsList(v.code, f, fs) && v.ts == Elems(ts) && v.fs == Elems(fs)
    ensures IsList(c1, f, fs) && Shape(c1) && (AllValued(c1, v.fs) || 0 <= jf <= |c1|)
    ensures var c2 := Patched(c1, v.fs, reg, |c1|, jf);
      IsList(c2, t, ts) && Shape(c2) && (AllValued(c2, v.ts) || 0 <= jt <= |c2|)
  {
    StageFalse(v, start, lim, reg, free, link, direct, c1, js, jf);
    StageTrue(v, start, lim, reg, free, link, direct, c1, js, jf, jt);
    var c2 := Patched(c1, v.fs, reg, |c1|, jf);
    ListPositive(v.code, t, ts);
    ListKept(v.code, c1, t, ts);
    ListKept(v.code, c1, f, fs);
    forall q | q in ts && 0 < q < |c1| ensures c2[q] == c1[q] { assert q in v.ts && KeptAt(c1, c2, q); }
    ListKept(c1, c2, t, ts);
  }

  /** Resolving both lists leaves the jumps around the expression alone. */
  lemma SettleKept(v: View, start: int, lim: int, reg: int, free: int, link: int, direct: bool, c1: seq<Ins>, js: seq<int>, jf: int, jt: int, v2: View, head: int)
    requires Wf(v, start, lim) && Tailed(v, reg, free, link, direct, c1, Elems(js)) && Resolved(v, reg, direct, c1, jf, jt, Elems(js), v2)
    requires IsList(c1, head, js)
    ensures IsList(v2.code, head, js) && Kept(v.code, v2.code, v.ctx)
  {
    var o := OpenWith(v, Elems(js));
    var c2 := Patched(c1, v.fs, reg, |c1|, jf);
    StageFalse(v, start, lim, reg, free, link, direct, c1, Elems(js), jf);
    StageTrue(v, start, lim, reg, free, link, direct, c1, Elems(js), jf, jt);
    PatchRest(c1, o, v.fs, reg, jf, false);
    PatchRest(c2, o - v.fs, v.ts, reg, jt, false);
    NewPositions(v, start, lim);
    forall q | q in v.ctx + Elems(js) ensures KeptAt(c1, v2.code, q) {
      assert q in o - v.fs && q in o - v.fs - v.ts;
      assert KeptAt(c1, c2, q) && KeptAt(c2, v2.code, q);
    }
    forall q | q in js && 0 < q < |c1| ensures v2.code[q] == c1[q] {
      assert q in v.ctx + Elems(js);
    }
    ListKept(c1, v2.code, head, js);
    forall q | q in v.ctx && 0 < q < |v.code| ensures KeptAt(v.code, v2.code, q) {
      assert q in v.ctx + Elems(js);
    }
  }

  /** Appending to a list of the view changes no run and no other list. */
  lemma LinkView(job: Job, v: View, lim: int, skip: int, s1: seq<int>, h2: int)
    requires Wf(v, job.start, lim) && Den(job, v, skip) && Elems(s1) <= Lists(v)
    ensures var v2 := v.(code := Linked(v.code, s1, h2));
      Wf(v2, job.start, lim) && Den(job, v2, skip)
  {
    if h2 != NO_JMP && s1 != [] {
      var last := s1[|s1| - 1];
      assert last in Elems(s1);
      NewPositions(v, job.start, lim);
      Relink(job, v, lim, skip, last, v.(code := Linked(v.code, s1, h2)));
    }
  }

  lemma LinkKept(v: View, start: int, lim: int, s1: seq<int>, h2: int, ctx: set<int>)
    requires Wf(v, start, lim) && Elems(s1) <= Lists(v) && ctx <= Lists(v) && ctx !! Elems(s1)
    ensures Kept(v.code, Linked(v.code, s1, h2), ctx)
  {
    if h2 != NO_JMP && s1 != [] {
      var last := s1[|s1| - 1];
      assert last in Elems(s1);
      RelinkExits(v, start, lim, last, v.(code := Linked(v.code, s1, h2)));
    }
  }

  lemma LinkList(code: seq<Ins>, s1: seq<int>, h2: int, head: int, s: seq<int>)
    requires IsList(code, head, s) && Elems(s1) !! Elems(s)
    ensures IsList(Linked(code, s1, h2), head, s)
  {
    ElemsApart(s, s1);
    ListKept(code, Linked(code, s1, h2), head, s);
  }

  lemma LinkExits(v: View, start: int, lim: int, s1: seq<int>, h2: int)
    requires Wf(v, start, lim) && Elems(s1) <= Lists(v)
    ensures |Linked(v.code, s1, h2)| == |v.code|
    ensures forall i :: 0 <= i < |v.code| ==> Valued(Linked(v.code, s1, h2)[i]) == Valued(v.code[i])
  {
    if h2 != NO_JMP && s1 != [] {
      var last := s1[|s1| - 1];
      assert last in Elems(s1);
      RelinkExits(v, start, lim, last, v.(code := Linked(v.code, s1, h2)));
    }
  }

  // -- Taking back the end of the code -----------------------------------------

  lemma BackFrame(v: View, start: int, lim: int, head: int, s: seq<int>)
    requires Wf(v, start, lim) && Hanging(v.end) != {} && IsList(v.code, head, s) && Elems(s) <= Lists(v)
    ensures IsList(Back(v).code, head, s)
  {
    BackLists(v, start, lim);
    forall k | 0 <= k < |s| ensures LinkAt(Back(v).code, s, k) {
      assert LinkAt(v.code, s, k) && s[k] in Elems(s);
    }
  }

  /** Replacing the end of the code keeps the jumps around the expression. */
  lemma KeptBack(v: View, start: int, lim: int, c: seq<Ins>)
    requires Wf(v, start, lim) && Hanging(v.end) != {} && Kept(Back(v).code, c, v.ctx) && |v.code| <= |c|
    ensures Kept(v.code, c, v.ctx)
  {
    BackLists(v, start, lim);
    forall q | q in v.ctx && 0 < q < |v.code| ensures KeptAt(v.code, c, q) {
      assert q in Lists(v) && 0 < q < |Back(v).code|;
      assert KeptAt(Back(v).code, c, q);
    }
  }

  lemma LinkOne(code: seq<Ins>, s1: seq<int>, h2: int, q: int)
    requires q !in Elems(s1) && 0 <= q < |code|
    ensures Linked(code, s1, h2)[q] == code[q]
  {
    if s1 != [] { assert s1[|s1| - 1] in s1; }
  }

  lemma KeptList(c1: seq<Ins>, c2: seq<Ins>, head: int, s: seq<int>, ctx: set<int>)
    requires IsList(c1, head, s) && Kept(c1, c2, ctx) && Elems(s) <= ctx
    ensures IsList(c2, head, s)
  {
    forall q | q in s && 0 < q < |c1| ensures c2[q] == c1[q] { assert q in Elems(s) && KeptAt(c1, c2, q); }
    ListKept(c1, c2, head, s);
  }

  // -- Negation ------------------------------------------------------------------

  lemma DroppedList2(v: View, start: int, lim: int, list: set<int>, head: int, s: seq<int>)
    requires Wf(v, start, lim) && IsList(v.code, head, s) && list <= Lists(v)
    ensures IsList(Dropped(v.code, list), head, s)
  {
    forall q | q in s && 0 < q < |v.code| ensures Dropped(v.code, list)[q] == v.code[q] {
      var k :| 0 <= k < |s| && s[k] == q;
      assert LinkAt(v.code, s, k);
      DroppedKeeps(v, start, lim, list, q);
    }
    ListKept(v.code, Dropped(v.code, list), head, s);
  }

  /** Dropping the values of two lists one after the other. */
  lemma DroppedTwice(v: View, start: int, lim: int)
    requires Wf(v, start, lim)
    ensures Dropped(Dropped(v.code, v.ts), v.fs) == Dropped(v.code, v.ts + v.fs)
  {
    var c := Dropped(v.code, v.ts);
    assert v.ts !! v.fs && v.ts <= Lists(v) && v.fs <= Lists(v);
    forall i | 0 <= i < |v.code| ensures Dropped(c, v.fs)[i] == Dropped(v.code, v.ts + v.fs)[i] {
      DroppedKeeps(v, start, lim, v.ts, i);
      if i + 1 < |v.code| { DroppedKeeps(v, start, lim, v.ts, i + 1); }
      if i + 1 in v.fs { assert i + 1 in Lists(v); }
    }
  }

  lemma DroppedKept(v: View, start: int, lim: int)
    requires Wf(v, start, lim)
    ensures Kept(v.code, Dropped(v.code, v.ts + v.fs), v.ctx)
  {
    forall q | q in v.ctx && 0 < q < |v.code| ensures KeptAt(v.code, Dropped(v.code, v.ts + v.fs), q) {
      assert q in Lists(v) && q !in v.ts + v.fs;
      DroppedKeeps(v, start, lim, v.ts + v.fs, q);
      DroppedKeeps(v, start, lim, v.ts + v.fs, q - 1);
    }
  }
}
