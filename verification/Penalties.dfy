/** The penalty cache: start instructions of aborted recordings, and when they
    are given up for good. */
module Penalties {

  const PENALTY_SLOTS := 64
  const PENALTY_MIN := 72
  const PENALTY_MAX := 6000

  /** A cache slot: address of the start instruction (0: unused) and penalty. */
  datatype Penalty = Penalty(pc: int, val: int)
  datatype Cache = Cache(slots: seq<Penalty>, next: int)

  /** The slot of an address, -1 if it has none. */
  function SlotOf(s: seq<Penalty>, key: int): (i: int)
    ensures -1 <= i < |s| && (i >= 0 ==> s[i].pc == key)
    ensures i < 0 ==> forall j {:trigger s[j]} :: 0 <= j < |s| ==> s[j].pc != key
  {
    if s == [] then -1
    else
      var i := SlotOf(s[..|s| - 1], key);
      if i >= 0 then i else if s[|s| - 1].pc == key then |s| - 1 else -1
  }

  /** Stored penalties fit 16 bits, no address is in the cache twice. */
  ghost predicate Wf(c: Cache) {
    && |c.slots| == PENALTY_SLOTS && 0 <= c.next < PENALTY_SLOTS
    && (forall i {:trigger c.slots[i]} :: 0 <= i < PENALTY_SLOTS && c.slots[i].pc != 0 ==> PENALTY_MIN <= c.slots[i].val <= PENALTY_MAX)
    && (forall i, j :: 0 <= i < j < PENALTY_SLOTS && c.slots[i].pc != 0 ==> c.slots[i].pc != c.slots[j].pc)
  }

  /** A failed recording: where it started, and the random bits drawn. */
  datatype Event = Event(key: int, rnd: int)

  ghost predicate WfEvent(e: Event) { e.key != 0 && 0 <= e.rnd < 16 }

  function Doubled(c: Cache, e: Event): int {
    var i := SlotOf(c.slots, e.key);
    if i >= 0 then 2 * c.slots[i].val + e.rnd else PENALTY_MIN
  }

  /** Is the instruction given up? */
  predicate Blacklists(c: Cache, e: Event) { Doubled(c, e) > PENALTY_MAX }

  function After(c: Cache, e: Event): Cache
    requires |c.slots| == PENALTY_SLOTS && 0 <= c.next < PENALTY_SLOTS
  {
    var i := SlotOf(c.slots, e.key);
    if Blacklists(c, e) then c
    else if i >= 0 then Cache(c.slots[i := Penalty(e.key, Doubled(c, e))], c.next)
    else Cache(c.slots[c.next := Penalty(e.key, PENALTY_MIN)], (c.next + 1) % PENALTY_SLOTS)
  }

  lemma AfterWf(c: Cache, e: Event)
    requires Wf(c) && WfEvent(e)
    ensures Wf(After(c, e))
  {
  }

  class PenaltyCache {
    const penalty: array<Penalty>
    var penaltyslot: int

    ghost function Now(): Cache
      reads this, penalty
    { Cache(penalty[..], penaltyslot) }

    ghost predicate Valid()
      reads this, penalty
    { Wf(Now()) }

    constructor ()
      ensures Valid() && fresh(penalty) && forall i :: 0 <= i < PENALTY_SLOTS ==> Now().slots[i].pc == 0
    {
      penalty := new Penalty[PENALTY_SLOTS](_ => Penalty(0, 0));
      penaltyslot := 0;
    }

    /** Bumps the penalty of the start instruction at `key`, or gives it up. The
        stored value is truncated to 16 bits. */
    method Bump(key: int, rnd: int) returns (blacklist: bool)
      requires Valid() && WfEvent(Event(key, rnd))
      modifies this, penalty
      ensures Valid() && Now() == old(After(Now(), Event(key, rnd))) && blacklist == old(Blacklists(Now(), Event(key, rnd)))
    {
      ghost var was, e := Now(), Event(key, rnd);
      AfterWf(was, e);
      var val, slot, i := PENALTY_MIN, -1, 0;
      while i < PENALTY_SLOTS && slot < 0
        invariant 0 <= i <= PENALTY_SLOTS && Now() == was
        invariant if slot < 0 then val == PENALTY_MIN && forall j {:trigger penalty[j]} :: 0 <= j < i ==> penalty[j].pc != key
                  else 0 <= slot < PENALTY_SLOTS && penalty[slot].pc == key && val == 2 * penalty[slot].val + rnd
        decreases PENALTY_SLOTS - i, slot < 0
      {
        if penalty[i].pc == key {
          val := 2 * penalty[i].val + rnd;
          slot := i;
        } else {
          i := i + 1;
        }
      }
      assert slot == SlotOf(was.slots, key);
      if val > PENALTY_MAX {
        return true;
      }
      if slot < 0 {
        slot := penaltyslot;
        penaltyslot := (penaltyslot + 1) % PENALTY_SLOTS;
        penalty[slot] := penalty[slot].(pc := key);
      }
      penalty[slot] := penalty[slot].(val := val % 0x10000);
      blacklist := false;
      assert Now() == After(was, e);
    }
  }

  // -- Runs of failures ---------------------------------------------------------------

  function Run(c: Cache, ev: seq<Event>): (d: Cache)
    requires |c.slots| == PENALTY_SLOTS && 0 <= c.next < PENALTY_SLOTS
    ensures |d.slots| == PENALTY_SLOTS && 0 <= d.next < PENALTY_SLOTS
  {
    if ev == [] then c else After(Run(c, ev[..|ev| - 1]), ev[|ev| - 1])
  }

  function Fails(ev: seq<Event>, key: int): nat {
    if ev == [] then 0 else Fails(ev[..|ev| - 1], key) + if ev[|ev| - 1].key == key then 1 else 0
  }

  /** How many addresses entered the cache. */
  function Inserts(c: Cache, ev: seq<Event>): nat
    requires |c.slots| == PENALTY_SLOTS && 0 <= c.next < PENALTY_SLOTS
  {
    if ev == [] then 0
    else
      var d, e := Run(c, ev[..|ev| - 1]), ev[|ev| - 1];
      Inserts(c, ev[..|ev| - 1]) + if SlotOf(d.slots, e.key) < 0 then 1 else 0
  }

  ghost predicate WfEvents(ev: seq<Event>) { forall j {:trigger ev[j]} :: 0 <= j < |ev| ==> WfEvent(ev[j]) }

  lemma {:induction false} RunWf(c: Cache, ev: seq<Event>)
    requires Wf(c) && WfEvents(ev)
    ensures Wf(Run(c, ev))
  {
    if ev != [] {
      RunWf(c, ev[..|ev| - 1]);
      AfterWf(Run(c, ev[..|ev| - 1]), ev[|ev| - 1]);
    }
  }

  /** One failure: whose slot moves on, and which address leaves. */
  lemma AfterSlot(c: Cache, e: Event, i: int)
    requires Wf(c) && WfEvent(e) && 0 <= i < PENALTY_SLOTS
    ensures var inserts := SlotOf(c.slots, e.key) < 0;
      && After(c, e).next == (if inserts then (c.next + 1) % PENALTY_SLOTS else c.next)
      && After(c, e).slots[i].pc == (if inserts && c.next == i then e.key else c.slots[i].pc)
  {
  }

  lemma Wrap(a: int)
    ensures (a % PENALTY_SLOTS + 1) % PENALTY_SLOTS == (a + 1) % PENALTY_SLOTS
  {
  }

  /** The slot the round robin takes next moves by one for each insertion. */
  lemma {:induction false} RoundRobin(c: Cache, ev: seq<Event>)
    requires Wf(c) && WfEvents(ev)
    ensures Run(c, ev).next == (c.next + Inserts(c, ev)) % PENALTY_SLOTS
  {
    hide After, Wf, SlotOf;
    NextIn(c);
    if ev != [] {
      var n := |ev| - 1;
      RoundRobin(c, ev[..n]);
      RunWf(c, ev[..n]);
      AfterSlot(Run(c, ev[..n]), ev[n], 0);
      Wrap(c.next + Inserts(c, ev[..n]));
    }
  }

  lemma NextIn(c: Cache)
    requires Wf(c)
    ensures 0 <= c.next < PENALTY_SLOTS == |c.slots|
  {
  }

  lemma Taken(c: Cache, e: Event, i: int)
    requires Wf(c) && 0 <= i < PENALTY_SLOTS && SlotOf(c.slots, e.key) < 0
    ensures c.slots[i].pc != e.key
  {
  }

  /** An address that just entered the cache stays in its slot until 64 others
      have been inserted, and leaves it then. */
  lemma {:induction false} Survives(c: Cache, ev: seq<Event>, i: int)
    requires Wf(c) && WfEvents(ev) && 0 <= i < PENALTY_SLOTS && c.slots[i].pc != 0 && c.next == (i + 1) % PENALTY_SLOTS
    ensures Inserts(c, ev) < PENALTY_SLOTS ==> Run(c, ev).slots[i].pc == c.slots[i].pc
    ensures Inserts(c, ev) == PENALTY_SLOTS ==> Run(c, ev).slots[i].pc != c.slots[i].pc
  {
    hide After, Wf, SlotOf;
    NextIn(c);
    if ev != [] {
      var n := |ev| - 1;
      var d, k := Run(c, ev[..n]), Inserts(c, ev[..n]);
      Survives(c, ev[..n], i);
      RoundRobin(c, ev[..n]);
      RunWf(c, ev[..n]);
      AfterSlot(d, ev[n], i);
      NextIs(i, k);
      if SlotOf(d.slots, ev[n].key) < 0 && k < PENALTY_SLOTS { Taken(d, ev[n], i); }
    }
  }

  /** Counting from the slot behind `i`, the round robin is back at `i` at 63. */
  lemma NextIs(i: int, k: int)
    requires 0 <= i < PENALTY_SLOTS && 0 <= k
    ensures ((i + 1) % PENALTY_SLOTS + k) % PENALTY_SLOTS == (i + 1 + k) % PENALTY_SLOTS
    ensures k < PENALTY_SLOTS ==> ((i + 1 + k) % PENALTY_SLOTS == i <==> k == PENALTY_SLOTS - 1)
  {
  }

  // -- Giving up at the eighth failure ------------------------------------------------------

  /** What noise can make of the penalty after `n` failures. */
  function Low(n: nat): int { if n <= 1 then PENALTY_MIN else 2 * Low(n - 1) }
  function High(n: nat): int { if n <= 1 then PENALTY_MIN else 2 * High(n - 1) + 15 }

  lemma Bands()
    ensures Low(7) == 4608 && High(6) == 2769 && High(7) == 5553
  {
    assert Low(2) == 144 && Low(3) == 288 && Low(4) == 576 && Low(5) == 1152 && Low(6) == 2304;
    assert High(2) == 159 && High(3) == 333 && High(4) == 681 && High(5) == 1377;
  }

  lemma {:induction false} HighUp(m: nat, n: nat)
    requires m <= n
    ensures High(m) <= High(n) && High(n) >= PENALTY_MIN && Low(n) >= PENALTY_MIN
    decreases n
  {
    if n > 1 {
      HighUp(if m < n then m else m - 1, n - 1);
    }
  }

  /** The cache entry of an address that failed `n` times. */
  ghost predicate Entry(c: Cache, key: int, n: nat) {
    var i := SlotOf(c.slots, key);
    if n == 0 then i < 0 else i >= 0 && var m := if n < 7 then n else 7; Low(m) <= c.slots[i].val <= High(m)
  }

  /** Unless its slot is taken, an instruction is given up by exactly its
      eighth failure, whatever the noise. */
  lemma {:induction false} Eighth(c: Cache, ev: seq<Event>, key: int)
    requires Wf(c) && WfEvents(ev) && key != 0 && SlotOf(c.slots, key) < 0
    requires forall j {:trigger ev[..j]} :: 0 <= j <= |ev| && Fails(ev[..j], key) > 0 ==> SlotOf(Run(c, ev[..j]).slots, key) >= 0
    ensures Entry(Run(c, ev), key, Fails(ev, key))
    ensures ev != [] && ev[|ev| - 1].key == key ==> (Blacklists(Run(c, ev[..|ev| - 1]), ev[|ev| - 1]) <==> Fails(ev, key) >= 8)
  {
    hide Low, High, Wf;
    NextIn(c);
    if ev != [] {
      var n := |ev| - 1;
      forall j | 0 <= j <= n && Fails(ev[..n][..j], key) > 0 ensures SlotOf(Run(c, ev[..n][..j]).slots, key) >= 0 { assert ev[..n][..j] == ev[..j]; }
      Eighth(c, ev[..n], key);
      RunWf(c, ev[..n]);
      assert ev[..|ev|] == ev;
      NextFailure(Run(c, ev[..n]), ev[n], key, Fails(ev[..n], key));
    }
  }

  lemma NextFailure(c: Cache, e: Event, key: int, n: nat)
    requires Wf(c) && WfEvent(e) && key != 0 && Entry(c, key, n)
    requires n + (if e.key == key then 1 else 0) > 0 ==> SlotOf(After(c, e).slots, key) >= 0
    ensures Entry(After(c, e), key, n + if e.key == key then 1 else 0)
    ensures e.key == key ==> (Blacklists(c, e) <==> n >= 7)
  {
    var i := SlotOf(c.slots, key);
    Bands();
    AfterWf(c, e);
    if e.key == key {
      if 0 < n < 7 {
        HighUp(n, 6);
      }
    } else if n > 0 {
      AfterSlot(c, e, i);
      Distinct(After(c, e), key, i);
    } else {
      Stays(c, e, key);
    }
  }

  lemma Distinct(c: Cache, key: int, i: int)
    requires Wf(c) && key != 0 && 0 <= i < PENALTY_SLOTS && c.slots[i].pc == key
    ensures SlotOf(c.slots, key) == i
  {
  }

  lemma Stays(c: Cache, e: Event, key: int)
    requires Wf(c) && WfEvent(e) && key != e.key && SlotOf(c.slots, key) < 0
    ensures SlotOf(After(c, e).slots, key) < 0
  {
    var i := SlotOf(After(c, e).slots, key);
    if i >= 0 { AfterSlot(c, e, i); }
  }
}
