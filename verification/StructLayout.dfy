/** Structs and unions: where their fields are placed, and the entries of the
    type table they become. */
module StructLayout {

  const U32 := 0x1_0000_0000
  const U32_MAX := 0xFFFF_FFFF
  const MAX_FIELDS := 10000

  // -- Rounding ------------------------------------------------------------------------

  function Pow2(k: nat): (p: nat)
    ensures p > 0
  { if k == 0 then 1 else 2 * Pow2(k - 1) }

  predicate Multiple(x: int, k: nat) { x % Pow2(k) == 0 }

  /** Adding one less than the alignment and clearing the low bits. */
  function Up(x: int, k: nat): int { (x + Pow2(k) - 1) - (x + Pow2(k) - 1) % Pow2(k) }

  lemma Distribute(p: int, a: int, b: int)
    ensures p * (a - b) == p * a - p * b && p * (a + b) == p * a + p * b
  {
  }

  /** No multiple lies strictly between nothing and one. */
  lemma Between(p: int, q: int)
    requires p > 0
    ensures !(0 < p * q < p)
  {
    if q >= 1 { assert p * q >= p; } else { assert p * q <= 0; }
  }

  lemma Times(p: int, q: int)
    requires p > 0
    ensures (p * q) % p == 0
  {
    var x := p * q;
    Distribute(p, q, x / p);
    assert p * (q - x / p) == x % p;
    Between(p, q - x / p);
  }

  lemma Parts(x: int, p: int) returns (q: int)
    requires p > 0 && x % p == 0
    ensures x == p * q
  {
    q := x / p;
  }

  lemma Sum(x: int, y: int, k: nat)
    requires Multiple(x, k) && Multiple(y, k)
    ensures Multiple(x + y, k) && Multiple(x - y, k)
  {
    var p := Pow2(k);
    var a := Parts(x, p);
    var b := Parts(y, p);
    Distribute(p, a, b);
    Times(p, a + b);
    Times(p, a - b);
  }

  /** Rounding up gives the least multiple that is not below. */
  lemma UpIs(x: int, k: nat)
    ensures Multiple(Up(x, k), k) && x <= Up(x, k) < x + Pow2(k)
  {
    var p := Pow2(k);
    var z := x + p - 1;
    assert z == p * (z / p) + z % p;
    Times(p, z / p);
  }

  lemma UpLeast(x: int, k: nat, y: int)
    requires x <= y && Multiple(y, k)
    ensures Up(x, k) <= y
  {
    var p := Pow2(k);
    UpIs(x, k);
    if Up(x, k) > y {
      Sum(Up(x, k), y, k);
      var q := Parts(Up(x, k) - y, p);
      Between(p, q);
    }
  }

  lemma UpKeeps(x: int, k: nat)
    requires Multiple(x, k)
    ensures Up(x, k) == x
  {
    UpIs(x, k);
    UpLeast(x, k, x);
  }

  lemma {:induction false} PowParts(j: nat, k: nat) returns (m: nat)
    requires j <= k
    ensures Pow2(k) == Pow2(j) * m
    decreases k
  {
    if j == k {
      m := 1;
    } else {
      m := PowParts(j, k - 1);
      m := 2 * m;
    }
  }

  lemma Coarser(x: int, j: nat, k: nat)
    requires j <= k && Multiple(x, k)
    ensures Multiple(x, j)
  {
    var m := PowParts(j, k);
    var q := Parts(x, Pow2(k));
    assert x == Pow2(j) * (m * q);
    Times(Pow2(j), m * q);
  }

  // -- Placing fields --------------------------------------------------------------------

  /** Size and alignment of a field's type, the alignment as a power of two. */
  datatype Item = Item(size: nat, align: nat)

  /** As the parser places fields: the running size is rounded before a field and
      behind it, by the field's alignment. */
  function Place(items: seq<Item>, total: int): (offs: seq<int>)
    ensures |offs| == |items|
    decreases |items|
  {
    if items == [] then []
    else
      var off := Up(total, items[0].align);
      [off] + Place(items[1..], Up(off + items[0].size, items[0].align))
  }

  function End(items: seq<Item>, total: int): int
    decreases |items|
  { if items == [] then total else End(items[1..], Up(Up(total, items[0].align) + items[0].size, items[0].align)) }

  function MaxAlign(items: seq<Item>): (k: nat)
    ensures forall i {:trigger items[i]} :: 0 <= i < |items| ==> items[i].align <= k
  {
    if items == [] then 0
    else
      var k := MaxAlign(items[1..]);
      assert forall i {:trigger items[i]} :: 0 < i < |items| ==> items[i] == items[1..][i - 1];
      if items[0].align > k then items[0].align else k
  }

  function Size(items: seq<Item>): int { Up(End(items, 0), MaxAlign(items)) }

  /** As the C standard places them: each field at the next multiple of its
      alignment, and the size is a multiple of the largest. */
  function CPlace(items: seq<Item>, total: int): (offs: seq<int>)
    ensures |offs| == |items|
    decreases |items|
  {
    if items == [] then []
    else
      var off := Up(total, items[0].align);
      [off] + CPlace(items[1..], off + items[0].size)
  }

  function CEnd(items: seq<Item>, total: int): int
    decreases |items|
  { if items == [] then total else CEnd(items[1..], Up(total, items[0].align) + items[0].size) }

  function CSize(items: seq<Item>): int { Up(CEnd(items, 0), MaxAlign(items)) }

  lemma PlaceStep(items: seq<Item>, total: int)
    requires items != []
    ensures var off := Up(total, items[0].align);
      var next := Up(off + items[0].size, items[0].align);
      Place(items, total)[0] == off && Place(items, total)[1..] == Place(items[1..], next) && End(items, total) == End(items[1..], next)
  {
    hide Up;
  }

  /** Fields are aligned, in order without overlap, and between two bounds. */
  ghost predicate Fits(items: seq<Item>, offs: seq<int>, total: int, end: int) {
    && |offs| == |items| && total <= end
    && (forall i {:trigger offs[i]} :: 0 <= i < |items| ==> Multiple(offs[i], items[i].align) && total <= offs[i] && offs[i] + items[i].size <= end)
    && (forall i, j {:trigger offs[i], offs[j]} :: 0 <= i < j < |items| ==> offs[i] + items[i].size <= offs[j])
  }

  lemma FitsMore(items: seq<Item>, offs: seq<int>, total: int, next: int, end: int)
    requires items != [] && |offs| == |items| && Fits(items[1..], offs[1..], next, end)
    requires Multiple(offs[0], items[0].align) && total <= offs[0] && offs[0] + items[0].size <= next
    ensures Fits(items, offs, total, end)
  {
    hide Multiple;
    var r, o := items[1..], offs[1..];
    assert forall i {:trigger offs[i]} :: 0 < i < |items| ==> offs[i] == o[i - 1] && items[i] == r[i - 1];
  }

  lemma {:induction false} Placed(items: seq<Item>, total: int)
    ensures Fits(items, Place(items, total), total, End(items, total))
    decreases |items|
  {
    if items != [] {
      PlaceStep(items, total);
      hide Up, Multiple, Fits, Place, End;
      var it := items[0];
      var off := Up(total, it.align);
      var next := Up(off + it.size, it.align);
      UpIs(total, it.align);
      UpIs(off + it.size, it.align);
      Placed(items[1..], next);
      FitsMore(items, Place(items, total), total, next, End(items, total));
    }
  }

  /** Every field is aligned, the fields do not overlap and are inside the
      struct, and the size is a multiple of every alignment. */
  lemma Layout(items: seq<Item>)
    ensures Fits(items, Place(items, 0), 0, Size(items)) && Multiple(Size(items), MaxAlign(items))
  {
    Placed(items, 0);
    hide Up, Multiple, Place, End;
    UpIs(End(items, 0), MaxAlign(items));
  }

  predicate WholeSizes(items: seq<Item>) { forall i {:trigger items[i]} :: 0 <= i < |items| ==> Multiple(items[i].size, items[i].align) }

  /** Where sizes are multiples of alignments, rounding twice changes nothing. */
  lemma {:induction false} AsInC(items: seq<Item>, total: int)
    requires WholeSizes(items)
    ensures Place(items, total) == CPlace(items, total) && End(items, total) == CEnd(items, total)
    decreases |items|
  {
    if items != [] {
      var it := items[0];
      var off := Up(total, it.align);
      UpIs(total, it.align);
      Sum(off, it.size, it.align);
      UpKeeps(off + it.size, it.align);
      AsInC(items[1..], off + it.size);
    }
  }

  // -- Alignments that are too small --------------------------------------------------------

  /** The same sizes, and alignments that may be larger. */
  predicate Aligned(items: seq<Item>, c: seq<Item>) {
    |items| == |c| && forall i {:trigger items[i]} {:trigger c[i]} :: 0 <= i < |items| ==> items[i].size == c[i].size && items[i].align <= c[i].align
  }

  lemma SameUp(x: int, j: nat, k: nat)
    requires j <= k
    ensures Up(x, j) == Up(x, k) <==> Multiple(Up(x, j), k)
  {
    UpIs(x, j);
    UpIs(x, k);
    if Multiple(Up(x, j), k) {
      UpLeast(x, k, Up(x, j));
      Coarser(Up(x, k), j, k);
      UpLeast(x, j, Up(x, k));
    }
  }

  /** What C has placed before a field, rounded to the field's own alignment, is
      a multiple of the right one. */
  predicate FitsAt(items: seq<Item>, c: seq<Item>, total: int, i: nat)
    requires i < |items| == |c|
  { Multiple(Up(CEnd(c[..i], total), items[i].align), c[i].align) }

  predicate AllFit(items: seq<Item>, c: seq<Item>, total: int) {
    |items| == |c| && forall i {:trigger FitsAt(items, c, total, i)} :: 0 <= i < |items| ==> FitsAt(items, c, total, i)
  }

  /** The first field, and the others behind it. */
  lemma FitStep(items: seq<Item>, c: seq<Item>, total: int)
    requires items != [] && Aligned(items, c)
    ensures AllFit(items, c, total) <==>
      Multiple(Up(total, items[0].align), c[0].align) && AllFit(items[1..], c[1..], Up(total, c[0].align) + c[0].size)
  {
    hide Up, Multiple;
    var next := Up(total, c[0].align) + c[0].size;
    FirstFits(items, c, total);
    forall i: nat | i < |items| - 1
      ensures FitsAt(items, c, total, i + 1) == FitsAt(items[1..], c[1..], next, i)
    {
      assert c[..i + 1][1..] == c[1..][..i] && c[..i + 1][0] == c[0];
    }
    if AllFit(items, c, total) {
      assert FitsAt(items, c, total, 0);
      forall i | 0 <= i < |items[1..]| ensures FitsAt(items[1..], c[1..], next, i) { assert FitsAt(items, c, total, i + 1); }
    }
    if Multiple(Up(total, items[0].align), c[0].align) && AllFit(items[1..], c[1..], next) {
      forall i | 0 <= i < |items| ensures FitsAt(items, c, total, i) {
        if i > 0 { assert FitsAt(items[1..], c[1..], next, i - 1); }
      }
    }
  }

  lemma FirstFits(items: seq<Item>, c: seq<Item>, total: int)
    requires items != [] && |items| == |c|
    ensures FitsAt(items, c, total, 0) == Multiple(Up(total, items[0].align), c[0].align)
  {
    hide Up, Multiple;
    assert c[..0] == [];
  }

  lemma AlignedParts(items: seq<Item>, c: seq<Item>)
    requires Aligned(items, c) && items != []
    ensures c != [] && items[0].size == c[0].size && items[0].align <= c[0].align && Aligned(items[1..], c[1..])
  {
  }

  lemma {:induction false} FitAlike(items: seq<Item>, c: seq<Item>, total: int)
    requires Aligned(items, c)
    ensures CPlace(items, total) == CPlace(c, total) <==> AllFit(items, c, total)
    ensures CPlace(items, total) == CPlace(c, total) ==> CEnd(items, total) == CEnd(c, total)
    decreases |items|
  {
    if items != [] {
      hide Up, Multiple, AllFit, Aligned;
      var off, coff := Up(total, items[0].align), Up(total, c[0].align);
      AlignedParts(items, c);
      SameUp(total, items[0].align, c[0].align);
      FitAlike(items[1..], c[1..], coff + c[0].size);
      FitStep(items, c, total);
      CPlaceStep(items, total);
      CPlaceStep(c, total);
      hide CPlace, CEnd;
      assert CPlace(items, total) == [off] + CPlace(items[1..], off + items[0].size);
      assert CPlace(c, total) == [coff] + CPlace(c[1..], coff + c[0].size);
    }
  }

  lemma CPlaceStep(items: seq<Item>, total: int)
    requires items != []
    ensures var off := Up(total, items[0].align);
      var offs, rest := CPlace(items, total), CPlace(items[1..], off + items[0].size);
      offs == [off] + rest && offs[0] == off && offs[1..] == rest && CEnd(items, total) == CEnd(items[1..], off + items[0].size)
  {
    hide Up;
  }

  /** With alignments that are too small, the struct is laid out as in C if and
      only if what C has placed before each field, rounded to the small alignment,
      is a multiple of the right one, and so it is at the end. */
  lemma LaidOutAsInC(items: seq<Item>, c: seq<Item>)
    requires Aligned(items, c) && WholeSizes(items)
    ensures Place(items, 0) == CPlace(c, 0) && Size(items) == CSize(c)
      <==> AllFit(items, c, 0) && Multiple(Up(CEnd(c, 0), MaxAlign(items)), MaxAlign(c))
  {
    hide Up, Multiple, AllFit, WholeSizes, Aligned, CPlace, Place;
    AsInC(items, 0);
    FitAlike(items, c, 0);
    MaxGrows(items, c);
    SameUp(CEnd(c, 0), MaxAlign(items), MaxAlign(c));
  }

  predicate ArraysOnly(items: seq<Item>, c: seq<Item>) { |items| == |c| && forall i {:trigger items[i]} :: 0 <= i < |items| ==> items[i].align == c[i].align || items[i].align == 0 }

  /** Each array comes where C needs no padding. */
  predicate ArraysFit(items: seq<Item>, c: seq<Item>) {
    |items| == |c| && forall i {:trigger items[i]} :: 0 <= i < |items| ==> items[i].align == c[i].align || Multiple(CEnd(c[..i], 0), c[i].align)
  }

  /** Where only arrays have lost their alignment. */
  lemma ArraysAsInC(items: seq<Item>, c: seq<Item>)
    requires Aligned(items, c) && WholeSizes(items) && ArraysOnly(items, c)
    ensures Place(items, 0) == CPlace(c, 0) && Size(items) == CSize(c)
      <==> ArraysFit(items, c) && Multiple(Up(CEnd(c, 0), MaxAlign(items)), MaxAlign(c))
  {
    hide Place, CPlace, CEnd, WholeSizes, Aligned;
    LaidOutAsInC(items, c);
    forall i: nat | i < |items|
      ensures FitsAt(items, c, 0, i) == (items[i].align == c[i].align || Multiple(CEnd(c[..i], 0), c[i].align))
    {
      UpIs(CEnd(c[..i], 0), items[i].align);
      if items[i].align == 0 {
        OneMultiple(CEnd(c[..i], 0));
        UpKeeps(CEnd(c[..i], 0), 0);
      }
    }
  }

  lemma OneMultiple(x: int)
    ensures Multiple(x, 0)
  {
  }

  lemma {:induction false} MaxGrows(items: seq<Item>, c: seq<Item>)
    requires Aligned(items, c)
    ensures MaxAlign(items) <= MaxAlign(c)
  {
    if items != [] {
      assert Aligned(items[1..], c[1..]);
      MaxGrows(items[1..], c[1..]);
    }
  }

  /** `struct { char c; int a[2]; }`: array types carry no alignment, and the array
      is placed right behind the character. */
  lemma ArrayMisplaced()
    ensures Place([Item(1, 0), Item(8, 0)], 0) == [0, 1] && CPlace([Item(1, 0), Item(8, 2)], 0) == [0, 4]
  {
    hide Up;
    Ups();
    var a, c := [Item(1, 0), Item(8, 0)], [Item(1, 0), Item(8, 2)];
    assert a[1..] == [Item(8, 0)] && c[1..] == [Item(8, 2)];
    assert Place(a[1..], 1) == [1] && Place(a, 0) == [0] + Place(a[1..], 1);
    assert CPlace(c[1..], 1) == [4] && CPlace(c, 0) == [0] + CPlace(c[1..], 1);
  }

  lemma Ups()
    ensures Up(1, 2) == 4 && Up(0, 0) == 0 && Up(1, 0) == 1
  {
    assert Pow2(2) == 4;
  }
}
