/** The columns a context may start from. */
module ColumnList {
  import opened Prelude

  datatype Result = Invalid | NoMemory | Columns(list: seq<nat>)

  /** The device's columns from which a context of `numCol` columns may start. */
  datatype Layout = Layout(numCol: nat, width: nat, start: nat, end: int)

  /** With natural alignment a context starts at a multiple of its width. One as wide as the device starts at 0. */
  function LayoutOf(numTiles: nat, rowCount: nat, totalCol: nat, firstCol: nat, natural: bool): Layout
    requires rowCount > 0
  {
    var numCol := numTiles / rowCount;
    var end := totalCol - numCol;
    Layout(numCol, if natural then numCol else 1, if firstCol > 0 && end == 0 then 0 else firstCol, end)
  }

  predicate Fits(l: Layout) {
    l.numCol > 0 && l.end >= 0 && l.width > 0
  }

  /** A column from which the context may start. */
  predicate Allowed(l: Layout, c: nat)
    requires l.width > 0
  {
    l.start <= c <= l.end && c % l.width == 0
  }

  predicate Ascending(list: seq<nat>) {
    forall i, j | 0 <= i < j < |list| :: list[i] < list[j]
  }

  /** The list is exactly the allowed columns, in ascending order. */
  ghost predicate Lists(list: seq<nat>, l: Layout)
    requires l.width > 0
  {
    Ascending(list) && forall c: nat :: c in list <==> Allowed(l, c)
  }

  // What the list is for, in plain terms

  /** A context of n columns may start at c: inside the device, from the first column on, and aligned if need be. */
  predicate MayStart(n: nat, totalCol: nat, firstCol: nat, natural: bool, c: nat) {
    && n > 0 && c + n <= totalCol && (firstCol <= c || n == totalCol)
    && (natural ==> c % n == 0)
  }

  ghost predicate IsStartList(list: seq<nat>, n: nat, totalCol: nat, firstCol: nat, natural: bool) {
    Ascending(list) && forall c: nat :: c in list <==> MayStart(n, totalCol, firstCol, natural, c)
  }

  lemma AllowedIff(numTiles: nat, rowCount: nat, totalCol: nat, firstCol: nat, natural: bool, c: nat)
    requires rowCount > 0 && Fits(LayoutOf(numTiles, rowCount, totalCol, firstCol, natural))
    ensures Allowed(LayoutOf(numTiles, rowCount, totalCol, firstCol, natural), c)
       <==> MayStart(numTiles / rowCount, totalCol, firstCol, natural, c)
  {
    if natural && c == 0 {
      QuotientIs(0, numTiles / rowCount, 0, 0);
    }
  }

  lemma ListsIsStartList(numTiles: nat, rowCount: nat, totalCol: nat, firstCol: nat, natural: bool, list: seq<nat>)
    requires rowCount > 0 && Fits(LayoutOf(numTiles, rowCount, totalCol, firstCol, natural))
    requires Lists(list, LayoutOf(numTiles, rowCount, totalCol, firstCol, natural))
    ensures IsStartList(list, numTiles / rowCount, totalCol, firstCol, natural)
  {
    forall c: nat
      ensures c in list <==> MayStart(numTiles / rowCount, totalCol, firstCol, natural, c)
    {
      AllowedIff(numTiles, rowCount, totalCol, firstCol, natural, c);
    }
  }

  lemma NoneAllowed(numTiles: nat, rowCount: nat, totalCol: nat, firstCol: nat, natural: bool)
    requires rowCount > 0 && Fits(LayoutOf(numTiles, rowCount, totalCol, firstCol, natural))
    ensures (exists c: nat :: Allowed(LayoutOf(numTiles, rowCount, totalCol, firstCol, natural), c))
       <==> (exists c: nat :: MayStart(numTiles / rowCount, totalCol, firstCol, natural, c))
  {
    var l := LayoutOf(numTiles, rowCount, totalCol, firstCol, natural);
    forall c: nat
      ensures Allowed(l, c) <==> MayStart(numTiles / rowCount, totalCol, firstCol, natural, c)
    {
      AllowedIff(numTiles, rowCount, totalCol, firstCol, natural, c);
    }
  }

  // Multiples

  lemma PlusMod(a: nat, w: nat)
    requires w > 0
    ensures (a + w) % w == a % w && (a + w) / w == a / w + 1
  {
    QuotientIs(a + w, w, a / w + 1, a % w);
  }

  /** The k-th multiple from a multiple on, and where a multiple stands. */
  lemma {:induction false} StepsApart(a: nat, k: nat, w: nat)
    requires w > 0 && a % w == 0
    ensures (a + k * w) % w == 0
  {
    if k > 0 {
      StepsApart(a, k - 1, w);
      PlusMod(a + (k - 1) * w, w);
      assert a + k * w == a + (k - 1) * w + w;
    }
  }

  lemma {:induction false} StepsTo(a: nat, c: nat, w: nat) returns (k: nat)
    requires w > 0 && a % w == 0 && c % w == 0 && a <= c
    ensures c == a + k * w && (c - a) / w == k
    decreases c
  {
    if c == a {
      k := 0;
    } else {
      MultiplesApart(a, c, w);
      PlusMod(c - w, w);
      k := StepsTo(a, c - w, w);
      PlusMod(c - w - a, w);
      assert c == a + k * w + w == a + (k + 1) * w;
      k := k + 1;
    }
  }

  /** Two multiples of a width are equal or at least the width apart. */
  lemma MultiplesApart(a: nat, c: nat, w: nat)
    requires w > 0 && a % w == 0 && c % w == 0 && a < c
    ensures a + w <= c
  {
    if c < a + w {
      SmallStep(a, c - a, w);
    }
  }

  lemma SmallStep(a: nat, d: nat, w: nat)
    requires w > 0 && a % w == 0 && d < w
    ensures (a + d) % w == d
  {
    assert a == a / w * w;
    QuotientIs(a + d, w, a / w, d);
  }

  lemma RoundUp(start: nat, w: nat)
    requires w > 0
    ensures var first := start + (w - start % w) % w; start <= first < start + w && first % w == 0
  {
    var q, r := start / w, start % w;
    assert start == q * w + r;
    if r == 0 {
      QuotientIs(w, w, 1, 0);
    } else {
      QuotientIs(w - r, w, 0, w - r);
      QuotientIs(start + (w - r), w, q + 1, 0);
    }
  }

  lemma RoundDown(end: nat, w: nat)
    requires w > 0
    ensures var last := end - end % w; 0 <= last <= end < last + w && last % w == 0
  {
    QuotientIs(end - end % w, w, end / w, 0);
  }

  /** Rounding the bounds inwards loses no multiple. */
  lemma BoundsRounded(l: Layout, first: nat, last: nat, c: nat)
    requires Fits(l) && first == l.start + (l.width - l.start % l.width) % l.width
    requires last == l.end - l.end % l.width
    ensures Allowed(l, c) <==> first <= c <= last && c % l.width == 0
  {
    RoundUp(l.start, l.width);
    RoundDown(l.end, l.width);
    if Allowed(l, c) {
      if c < first { MultiplesApart(c, first, l.width); }
      if last < c { MultiplesApart(last, c, l.width); }
    }
  }

  /** The columns from `first` on, `width` apart. */
  predicate Spaced(list: seq<nat>, first: nat, width: nat) {
    forall i | 0 <= i < |list| :: list[i] == first + i * width
  }

  lemma SpacedIsAscending(list: seq<nat>, first: nat, width: nat)
    requires Spaced(list, first, width) && width > 0
    ensures Ascending(list)
  {
    forall i, j | 0 <= i < j < |list|
      ensures list[i] < list[j]
    {
      ProductUp(width, i + 1, j);
      assert (i + 1) * width == i * width + width;
    }
  }

  lemma SpacedHas(list: seq<nat>, first: nat, last: nat, width: nat, c: nat)
    requires width > 0 && first % width == 0 && last % width == 0 && first <= last
    requires Spaced(list, first, width) && |list| == (last - first) / width + 1
    ensures c in list <==> first <= c <= last && c % width == 0
  {
    var n := StepsTo(first, last, width);
    if c in list {
      var i :| 0 <= i < |list| && list[i] == c;
      StepIsInside(first, i, n, width);
    }
    if first <= c <= last && c % width == 0 {
      var k := StepsTo(first, c, width);
      FewerSteps(k, n, width);
      assert list[k] == c;
    }
  }

  lemma StepIsInside(first: nat, i: nat, n: nat, width: nat)
    requires width > 0 && first % width == 0 && i <= n
    ensures first <= first + i * width <= first + n * width && (first + i * width) % width == 0
  {
    StepsApart(first, i, width);
    ProductUp(width, 0, i);
    ProductUp(width, i, n);
  }

  lemma {:induction false} FewerSteps(k: nat, n: nat, width: nat)
    requires width > 0 && k * width <= n * width
    ensures k <= n
  {
    if k > 0 && n > 0 {
      FewerSteps(k - 1, n - 1, width);
    } else if k > 0 {
      ProductUp(width, 1, k);
    }
  }

  /**
   The start columns of a context: exactly the columns it may start at, ascending. It is refused when it has no
   tiles, the device has no rows, or it may start nowhere.
   */
  method StartColumns(numTiles: nat, rowCount: nat, totalCol: nat, firstCol: nat, natural: bool, memory: bool)
    returns (r: Result)
    ensures r == Invalid <==>
            || numTiles == 0 || rowCount == 0
            || (forall c: nat :: !MayStart(numTiles / rowCount, totalCol, firstCol, natural, c))
    ensures r == NoMemory ==> !memory
    ensures r.Columns? ==> memory && IsStartList(r.list, numTiles / rowCount, totalCol, firstCol, natural)
  {
    if numTiles == 0 || rowCount == 0 {
      return Invalid;
    }
    ghost var l := LayoutOf(numTiles, rowCount, totalCol, firstCol, natural);
    var numCol := numTiles / rowCount;
    if numCol == 0 || numCol > totalCol {
      return Invalid;
    }
    var width := if natural then numCol else 1;
    var start, end := firstCol, totalCol - numCol;
    if start > 0 && end == 0 {
      start := 0;
    }
    RoundUp(start, width);
    RoundDown(end, width);
    var first := start + (width - start % width) % width;
    var last := end - end % width;
    var entries := 0;
    if last >= first {
      entries := (last - first) / width + 1;
    }
    ListIsRight(l, first, last);
    NoneAllowed(numTiles, rowCount, totalCol, firstCol, natural);
    if entries == 0 {
      return Invalid;
    }
    if !memory {
      return NoMemory;
    }
    var list := Fill(first, width, entries);
    ListsIsStartList(numTiles, rowCount, totalCol, firstCol, natural, list);
    return Columns(list);
  }

  method Fill(first: nat, width: nat, entries: nat) returns (list: seq<nat>)
    requires entries > 0
    ensures |list| == entries && Spaced(list, first, width)
  {
    list := [first];
    for i := 1 to entries
      invariant |list| == i && Spaced(list, first, width)
    {
      list := list + [list[i - 1] + width];
    }
  }

  lemma ListIsRight(l: Layout, first: nat, last: nat)
    requires Fits(l) && first == l.start + (l.width - l.start % l.width) % l.width
    requires last == l.end - l.end % l.width
    ensures (exists c: nat :: Allowed(l, c)) <==> first <= last
    ensures forall list: seq<nat> |
              first <= last && |list| == (last - first) / l.width + 1 && Spaced(list, first, l.width) :: Lists(list, l)
  {
    RoundUp(l.start, l.width);
    RoundDown(l.end, l.width);
    forall c: nat
      ensures Allowed(l, c) <==> first <= c <= last && c % l.width == 0
    {
      BoundsRounded(l, first, last, c);
    }
    assert first <= last ==> Allowed(l, first);
    forall list: seq<nat> | first <= last && |list| == (last - first) / l.width + 1 && Spaced(list, first, l.width)
      ensures Lists(list, l)
    {
      SpacedIsAscending(list, first, l.width);
      forall c: nat
        ensures c in list <==> Allowed(l, c)
      {
        SpacedHas(list, first, last, l.width, c);
      }
    }
  }

  /** Every placement from a list stays inside the device. */
  lemma PlacementInside(list: seq<nat>, n: nat, totalCol: nat, firstCol: nat, natural: bool, c: nat)
    requires IsStartList(list, n, totalCol, firstCol, natural) && c in list
    ensures c + n <= totalCol
  {
  }

  /** With natural alignment, two placements of the same width, from any two lists, are the same or do not overlap. */
  lemma NaturalPlacementsApart(list: seq<nat>, list': seq<nat>, n: nat, totalCol: nat, firstCol: nat, c: nat, d: nat)
    requires IsStartList(list, n, totalCol, firstCol, true) && IsStartList(list', n, totalCol, firstCol, true)
    requires c in list && d in list'
    ensures c == d || c + n <= d || d + n <= c
  {
    assert MayStart(n, totalCol, firstCol, true, c) && MayStart(n, totalCol, firstCol, true, d);
    if c < d {
      MultiplesApart(c, d, n);
    } else if d < c {
      MultiplesApart(d, c, n);
    }
  }
}
