/** The address range manager: first fit, and freed ranges merge with their neighbours. */
module RangeMgr {
  import opened Prelude
  import opened RangeSets

  /** Free and allocated ranges together are exactly the managed addresses, each on one side only. */
  ghost predicate Inv(free: seq<Range>, used: seq<Range>, lo: u64, hi: u64) {
    && Canonical(free) && Ordered(used)
    && (forall x: int :: Covers(free, x) || Covers(used, x) <==> lo <= x <= hi)
    && (forall x: int :: !(Covers(free, x) && Covers(used, x)))
  }

  /** The length the driver computes in 64 bits. */
  function Length(r: Range): u64 {
    (r.end - r.start + 1) % TWO_64
  }

  /** It is right except for the range of all addresses, which looks empty. */
  lemma LengthIff(r: Range)
    requires r.start <= r.end
    ensures Length(r) == r.end - r.start + 1 <==> r != Range(0, TWO_64 - 1)
    ensures r == Range(0, TWO_64 - 1) ==> Length(r) == 0
  {
  }

  /** The last address of an allocation, in 64 bits. */
  function LastAddress(start: u64, size: u64): u64 {
    (start + size - 1) % TWO_64
  }

  lemma FitsInside(r: Range, size: u64)
    requires r.start <= r.end && 0 < size <= Length(r)
    ensures LastAddress(r.start, size) == r.start + size - 1 <= r.end
  {
  }

  lemma LastOfNothing(start: u64)
    ensures LastAddress(start, 0) == if start == 0 then TWO_64 - 1 else start - 1
  {
  }

  predicate IsFirstFit(free: seq<Range>, size: u64, i: nat) {
    && i <= |free| && (forall j | 0 <= j < i :: Length(free[j]) < size)
    && (i < |free| ==> size <= Length(free[i]))
  }

  /** `r` moved from the free side to the allocated side. */
  ghost predicate Took(free: seq<Range>, used: seq<Range>, free': seq<Range>, used': seq<Range>, r: Range) {
    && r !in used && (forall q :: q in used' <==> q in used || q == r)
    && (forall x: int :: Covers(free, x) <==> Covers(free', x) || In(r, x))
    && (forall x: int :: !(Covers(free', x) && In(r, x)))
  }

  /** What freeing right after allocating leaves: the same free and allocated ranges. */
  lemma FreeUndoesAlloc(f0: seq<Range>, a0: seq<Range>, f1: seq<Range>, a1: seq<Range>,
                        f2: seq<Range>, a2: seq<Range>, r: Range)
    requires Canonical(f0) && Ordered(a0) && Canonical(f2) && Ordered(a2)
    requires Took(f0, a0, f1, a1, r) && Took(f2, a2, f1, a1, r)
    ensures f2 == f0 && a2 == a0
  {
    SameCoverage(f2, f0);
    SameElements(a2, a0);
  }

  /** The free ranges are determined by the allocated ones, in whatever order these were freed. */
  lemma FreeIsDetermined(f: seq<Range>, g: seq<Range>, used: seq<Range>, lo: u64, hi: u64)
    requires Inv(f, used, lo, hi) && Inv(g, used, lo, hi)
    ensures f == g
  {
    forall x: int
      ensures Covers(f, x) <==> Covers(g, x)
    {
      assert Covers(f, x) || Covers(used, x) <==> lo <= x <= hi;
      assert Covers(g, x) || Covers(used, x) <==> lo <= x <= hi;
    }
    SameCoverage(f, g);
  }

  lemma WholeRange(lo: u64, hi: u64)
    requires lo <= hi
    ensures Inv([Range(lo, hi)], [], lo, hi)
  {
    assert Range(lo, hi) in [Range(lo, hi)];
    assert forall x: int :: Covers([Range(lo, hi)], x) <==> In(Range(lo, hi), x);
  }

  /** With everything freed, one range is left. */
  lemma AllFreed(free: seq<Range>, lo: u64, hi: u64)
    requires lo <= hi && Inv(free, [], lo, hi)
    ensures free == [Range(lo, hi)]
  {
    WholeRange(lo, hi);
    FreeIsDetermined(free, [Range(lo, hi)], [], lo, hi);
  }

  // Allocating

  /** The free ranges when the i-th one has been used up to `end`. */
  function Remainder(free: seq<Range>, i: nat, end: u64): seq<Range>
    requires i < |free|
  {
    if end < free[i].end then Insert(Erase(free, i), Range(end + 1, free[i].end)) else Erase(free, i)
  }

  lemma RemainderCanonical(free: seq<Range>, i: nat, end: u64)
    requires Canonical(free) && i < |free| && free[i].start <= end <= free[i].end
    ensures Canonical(Remainder(free, i, end))
    ensures end < free[i].end ==>
              Remainder(free, i, end) == Spliced(free, i, i + 1, Range(end + 1, free[i].end))
  {
    if end < free[i].end {
      ShrunkCanonical(free, i, Range(end + 1, free[i].end));
    } else {
      EraseCanonical(free, i);
    }
  }

  lemma ShrunkCanonical(free: seq<Range>, i: nat, r: Range)
    requires Canonical(free) && i < |free| && free[i].start <= r.start <= r.end == free[i].end
    ensures Insert(Erase(free, i), r) == Spliced(free, i, i + 1, r) && Canonical(Spliced(free, i, i + 1, r))
  {
    assert forall j | 0 <= j < i :: free[j].end + 1 < r.start;
    assert forall j | i < j < |free| :: r.end + 1 < free[j].start;
    EraseThenInsert(free, i, i + 1, r);
    SpliceCanonical(free, i, i + 1, r);
  }

  lemma EraseCanonical(l: seq<Range>, k: nat)
    requires Canonical(l) && k < |l|
    ensures Canonical(Erase(l, k))
  {
    var m := Erase(l, k);
    assert forall q <- m :: q in l;
    forall i, j | 0 <= i < j < |m|
      ensures m[i].end + 1 < m[j].start
    {
      ErasedAt(l, k, i);
      ErasedAt(l, k, j);
    }
  }

  lemma ErasedAt(l: seq<Range>, k: nat, i: nat)
    requires k < |l| && i < |l| - 1
    ensures Erase(l, k)[i] == l[if i < k then i else i + 1]
  {
  }

  lemma RemainderCovers(free: seq<Range>, i: nat, r: Range, x: int)
    requires Canonical(free) && i < |free| && free[i].start == r.start <= r.end <= free[i].end
    ensures Covers(Remainder(free, i, r.end), x) <==> Covers(free, x) && !In(r, x)
  {
    OthersDoNotCover(free, i, x);
    SplitCovers(free, i, x);
    HeadCovers(free, i, x);
    if r.end < free[i].end {
      RemainderCanonical(free, i, r.end);
      SpliceCovers(free, i, i + 1, Range(r.end + 1, free[i].end), x);
    } else {
      CoversConcat(free[..i], free[i + 1..], x);
    }
  }

  lemma OthersDoNotCover(l: seq<Range>, i: nat, x: int)
    requires Canonical(l) && i < |l|
    ensures In(l[i], x) ==> !Covers(l[..i], x) && !Covers(l[i + 1..], x)
  {
    assert forall q <- l[..i] :: q.end < l[i].start;
    assert forall q <- l[i + 1..] :: l[i].end < q.start;
  }

  lemma NotCoveredIsDisjoint(l: seq<Range>, r: Range)
    requires (forall q <- l :: q.start <= q.end) && r.start <= r.end && forall x: int | In(r, x) :: !Covers(l, x)
    ensures Disjoint(l, r)
  {
    forall q <- l
      ensures q.end < r.start || r.end < q.start
    {
      var x := if q.start < r.start then r.start else q.start;
      assert In(q, x) ==> Covers(l, x);
    }
  }

  lemma TakeKeepsInv(free: seq<Range>, used: seq<Range>, lo: u64, hi: u64, i: nat, r: Range)
    requires Inv(free, used, lo, hi) && i < |free| && free[i].start == r.start <= r.end <= free[i].end
    ensures Took(free, used, Remainder(free, i, r.end), Insert(used, r), r)
    ensures Inv(Remainder(free, i, r.end), Insert(used, r), lo, hi)
  {
    var left := Remainder(free, i, r.end);
    RemainderCanonical(free, i, r.end);
    forall x: int
      ensures Covers(left, x) <==> Covers(free, x) && !In(r, x)
      ensures In(r, x) ==> Covers(free, x)
    {
      RemainderCovers(free, i, r, x);
      assert free[i] in free;
    }
    NotCoveredIsDisjoint(used, r);
    InsertOrdered(used, r);
    MovedKeepsInv(free, used, left, Insert(used, r), r, lo, hi);
  }

  lemma MovedKeepsInv(free: seq<Range>, used: seq<Range>, free': seq<Range>, used': seq<Range>, r: Range,
                      lo: u64, hi: u64)
    requires Inv(free, used, lo, hi) && Canonical(free') && Ordered(used') && Took(free, used, free', used', r)
    ensures Inv(free', used', lo, hi)
  {
    forall x: int
      ensures Covers(used', x) <==> Covers(used, x) || In(r, x)
    {
      if Covers(used, x) {
        var q :| q in used && In(q, x);
        assert q in used';
      }
      assert r in used';
    }
  }

  // Freeing

  /** A range joins the free ones, together with the free neighbours it touches. */
  function Merge(free: seq<Range>, r: Range): seq<Range> {
    var j := UpperBound(free, r);
    Insert(Stripped(free, j, JoinsBefore(free, j, r), JoinsAfter(free, j, r)), Merged(free, j, r))
  }

  /** The free ranges without the one before place j, or the one at j, or both. */
  function Stripped(free: seq<Range>, j: nat, before: bool, behind: bool): seq<Range>
    requires j <= |free| && (before ==> j > 0) && (behind ==> j < |free|)
  {
    free[..if before then j - 1 else j] + free[if behind then j + 1 else j..]
  }

  predicate JoinsBefore(free: seq<Range>, j: nat, r: Range)
    requires j <= |free|
  {
    j > 0 && (free[j - 1].end + 1) % TWO_64 == r.start
  }

  predicate JoinsAfter(free: seq<Range>, j: nat, r: Range)
    requires j <= |free|
  {
    j < |free| && free[j].start == (r.end + 1) % TWO_64
  }

  function Merged(free: seq<Range>, j: nat, r: Range): Range
    requires j <= |free|
  {
    Range(if JoinsBefore(free, j, r) then free[j - 1].start else r.start,
          if JoinsAfter(free, j, r) then free[j].end else r.end)
  }

  predicate SplitAt(free: seq<Range>, j: nat, r: Range) {
    && j <= |free| && r.start <= r.end
    && (forall i | 0 <= i < j :: free[i].end < r.start) && (forall i | j <= i < |free| :: r.end < free[i].start)
  }

  lemma UpperBoundSplits(free: seq<Range>, r: Range)
    requires Canonical(free) && r.start <= r.end && Disjoint(free, r)
    ensures SplitAt(free, UpperBound(free, r), r)
  {
    assert forall i | 0 <= i < |free| :: free[i] in free;
  }

  /** The ranges from b up to a, which stand around the place j of r, touch r and make m with it. */
  predicate Joint(free: seq<Range>, j: nat, r: Range, b: nat, a: nat, m: Range) {
    && b <= j <= a <= |free|
    && (if b == j then m.start == r.start && (j > 0 ==> free[j - 1].end + 1 < r.start)
        else b == j - 1 && free[b].end + 1 == r.start && m.start == free[b].start)
    && (if a == j then m.end == r.end && (j < |free| ==> r.end + 1 < free[j].start)
        else a == j + 1 && r.end + 1 == free[j].start && m.end == free[j].end)
  }

  lemma MergeIsJoint(free: seq<Range>, r: Range) returns (j: nat, b: nat, a: nat, m: Range)
    requires Canonical(free) && r.start <= r.end && Disjoint(free, r)
    ensures SplitAt(free, j, r) && Joint(free, j, r, b, a, m) && Merge(free, r) == Insert(free[..b] + free[a..], m)
  {
    j, m := UpperBound(free, r), Merged(free, UpperBound(free, r), r);
    b := if JoinsBefore(free, j, r) then j - 1 else j;
    a := if JoinsAfter(free, j, r) then j + 1 else j;
    UpperBoundSplits(free, r);
    JoinsIff(free, j, r);
  }

  lemma JoinsIff(free: seq<Range>, j: nat, r: Range)
    requires SplitAt(free, j, r)
    ensures JoinsBefore(free, j, r) <==> j > 0 && free[j - 1].end + 1 == r.start
    ensures JoinsAfter(free, j, r) <==> j < |free| && free[j].start == r.end + 1
  {
  }

  lemma JointIsApart(free: seq<Range>, j: nat, r: Range, b: nat, a: nat, m: Range)
    requires Canonical(free) && SplitAt(free, j, r) && Joint(free, j, r, b, a, m)
    ensures m.start <= m.end
    ensures forall i | 0 <= i < b :: free[i].end + 1 < m.start
    ensures forall i | a <= i < |free| :: m.end + 1 < free[i].start
  {
    assert b < j ==> free[b] in free;
    assert j < a ==> free[j] in free;
  }

  lemma JointCovers(free: seq<Range>, j: nat, r: Range, b: nat, a: nat, m: Range, x: int)
    requires Canonical(free) && SplitAt(free, j, r) && Joint(free, j, r, b, a, m)
    ensures Covers(Spliced(free, b, a, m), x) <==> Covers(free, x) || In(r, x)
  {
    SpliceCovers(free, b, a, m, x);
    SplitCovers(free, b, x);
    if b < j {
      HeadCovers(free, b, x);
      assert free[b] in free;
    }
    if j < a {
      HeadCovers(free, j, x);
      assert free[j] in free;
    }
  }

  /** Merging keeps the free ranges apart and adds exactly the addresses of the range. */
  lemma MergeOk(free: seq<Range>, r: Range)
    requires Canonical(free) && r.start <= r.end && Disjoint(free, r)
    ensures Canonical(Merge(free, r))
    ensures forall x: int :: Covers(Merge(free, r), x) <==> Covers(free, x) || In(r, x)
  {
    var j, b, a, m := MergeIsJoint(free, r);
    JointIsApart(free, j, r, b, a, m);
    EraseThenInsert(free, b, a, m);
    SpliceCanonical(free, b, a, m);
    forall x: int
      ensures Covers(Merge(free, r), x) <==> Covers(free, x) || In(r, x)
    {
      JointCovers(free, j, r, b, a, m, x);
    }
  }

  lemma ReturnedKeepsInv(free: seq<Range>, used: seq<Range>, free': seq<Range>, used': seq<Range>, r: Range,
                         lo: u64, hi: u64)
    requires Inv(free, used, lo, hi) && Canonical(free') && Ordered(used') && Took(free', used', free, used, r)
    ensures Inv(free', used', lo, hi)
  {
    forall x: int
      ensures Covers(used, x) <==> Covers(used', x) || In(r, x)
      ensures !(Covers(used', x) && In(r, x))
    {
    }
  }

  /** The allocated range that `start` is taken to mean: its own, or one starting right after it. */
  predicate Hits(start: u64, e: Range) {
    start <= e.end && e.start <= (start + 1) % TWO_64
  }

  function Key(start: u64): Range {
    Range(start, (start + 1) % TWO_64)
  }

  lemma FindIff(used: seq<Range>, start: u64)
    requires Ordered(used)
    ensures Find(used, Key(start)).Some? <==> exists e <- used :: Hits(start, e)
    ensures Find(used, Key(start)).Some? ==> Hits(start, used[Find(used, Key(start)).value])
    ensures forall e <- used | e.start == start && Find(used, Key(start)).Some? ::
              e == used[Find(used, Key(start)).value]
  {
    var k := LowerBound(used, Key(start));
    forall e <- used | Hits(start, e)
      ensures k < |used| && Hits(start, used[k])
    {
      var i :| 0 <= i < |used| && used[i] == e;
      assert k < i ==> Less(used[k], used[i]);
      assert k < |used| ==> used[k] in used;
    }
    if k < |used| && Hits(start, used[k]) {
      assert used[k] in used;
    }
  }

  /** The start of an allocated range always finds it, unless it is the last address of all. */
  lemma OwnStartHitsIff(used: seq<Range>, e: Range)
    requires Ordered(used) && e in used
    ensures (exists q <- used :: Hits(e.start, q)) <==> e.start < TWO_64 - 1
  {
    if e.start < TWO_64 - 1 {
      assert Hits(e.start, e);
    }
  }

  /** Freeing by its own start returns exactly the range. */
  lemma FreeOwnRange(free: seq<Range>, used: seq<Range>, k: nat, lo: u64, hi: u64)
    requires Inv(free, used, lo, hi) && k < |used|
    ensures Took(Merge(free, used[k]), Erase(used, k), free, used, used[k])
    ensures Inv(Merge(free, used[k]), Erase(used, k), lo, hi)
  {
    var r := used[k];
    assert r in used;
    NotCoveredIsDisjoint(free, r);
    MergeOk(free, r);
    EraseOrdered(used, k);
    ReturnedKeepsInv(free, used, Merge(free, r), Erase(used, k), r, lo, hi);
  }

  lemma EraseUncovers(used: seq<Range>, k: nat, x: int)
    requires Ordered(used) && k < |used| && In(used[k], x)
    ensures !Covers(Erase(used, k), x)
  {
    forall q <- Erase(used, k)
      ensures !In(q, x)
    {
      EraseOrdered(used, k);
      var i :| 0 <= i < |used| && used[i] == q;
    }
  }

  lemma FreeInsideBreaks(free: seq<Range>, used: seq<Range>, k: nat, start: u64, lo: u64, hi: u64)
    requires Inv(free, used, lo, hi) && k < |used| && used[k].start < start <= used[k].end
    ensures !Inv(Merge(free, Range(start, used[k].end)), Erase(used, k), lo, hi)
  {
    var r, x := Range(start, used[k].end), used[k].start;
    assert used[k] in used && In(used[k], x);
    NotCoveredIsDisjoint(free, r);
    MergeOk(free, r);
    EraseUncovers(used, k, x);
    assert Covers(used, x) && !Covers(Merge(free, r), x);
  }

  /** A range whose first address is free already, and no other, is lost. */
  lemma OverlapIsLost(free: seq<Range>, r: Range)
    requires Canonical(free) && r.start < r.end && Covers(free, r.start)
    requires forall x: int | r.start < x <= r.end :: !Covers(free, x)
    ensures !Covers(Merge(free, r), r.end)
  {
    var q :| q in free && In(q, r.start);
    var i :| 0 <= i < |free| && free[i] == q;
    EndsThere(free, i, r);
    NextIsBeyond(free, i, r);
    MergeInsertsNothing(free, i, r);
    FewerCoverLess(Merge(free, r), free, r.end);
  }

  lemma FewerCoverLess(a: seq<Range>, b: seq<Range>, x: int)
    requires (forall q <- a :: q in b) && !Covers(b, x)
    ensures !Covers(a, x)
  {
  }

  lemma EndsThere(free: seq<Range>, i: nat, r: Range)
    requires i < |free| && In(free[i], r.start) && !Covers(free, r.start + 1)
    ensures free[i].end == r.start
  {
    assert free[i] in free;
    assert !In(free[i], r.start + 1);
  }

  lemma MergeInsertsNothing(free: seq<Range>, i: nat, r: Range)
    requires Canonical(free) && r.start < r.end && i < |free| && free[i].end == r.start
    requires UpperBound(free, r) == i + 1
    ensures forall q <- Merge(free, r) :: q in free
  {
    var j := i + 1;
    TouchesNothingBefore(free, i, r);
    var a := if JoinsAfter(free, j, r) then j + 1 else j;
    NothingInserted(free, i, a, Merged(free, j, r));
  }

  lemma TouchesNothingBefore(free: seq<Range>, i: nat, r: Range)
    requires Canonical(free) && r.start < r.end && i < |free| && free[i].end == r.start
    requires UpperBound(free, r) == i + 1
    ensures !JoinsBefore(free, i + 1, r)
    ensures var n := Merged(free, i + 1, r); n.start == r.start && r.start < n.end
  {
    if i + 1 < |free| {
      assert free[i + 1] in free && Less(r, free[i + 1]);
    }
  }

  lemma NothingInserted(free: seq<Range>, i: nat, a: nat, n: Range)
    requires Canonical(free) && i < |free| && i < a <= |free| && free[i].end == n.start < n.end
    ensures forall q <- Insert(free[..i + 1] + free[a..], n) :: q in free
  {
    var m := free[..i + 1] + free[a..];
    assert free[i] in free && m[i] == free[i];
    assert forall h | 0 <= h < i :: m[h] == free[h] && Less(m[h], n);
    AlreadyThere(m, i, n);
    assert forall q <- m :: q in free;
  }

  lemma AlreadyThere(l: seq<Range>, i: nat, r: Range)
    requires i < |l| && (forall h | 0 <= h < i :: Less(l[h], r)) && Equivalent(l[i], r)
    ensures Insert(l, r) == l
  {
    LowerBoundIs(l, i, r);
  }

  lemma NextIsBeyond(free: seq<Range>, i: nat, r: Range)
    requires Canonical(free) && r.start < r.end && i < |free| && free[i].end == r.start
    requires forall x: int | r.start < x <= r.end :: !Covers(free, x)
    ensures UpperBound(free, r) == i + 1
  {
    forall h | i < h < |free|
      ensures Less(r, free[h])
    {
      assert free[h] in free && In(free[h], free[h].start);
      assert free[h].start <= r.end ==> Covers(free, free[h].start);
    }
    assert forall h | 0 <= h <= i :: free[h] in free && !Less(r, free[h]);
  }

  lemma FreeBeforeBreaks(free: seq<Range>, used: seq<Range>, k: nat, start: u64, lo: u64, hi: u64)
    requires Inv(free, used, lo, hi) && k < |used| && start + 1 == used[k].start && !Covers(used, start)
    ensures !Inv(Merge(free, Range(start, used[k].end)), Erase(used, k), lo, hi)
  {
    var e := used[k];
    var r := Range(start, e.end);
    assert e in used && In(e, e.end);
    EraseUncovers(used, k, e.end);
    if Covers(free, start) {
      assert forall x: int | start < x <= e.end :: In(e, x);
      OverlapIsLost(free, r);
      assert Covers(used, e.end);
    } else {
      assert forall x: int | In(r, x) :: x == start || In(e, x);
      NotCoveredIsDisjoint(free, r);
      MergeOk(free, r);
      assert In(r, start) && Covers(Merge(free, r), start);
    }
  }

  /** Freeing by any other address that is let through breaks the manager. */
  lemma FreeElsewhereBreaks(free: seq<Range>, used: seq<Range>, k: nat, start: u64, lo: u64, hi: u64)
    requires Inv(free, used, lo, hi) && Find(used, Key(start)) == Some(k) && start != used[k].start
    ensures !Inv(Merge(free, Range(start, used[k].end)), Erase(used, k), lo, hi)
  {
    if used[k].start < start {
      FreeInsideBreaks(free, used, k, start, lo, hi);
    } else {
      forall q <- used
        ensures !In(q, start)
      {
        var i :| 0 <= i < |used| && used[i] == q;
        assert k < i ==> Less(used[k], used[i]);
        assert used[k] in used;
      }
      FreeBeforeBreaks(free, used, k, start, lo, hi);
    }
  }

  /** Of ten addresses the first four are allocated; freeing by the third of them loses the first two. */
  lemma FreeInsideLosesAddresses() returns (free: seq<Range>, used: seq<Range>)
    ensures Inv(free, used, 0, 9) && used == [Range(0, 3)] && Find(used, Key(2)) == Some(0)
    ensures !Inv(Merge(free, Range(2, 3)), Erase(used, 0), 0, 9)
  {
    free, used := [Range(4, 9)], [Range(0, 3)];
    assert Range(4, 9) in free && Range(0, 3) in used;
    assert forall x: int :: Covers(free, x) <==> In(Range(4, 9), x);
    assert forall x: int :: Covers(used, x) <==> In(Range(0, 3), x);
    assert LowerBound(used, Key(2)) == 0;
    FreeElsewhereBreaks(free, used, 0, 2, 0, 9);
  }

  // An allocation of no bytes

  const ALL := Range(0, TWO_64 - 1)

  /** From one state to the next, the first free range is used up to the address before its start, in 64 bits. */
  predicate UsedNothing(free: seq<Range>, used: seq<Range>, free': seq<Range>, used': seq<Range>) {
    && free != []
    && var end := LastAddress(free[0].start, 0);
    && free' == Remainder(free, 0, end) && used' == Insert(used, Range(free[0].start, end))
  }

  lemma NotFoundIsInserted(l: seq<Range>, r: Range)
    requires Find(l, r) == None
    ensures r in Insert(l, r)
  {
    SpliceAdds(l, LowerBound(l, r), r);
  }

  lemma BackwardsIsNotFound(used: seq<Range>, x: u64)
    requires x > 0 && !Covers(used, x)
    ensures Find(used, Range(x, x - 1)) == None
  {
    var k := LowerBound(used, Range(x, x - 1));
    if k < |used| {
      assert used[k] in used && !In(used[k], x);
    }
  }

  lemma BackwardsBreaks(free: seq<Range>, used: seq<Range>, free': seq<Range>, used': seq<Range>, lo: u64, hi: u64)
    requires Inv(free, used, lo, hi) && UsedNothing(free, used, free', used') && free[0].start > 0
    ensures !Ordered(used')
  {
    var x := free[0].start;
    assert free[0] in free && In(free[0], x);
    assert Covers(free, x);
    LastOfNothing(x);
    BackwardsIsNotFound(used, x);
    NotFoundIsInserted(used, Range(x, x - 1));
  }

  lemma HiddenBreaks(free: seq<Range>, used: seq<Range>, free': seq<Range>, used': seq<Range>, lo: u64, hi: u64)
    requires Inv(free, used, lo, hi) && UsedNothing(free, used, free', used') && free[0].start == 0 && used != []
    ensures !Inv(free', used', lo, hi)
  {
    assert free[0] in free && In(free[0], 0);
    assert Covers(free, 0) && !Covers(used, 0);
    LastOfNothing(0);
    LowerBoundIs(used, 0, ALL);
    OthersDoNotCover(free, 0, 0);
    assert free' == free[1..] && used' == used;
  }

  lemma TooMuchBreaks(free: seq<Range>, free': seq<Range>, used': seq<Range>, lo: u64, hi: u64)
    requires Inv(free, [], lo, hi) && UsedNothing(free, [], free', used') && free[0].start == 0 && free[0] != ALL
    ensures !Inv(free', used', lo, hi)
  {
    var x := free[0].end + 1;
    assert free[0] in free && In(free[0], x - 1);
    assert Covers(free, x - 1) && !Covers(free, x) && !Covers([], x);
    LastOfNothing(0);
    assert used' == [ALL] && ALL in [ALL] && In(ALL, x);
    assert Covers(used', x);
  }

  lemma AllIsTaken(free': seq<Range>, used': seq<Range>, lo: u64, hi: u64)
    requires Inv([ALL], [], lo, hi) && UsedNothing([ALL], [], free', used')
    ensures Inv(free', used', lo, hi)
  {
    LastOfNothing(0);
    assert used' == [ALL] && free' == [] && ALL in [ALL];
    assert forall x: int :: Covers([ALL], x) <==> In(ALL, x);
  }

  lemma OneRangeOfAll(free: seq<Range>)
    requires Canonical(free) && free != [] && free[0] == ALL
    ensures free == [ALL]
  {
    assert |free| < 2 || free[1].start < TWO_64;
    assert |free| < 2;
  }

  /** It keeps the manager sound only when all addresses are one free range, which it then takes. */
  lemma NothingKeepsInvIff(free: seq<Range>, used: seq<Range>, free': seq<Range>, used': seq<Range>, lo: u64, hi: u64)
    requires Inv(free, used, lo, hi) && UsedNothing(free, used, free', used')
    ensures Inv(free', used', lo, hi) <==> free == [ALL]
  {
    if free[0].start > 0 {
      BackwardsBreaks(free, used, free', used', lo, hi);
    } else if used != [] {
      HiddenBreaks(free, used, free', used', lo, hi);
      AllLeavesNothing(free, used, lo, hi);
    } else if free[0] != ALL {
      TooMuchBreaks(free, free', used', lo, hi);
    } else {
      OneRangeOfAll(free);
      AllIsTaken(free', used', lo, hi);
    }
  }

  lemma AllLeavesNothing(free: seq<Range>, used: seq<Range>, lo: u64, hi: u64)
    requires Inv(free, used, lo, hi) && used != []
    ensures free != [ALL]
  {
    var r := used[0];
    assert r in used && In(r, r.start);
    assert Covers(used, r.start) && !Covers(free, r.start);
    assert ALL in free ==> !In(ALL, r.start);
  }

  ghost predicate IsStart(used: seq<Range>, start: u64) {
    exists e <- used :: e.start == start
  }

  /** Of the ranges u those are left whose starts are not among the freed ones, or which cannot be freed. */
  ghost predicate LeftAfter(u: seq<Range>, used: seq<Range>, freed: seq<u64>) {
    forall e :: e in used <==> e in u && (e.start !in freed || e.start == TWO_64 - 1)
  }

  lemma SameStartSameRange(u: seq<Range>)
    requires Ordered(u)
    ensures forall d <- u, e <- u | d.start == e.start :: d == e
  {
    forall d <- u, e <- u | d.start == e.start
      ensures d == e
    {
      var i :| 0 <= i < |u| && u[i] == d;
      var j :| 0 <= j < |u| && u[j] == e;
    }
  }

  lemma NoneLeft(u: seq<Range>, used: seq<Range>, starts: seq<u64>)
    requires LeftAfter(u, used, starts[..|starts|]) && forall e <- u :: e.start in starts
    ensures forall e :: e in used <==> e in u && e.start == TWO_64 - 1
    ensures TWO_64 - 1 !in starts ==> used == []
  {
    assert starts[..|starts|] == starts;
    FirstIsIn(used);
  }

  /** The list without the neighbours that a range at `after` joins, taken out one by one. */
  lemma TakenOut(f: seq<Range>, h: seq<Range>, after: nat, before: bool, behind: bool)
    requires after <= |f| && (behind ==> after < |f|) && (before ==> after > 0)
    requires h == if behind then Erase(f, after) else f
    ensures (if before then Erase(h, after - 1) else h) == Stripped(f, after, before, behind)
  {
    var a := if behind then after + 1 else after;
    assert h == f[..after] + f[a..];
    if before {
      assert h[..after - 1] == f[..after - 1] && h[after..] == f[a..];
    }
  }

  class RangeMgr {
    ghost const lo: u64
    ghost const hi: u64
    var free: seq<Range>
    var used: seq<Range>

    ghost predicate Valid()
      reads this
    {
      lo <= hi && Inv(free, used, lo, hi)
    }

    constructor (start: u64, end: u64)
      ensures lo == start && hi == end && free == [Range(start, end)] && used == []
      ensures Valid() <==> start <= end
    {
      lo, hi := start, end;
      free, used := [Range(start, end)], [];
      new;
      if start <= end {
        WholeRange(start, end);
      }
    }

    method UseUpTo(i: nat, end: u64)
      requires i < |free|
      modifies this
      ensures free == Remainder(old(free), i, end) && used == Insert(old(used), Range(old(free)[i].start, end))
    {
      var q := free[i];
      used := Insert(used, Range(q.start, end));
      free := Erase(free, i);
      if end < q.end {
        free := Insert(free, Range((end + 1) % TWO_64, q.end));
      }
    }

    method Take(i: nat, size: u64) returns (start: u64)
      requires Valid() && i < |free| && 0 < size <= Length(free[i])
      modifies this
      ensures Valid() && start == old(free)[i].start && start + size <= TWO_64
      ensures Took(old(free), old(used), free, used, Range(start, start + size - 1))
    {
      var q := free[i];
      assert q in free;
      FitsInside(q, size);
      start := q.start;
      var end := LastAddress(start, size);
      TakeKeepsInv(free, used, lo, hi, i, Range(start, end));
      UseUpTo(i, end);
    }

    method TakeNothing(i: nat) returns (start: u64)
      requires Valid() && i == 0 < |free|
      modifies this
      ensures Valid() <==> old(free) == [ALL]
      ensures start == old(free)[0].start
    {
      ghost var f, u := free, used;
      start := free[i].start;
      UseUpTo(i, LastAddress(start, 0));
      NothingKeepsInvIff(f, u, free, used, lo, hi);
    }

    /**
     First fit: the start of the lowest free range that looks large enough. It fails only when none does,
     and then nothing changes. An allocation of no bytes breaks the manager unless nothing or everything is free
     in one range of all addresses.
     */
    method Alloc(size: u64) returns (r: Option<u64>)
      requires Valid()
      modifies this
      ensures Valid() <==> size > 0 || old(free) == [] || old(free) == [ALL]
      ensures r.None? ==> free == old(free) && used == old(used) && forall q <- free :: Length(q) < size
      ensures r.Some? ==> exists i | 0 <= i < |old(free)| ::
                IsFirstFit(old(free), size, i) && old(free)[i].start == r.value
      ensures r.Some? && size > 0 ==>
                r.value + size <= TWO_64 && Took(old(free), old(used), free, used, Range(r.value, r.value + size - 1))
    {
      var i := 0;
      while i < |free|
        invariant i <= |free| && (size == 0 ==> i == 0) && forall j | 0 <= j < i :: Length(free[j]) < size
        invariant free == old(free) && used == old(used)
      {
        if Length(free[i]) >= size {
          assert IsFirstFit(old(free), size, i);
          if size > 0 {
            var start := Take(i, size);
            return Some(start);
          } else {
            var start := TakeNothing(i);
            return Some(start);
          }
        }
        i := i + 1;
      }
      return None;
    }

    method MergeIn(start: u64, end: u64)
      modifies this`free
      ensures free == Merge(old(free), Range(start, end))
    {
      var f, r := free, Range(start, end);
      var after := UpperBound(f, r);
      TakeOut(after, JoinsBefore(f, after, r), JoinsAfter(f, after, r));
      free := Insert(free, Merged(f, after, r));
    }

    method TakeOut(after: nat, before: bool, behind: bool)
      requires after <= |free| && (before ==> after > 0) && (behind ==> after < |free|)
      modifies this`free
      ensures free == Stripped(old(free), after, before, behind)
    {
      TakenOut(free, if behind then Erase(free, after) else free, after, before, behind);
      if behind {
        free := Erase(free, after);
      }
      if before {
        free := Erase(free, after - 1);
      }
    }

    /**
     Freeing fails when no allocated range is hit, and then nothing changes. Otherwise the manager stays sound
     exactly when the address is the start of an allocated range, and then that range is returned.
     */
    method Free(start: u64) returns (ok: bool)
      requires Valid()
      modifies this
      ensures ok <==> exists e <- old(used) :: Hits(start, e)
      ensures !ok ==> free == old(free) && used == old(used)
      ensures Valid() <==> !ok || exists e <- old(used) :: e.start == start
      ensures forall e <- old(used) | ok && e.start == start :: Took(free, used, old(free), old(used), e)
    {
      FindIff(used, start);
      var found := Find(used, Key(start));
      if found == None {
        return false;
      }
      var k := found.value;
      var end := used[k].end;
      assert used[k] in used;
      if used[k].start == start {
        FreeOwnRange(free, used, k, lo, hi);
      } else {
        FreeElsewhereBreaks(free, used, k, start, lo, hi);
      }
      used := Erase(used, k);
      MergeIn(start, end);
      return true;
    }

    /** Freeing right after allocating restores everything, unless the range starts at the last address of all. */
    method AllocThenFree(size: u64) returns (r: Option<u64>, ok: bool)
      requires Valid() && size > 0
      modifies this
      ensures Valid() && (ok <==> r.Some? && r.value < TWO_64 - 1)
      ensures r.None? || ok ==> free == old(free) && used == old(used)
      ensures r.Some? && !ok ==> Took(old(free), old(used), free, used, Range(TWO_64 - 1, TWO_64 - 1))
    {
      r := Alloc(size);
      if r == None {
        return r, false;
      }
      ghost var e, f, u := Range(r.value, r.value + size - 1), free, used;
      OwnStartHitsIff(used, e);
      ok := Free(r.value);
      if ok {
        FreeUndoesAlloc(old(free), old(used), f, u, free, used, e);
      }
    }

    /**
     Freeing every allocated range by its start, in any order, leaves one range. Only a range that starts at the
     last address of all stays.
     */
    method FreeAll(starts: seq<u64>)
      requires Valid() && forall i, j | 0 <= i < j < |starts| :: starts[i] != starts[j]
      requires forall start :: start in starts <==> IsStart(used, start)
      modifies this
      ensures Valid() && forall e :: e in used <==> e in old(used) && e.start == TWO_64 - 1
      ensures TWO_64 - 1 !in starts ==> used == [] && free == [Range(lo, hi)]
    {
      ghost var u := used;
      var i := 0;
      while i < |starts|
        invariant i <= |starts| && Valid() && LeftAfter(u, used, starts[..i])
      {
        FreeOneOf(starts, i, u);
        i := i + 1;
      }
      NoneLeft(u, used, starts);
      if TWO_64 - 1 !in starts {
        AllFreed(free, lo, hi);
      }
    }

    method FreeOneOf(starts: seq<u64>, i: nat, ghost u: seq<Range>)
      requires Valid() && Ordered(u) && i < |starts| && IsStart(u, starts[i]) && starts[i] !in starts[..i]
      requires LeftAfter(u, used, starts[..i])
      modifies this
      ensures Valid() && LeftAfter(u, used, starts[..i + 1])
    {
      ghost var e :| e in u && e.start == starts[i];
      OwnStartHitsIff(used, e);
      ghost var before := used;
      assert starts[..i + 1] == starts[..i] + [starts[i]];
      SameStartSameRange(u);
      var ok := Free(starts[i]);
    }
  }
}
