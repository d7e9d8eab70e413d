/** Ordered sets of address ranges, where overlapping ranges compare equal. */
module RangeSets {
  import opened Prelude

  datatype Range = Range(start: u64, end: u64)

  predicate Less(a: Range, b: Range) {
    a.end < b.start
  }

  predicate Equivalent(a: Range, b: Range) {
    !Less(a, b) && !Less(b, a)
  }

  predicate In(r: Range, x: int) {
    r.start <= x <= r.end
  }

  ghost predicate Covers(l: seq<Range>, x: int) {
    exists r <- l :: In(r, x)
  }

  predicate Ordered(l: seq<Range>) {
    && (forall r <- l :: r.start <= r.end)
    && (forall i, j | 0 <= i < j < |l| :: Less(l[i], l[j]))
  }

  /** Ordered, and no two ranges touch. */
  predicate Canonical(l: seq<Range>) {
    && (forall r <- l :: r.start <= r.end)
    && (forall i, j | 0 <= i < j < |l| :: l[i].end + 1 < l[j].start)
  }

  /** The position of the first range that does not come before `key`. */
  function LowerBound(l: seq<Range>, key: Range): (k: nat)
    ensures k <= |l| && (forall i | 0 <= i < k :: Less(l[i], key)) && (k < |l| ==> !Less(l[k], key))
  {
    if l == [] || !Less(l[0], key) then 0
    else
      var k := LowerBound(l[1..], key);
      assert forall i | 1 <= i < k + 1 :: l[i] == l[1..][i - 1];
      k + 1
  }

  /** The position of the first range that comes after `key`. */
  function UpperBound(l: seq<Range>, key: Range): (k: nat)
    ensures k <= |l| && (forall i | 0 <= i < k :: !Less(key, l[i])) && (k < |l| ==> Less(key, l[k]))
  {
    if l == [] || Less(key, l[0]) then 0
    else
      var k := UpperBound(l[1..], key);
      assert forall i | 1 <= i < k + 1 :: l[i] == l[1..][i - 1];
      k + 1
  }

  function Find(l: seq<Range>, key: Range): Option<nat> {
    var k := LowerBound(l, key);
    if k < |l| && !Less(key, l[k]) then Some(k) else None
  }

  /** Inserting does nothing when an equivalent range is there already. */
  function Insert(l: seq<Range>, r: Range): seq<Range> {
    if Find(l, r).Some? then l else Spliced(l, LowerBound(l, r), LowerBound(l, r), r)
  }

  function Erase(l: seq<Range>, k: nat): seq<Range>
    requires k < |l|
  {
    l[..k] + l[k + 1..]
  }

  /** The ranges from b up to a replaced by r. */
  function Spliced(l: seq<Range>, b: nat, a: nat, r: Range): seq<Range>
    requires b <= a <= |l|
  {
    l[..b] + [r] + l[a..]
  }

  predicate Disjoint(l: seq<Range>, r: Range) {
    forall q <- l :: q.end < r.start || r.end < q.start
  }

  lemma InsertOrdered(l: seq<Range>, r: Range)
    requires Ordered(l) && r.start <= r.end && Disjoint(l, r)
    ensures Ordered(Insert(l, r))
    ensures forall q :: q in Insert(l, r) <==> q in l || q == r
  {
    var k := LowerBound(l, r);
    assert forall i | k <= i < |l| :: l[i] in l && Less(r, l[i]) by {
      assert k < |l| ==> l[k] in l;
    }
    SpliceOrdered(l, k, r);
    SpliceAdds(l, k, r);
  }

  lemma SpliceOrdered(l: seq<Range>, k: nat, r: Range)
    requires Ordered(l) && r.start <= r.end && k <= |l|
    requires (forall i | 0 <= i < k :: Less(l[i], r)) && (forall i | k <= i < |l| :: Less(r, l[i]))
    ensures Ordered(Spliced(l, k, k, r))
  {
    var m := Spliced(l, k, k, r);
    assert forall q <- m :: q in l || q == r by { SpliceAdds(l, k, r); }
    forall i, j | 0 <= i < j < |m|
      ensures Less(m[i], m[j])
    {
      SplicedAt(l, k, k, r, i);
      SplicedAt(l, k, k, r, j);
    }
  }

  lemma SplicedAt(l: seq<Range>, b: nat, a: nat, r: Range, i: nat)
    requires b <= a <= |l| && i < |Spliced(l, b, a, r)|
    ensures Spliced(l, b, a, r)[i] == if i < b then l[i] else if i == b then r else l[i - b - 1 + a]
  {
  }

  lemma SpliceAdds(l: seq<Range>, k: nat, r: Range)
    requires k <= |l|
    ensures forall q :: q in Spliced(l, k, k, r) <==> q in l || q == r
  {
    assert l == l[..k] + l[k..];
  }

  lemma EraseOrdered(l: seq<Range>, k: nat)
    requires Ordered(l) && k < |l|
    ensures Ordered(Erase(l, k))
    ensures forall q :: q in Erase(l, k) <==> q in l && q != l[k]
  {
    assert l == l[..k] + [l[k]] + l[k + 1..];
  }

  // What a set of ranges is determined by

  lemma {:induction false} SameElements(a: seq<Range>, b: seq<Range>)
    requires Ordered(a) && Ordered(b) && forall r :: r in a <==> r in b
    ensures a == b
  {
    FirstIsIn(a);
    FirstIsIn(b);
    if a != [] {
      HeadsAgree(a, b);
      assert a == [a[0]] + a[1..] && b == [b[0]] + b[1..];
      assert forall r :: r in a[1..] <==> r in a && r != a[0];
      assert forall r :: r in b[1..] <==> r in b && r != b[0];
      SameElements(a[1..], b[1..]);
    }
  }

  lemma FirstIsIn(l: seq<Range>)
    ensures l == [] || l[0] in l
  {
  }

  lemma HeadsAgree(a: seq<Range>, b: seq<Range>)
    requires Ordered(a) && Ordered(b) && a != [] && b != [] && a[0] in b && b[0] in a
    ensures a[0] == b[0] && a[0] !in a[1..] && b[0] !in b[1..]
  {
    assert forall r <- a :: r == a[0] || a[0].end < r.start;
    assert forall r <- b :: r == b[0] || b[0].end < r.start;
  }

  /** Ranges that do not touch are determined by the addresses they cover. */
  lemma {:induction false} SameCoverage(a: seq<Range>, b: seq<Range>)
    requires Canonical(a) && Canonical(b) && forall x: int :: Covers(a, x) <==> Covers(b, x)
    ensures a == b
  {
    if a == [] {
      if b != [] {
        assert b[0] in b && In(b[0], b[0].start);
        assert Covers(b, b[0].start);
      }
    } else {
      assert a[0] in a && In(a[0], a[0].start);
      assert Covers(a, a[0].start);
      FirstStartsNoLater(a, b);
      FirstStartsNoLater(b, a);
      FirstEndsNoLater(a, b);
      FirstEndsNoLater(b, a);
      assert a[0] == b[0];
      forall x: int
        ensures Covers(a[1..], x) <==> Covers(b[1..], x)
      {
        TailCovers(a, x);
        TailCovers(b, x);
      }
      SameCoverage(a[1..], b[1..]);
    }
  }

  lemma FirstStartsNoLater(a: seq<Range>, b: seq<Range>)
    requires Canonical(a) && Canonical(b) && a != [] && b != [] && forall x: int :: Covers(b, x) ==> Covers(a, x)
    ensures a[0].start <= b[0].start
  {
    assert b[0] in b && In(b[0], b[0].start);
    assert Covers(b, b[0].start);
    var r :| r in a && In(r, b[0].start);
    assert r == a[0] || a[0].end < r.start;
  }

  lemma FirstEndsNoLater(a: seq<Range>, b: seq<Range>)
    requires Canonical(a) && Canonical(b) && a != [] && b != [] && a[0].start == b[0].start
    requires forall x: int :: Covers(b, x) ==> Covers(a, x)
    ensures b[0].end <= a[0].end
  {
    var x := a[0].end + 1;
    assert a[0] in a && b[0] in b && !Covers(a, x);
    assert !In(b[0], x);
  }

  lemma TailCovers(a: seq<Range>, x: int)
    requires Canonical(a) && a != []
    ensures Covers(a[1..], x) <==> Covers(a, x) && !In(a[0], x)
  {
    assert a == [a[0]] + a[1..];
    if Covers(a, x) && !In(a[0], x) {
      var r :| r in a && In(r, x);
      assert r in a[1..];
    }
    if Covers(a[1..], x) {
      var r :| r in a[1..] && In(r, x);
      assert r in a && a[0].end < r.start;
    }
  }

  // Coverage of lists put together

  lemma CoversConcat(a: seq<Range>, b: seq<Range>, x: int)
    ensures Covers(a + b, x) <==> Covers(a, x) || Covers(b, x)
  {
    if Covers(a, x) {
      var r :| r in a && In(r, x);
      assert r in a + b;
    } else if Covers(b, x) {
      var r :| r in b && In(r, x);
      assert r in a + b;
    }
  }

  lemma SpliceCovers(l: seq<Range>, b: nat, a: nat, r: Range, x: int)
    requires b <= a <= |l|
    ensures Covers(Spliced(l, b, a, r), x) <==> Covers(l[..b], x) || In(r, x) || Covers(l[a..], x)
  {
    CoversConcat(l[..b] + [r], l[a..], x);
    CoversConcat(l[..b], [r], x);
    assert r in [r];
  }

  lemma SplitCovers(l: seq<Range>, k: nat, x: int)
    requires k <= |l|
    ensures Covers(l, x) <==> Covers(l[..k], x) || Covers(l[k..], x)
  {
    assert l == l[..k] + l[k..];
    CoversConcat(l[..k], l[k..], x);
  }

  lemma HeadCovers(l: seq<Range>, k: nat, x: int)
    requires k < |l|
    ensures Covers(l[k..], x) <==> In(l[k], x) || Covers(l[k + 1..], x)
  {
    assert l[k..] == [l[k]] + l[k + 1..] && l[k] in [l[k]];
    CoversConcat([l[k]], l[k + 1..], x);
  }

  lemma SpliceCanonical(l: seq<Range>, b: nat, a: nat, r: Range)
    requires Canonical(l) && b <= a <= |l| && r.start <= r.end
    requires forall i | 0 <= i < b :: l[i].end + 1 < r.start
    requires forall i | a <= i < |l| :: r.end + 1 < l[i].start
    ensures Canonical(Spliced(l, b, a, r))
  {
    var m := Spliced(l, b, a, r);
    assert forall q <- m :: q in l[..b] || q == r || q in l[a..];
    forall i, j | 0 <= i < j < |m|
      ensures m[i].end + 1 < m[j].start
    {
      SplicedAt(l, b, a, r, i);
      SplicedAt(l, b, a, r, j);
    }
  }

  /** Where a range that overlaps none is inserted. */
  lemma InsertAtGap(l: seq<Range>, k: nat, r: Range)
    requires k <= |l| && (forall i | 0 <= i < k :: Less(l[i], r)) && (forall i | k <= i < |l| :: Less(r, l[i]))
    requires forall q <- l :: q.start <= q.end
    requires r.start <= r.end
    ensures Insert(l, r) == Spliced(l, k, k, r)
  {
    assert forall i | k <= i < |l| :: l[i] in l && !Less(l[i], r);
    LowerBoundIs(l, k, r);
  }

  lemma {:induction false} LowerBoundIs(l: seq<Range>, k: nat, r: Range)
    requires k <= |l| && (forall i | 0 <= i < k :: Less(l[i], r)) && (k < |l| ==> !Less(l[k], r))
    ensures LowerBound(l, r) == k
  {
    if k > 0 {
      LowerBoundIs(l[1..], k - 1, r);
    }
  }

  lemma EraseThenInsert(l: seq<Range>, b: nat, a: nat, r: Range)
    requires Canonical(l) && b <= a <= |l| && r.start <= r.end
    requires (forall i | 0 <= i < b :: Less(l[i], r)) && (forall i | a <= i < |l| :: Less(r, l[i]))
    ensures Insert(l[..b] + l[a..], r) == Spliced(l, b, a, r)
  {
    var m := l[..b] + l[a..];
    assert forall i | 0 <= i < |m| :: m[i] == if i < b then l[i] else l[i - b + a];
    InsertAtGap(m, b, r);
    assert m[..b] == l[..b] && m[b..] == l[a..];
  }
}
