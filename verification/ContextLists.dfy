/** Lists without repetition, as the run queue keeps them, and the ordering of the connected list. */
module ContextLists {

  type Id = nat

  predicate NoDup(l: seq<Id>) {
    forall i, j | 0 <= i < j < |l| :: l[i] != l[j]
  }

  /** Taking an entry off a list. */
  function Without(l: seq<Id>, c: Id): (r: seq<Id>)
    ensures c !in r
    ensures forall x | x != c :: x in r <==> x in l
  {
    if l == [] then []
    else if l[0] == c then Without(l[1..], c)
    else [l[0]] + Without(l[1..], c)
  }

  lemma {:induction false} WithoutIsSame(l: seq<Id>, c: Id)
    requires c !in l
    ensures Without(l, c) == l
  {
    if l != [] {
      WithoutIsSame(l[1..], c);
    }
  }

  lemma {:induction false} WithoutAppend(l: seq<Id>, c: Id)
    ensures Without(l + [c], c) == Without(l, c)
  {
    if l == [] {
      assert l + [c] == [c];
    } else {
      WithoutAppend(l[1..], c);
      assert (l + [c])[1..] == l[1..] + [c];
    }
  }

  lemma {:induction false} WithoutKeepsNoDup(l: seq<Id>, c: Id)
    requires NoDup(l)
    ensures NoDup(Without(l, c))
    ensures |Without(l, c)| == |l| - if c in l then 1 else 0
  {
    if l != [] {
      WithoutKeepsNoDup(l[1..], c);
      if l[0] == c {
        WithoutIsSame(l[1..], c);
      } else {
        var r := Without(l[1..], c);
        assert l[0] !in l[1..] && l[0] !in r;
      }
    }
  }

  lemma OneMore(l: seq<Id>, k: nat)
    requires k < |l|
    ensures l[..k + 1] == l[..k] + [l[k]]
    ensures l[k + 1..] == l[k..][1..]
  {
  }

  lemma AfterInConcat(l: seq<Id>, pre: seq<Id>, q: seq<Id>, post: seq<Id>, j: nat, k: nat)
    requires l == pre + q + post && NoDup(l) && j < |q| && k < |l| && l[k] == q[j]
    ensures l[k + 1..] == q[j + 1..] + post
  {
    assert l[|pre| + j] == q[j];
    assert k == |pre| + j;
  }

  // Concatenation of the queues

  function Flatten(qs: seq<seq<Id>>): seq<Id> {
    if qs == [] then [] else qs[0] + Flatten(qs[1..])
  }

  lemma {:induction false} FlattenEmpty(qs: seq<seq<Id>>)
    requires forall i | 0 <= i < |qs| :: qs[i] == []
    ensures Flatten(qs) == []
  {
    if qs != [] {
      FlattenEmpty(qs[1..]);
    }
  }

  lemma {:induction false} FlattenSplit(qs: seq<seq<Id>>, p: nat)
    requires p <= |qs|
    ensures Flatten(qs) == Flatten(qs[..p]) + Flatten(qs[p..])
  {
    if p == 0 {
      assert qs[..0] == [] && qs[0..] == qs;
    } else {
      FlattenSplit(qs[1..], p - 1);
      assert qs[1..][..p - 1] == qs[..p][1..];
      assert qs[1..][p - 1..] == qs[p..];
    }
  }

  /** The queue p stands in one piece inside the concatenation. */
  lemma FlattenAt(qs: seq<seq<Id>>, p: nat)
    requires p < |qs|
    ensures Flatten(qs) == Flatten(qs[..p]) + qs[p] + Flatten(qs[p + 1..])
  {
    FlattenSplit(qs, p);
    assert qs[p..][1..] == qs[p + 1..];
  }

  /** Taking its first element off the concatenation is taking it off its queue. */
  lemma {:induction false} FlattenPop(qs: seq<seq<Id>>, p: nat, c: Id)
    requires p < |qs| && c in qs[p] && NoDup(qs[p]) && (forall i | 0 <= i < p :: c !in qs[i])
    requires Flatten(qs) != [] && Flatten(qs)[0] == c
    ensures Flatten(qs[p := Without(qs[p], c)]) == Flatten(qs)[1..]
  {
    var q := Without(qs[p], c);
    if p == 0 {
      WithoutIsSame(qs[0][1..], c);
      assert qs[0 := q][1..] == qs[1..];
    } else {
      assert qs[0] == [];
      assert forall i | 0 <= i < p - 1 :: qs[1..][i] == qs[i + 1];
      FlattenPop(qs[1..], p - 1, c);
      assert qs[p := q][1..] == qs[1..][p - 1 := q];
    }
  }

  lemma FlattenUpdateLength(qs: seq<seq<Id>>, p: nat, q: seq<Id>)
    requires p < |qs|
    ensures |Flatten(qs[p := q])| == |Flatten(qs)| - |qs[p]| + |q|
  {
    FlattenAt(qs, p);
    FlattenAt(qs[p := q], p);
    assert qs[p := q][..p] == qs[..p];
    assert qs[p := q][p + 1..] == qs[p + 1..];
  }

  // The connected list

  /** Higher priority, that is a smaller number, first; among equals the newest first. */
  predicate Before(a: Id, b: Id, prio: map<Id, nat>, stamp: map<Id, nat>)
    requires {a, b} <= prio.Keys && {a, b} <= stamp.Keys
  {
    prio[a] < prio[b] || (prio[a] == prio[b] && stamp[a] > stamp[b])
  }

  predicate Sorted(l: seq<Id>, prio: map<Id, nat>, stamp: map<Id, nat>) {
    && (forall c <- l :: c in prio && c in stamp)
    && (forall i, j | 0 <= i < j < |l| :: Before(l[i], l[j], prio, stamp))
  }

  /** A context goes before the first one whose priority is not higher. */
  function Insert(l: seq<Id>, prio: map<Id, nat>, c: Id): (r: seq<Id>)
    requires c in prio && forall x <- l :: x in prio
    ensures forall x :: x in r <==> x in l || x == c
    ensures |r| == |l| + 1
  {
    if l == [] || prio[l[0]] >= prio[c] then [c] + l
    else [l[0]] + Insert(l[1..], prio, c)
  }

  lemma {:induction false} InsertKeepsSorted(l: seq<Id>, prio: map<Id, nat>, stamp: map<Id, nat>, c: Id)
    requires Sorted(l, prio, stamp) && c in prio && c in stamp
    requires forall x <- l :: stamp[x] < stamp[c]
    ensures Sorted(Insert(l, prio, c), prio, stamp)
  {
    if l != [] && prio[l[0]] < prio[c] {
      InsertKeepsSorted(l[1..], prio, stamp, c);
      assert forall x <- l[1..] :: Before(l[0], x, prio, stamp);
      var r := Insert(l[1..], prio, c);
      assert forall x <- r :: Before(l[0], x, prio, stamp);
    }
  }

  lemma {:induction false} WithoutKeepsSorted(l: seq<Id>, prio: map<Id, nat>, stamp: map<Id, nat>, c: Id)
    requires Sorted(l, prio, stamp)
    ensures Sorted(Without(l, c), prio, stamp)
  {
    if l != [] {
      WithoutKeepsSorted(l[1..], prio, stamp, c);
      assert forall x <- l[1..] :: Before(l[0], x, prio, stamp);
      assert forall x <- Without(l[1..], c) :: x in l[1..];
    }
  }

  lemma SortedHasNoDup(l: seq<Id>, prio: map<Id, nat>, stamp: map<Id, nat>)
    requires Sorted(l, prio, stamp)
    ensures NoDup(l)
  {
    forall i, j | 0 <= i < j < |l|
      ensures l[i] != l[j]
    {
      assert Before(l[i], l[j], prio, stamp);
    }
  }
}
