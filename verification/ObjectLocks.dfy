/** Locking the buffer objects of a command, all or none, with back-off when a lock would deadlock. */
module ObjectLocks {
  import opened Prelude

  type Resv = nat

  /** What a lock call may answer when the reservation is not held already. */
  datatype Answer = Granted | WouldDeadlock | Failed(error: int)

  /** The answers met between two back-offs: to the slow lock taken first, and to the lock of each index. */
  datatype Attempt = Attempt(slow: Option<int>, lock: nat -> Answer)

  /** `Retrying` is where a run stands that has backed off and not yet tried again. */
  datatype Result = Success | Error(error: int) | Retrying

  /** Each held reservation is held through exactly one locked index, and locked indices hold theirs. */
  predicate Owned(bos: seq<Resv>, locked: seq<bool>, held: set<Resv>) {
    && |locked| == |bos|
    && (forall i | 0 <= i < |bos| && locked[i] :: bos[i] in held)
    && (forall i, j | 0 <= i < j < |bos| && locked[i] && locked[j] :: bos[i] != bos[j])
    && (forall r <- held :: exists i | 0 <= i < |bos| :: locked[i] && bos[i] == r)
  }

  predicate NoneLocked(locked: seq<bool>) {
    forall i | 0 <= i < |locked| :: !locked[i]
  }

  lemma NoneLockedNoneHeld(bos: seq<Resv>, locked: seq<bool>, held: set<Resv>)
    requires Owned(bos, locked, held) && NoneLocked(locked)
    ensures held == {}
  {
  }

  lemma LockKeepsOwned(bos: seq<Resv>, locked: seq<bool>, held: set<Resv>, i: nat)
    requires Owned(bos, locked, held) && i < |bos| && bos[i] !in held
    ensures Owned(bos, locked[i := true], held + {bos[i]})
  {
    var after := locked[i := true];
    forall r <- held + {bos[i]}
      ensures exists k | 0 <= k < |bos| :: after[k] && bos[k] == r
    {
      if r in held {
        var k :| 0 <= k < |bos| && locked[k] && bos[k] == r;
        assert after[k];
      } else {
        assert after[i];
      }
    }
  }

  lemma UnlockKeepsOwned(bos: seq<Resv>, locked: seq<bool>, held: set<Resv>, i: nat)
    requires Owned(bos, locked, held) && i < |bos| && locked[i]
    ensures Owned(bos, locked[i := false], held - {bos[i]})
  {
    var after := locked[i := false];
    forall r <- held - {bos[i]}
      ensures exists k | 0 <= k < |bos| :: after[k] && bos[k] == r
    {
      var k :| 0 <= k < |bos| && locked[k] && bos[k] == r;
      assert after[k];
    }
  }

  // What is asked for

  /** The lock of an index is asked for, with these reservations held. */
  datatype Ask = Ask(index: nat, held: set<Resv>)

  /** The locks asked for are not held yet, and `first`, if there is one, is held already. */
  predicate AskOk(bos: seq<Resv>, first: Option<Resv>, asks: seq<Ask>) {
    forall ask <- asks ::
      ask.index < |bos| && bos[ask.index] !in ask.held && (first.Some? ==> first.value in ask.held)
  }

  /** The reservation that an attempt takes first: the one at which the attempt before it backed off. */
  function First(bos: seq<Resv>, back: seq<nat>, n: nat): Option<Resv>
    requires n <= |back|
  {
    if n == 0 || back[n - 1] >= |bos| then None else Some(bos[back[n - 1]])
  }

  /**
   In the attempt after a back-off, whatever is asked for, the lock that would have deadlocked is held by then
   and is not asked for again.
   */
  predicate AsksOk(bos: seq<Resv>, back: seq<nat>, asks: seq<seq<Ask>>) {
    && |asks| <= |back| + 1 && (forall k <- back :: k < |bos|)
    && forall n | 0 <= n < |asks| :: AskOk(bos, First(bos, back, n), asks[n])
  }

  lemma AsksStayOk(bos: seq<Resv>, back: seq<nat>, asks: seq<seq<Ask>>, tried: seq<Ask>, at: nat)
    requires AsksOk(bos, back, asks) && |asks| == |back| && AskOk(bos, First(bos, back, |back|), tried)
    ensures AsksOk(bos, back, asks + [tried])
    ensures at < |bos| ==> AsksOk(bos, back + [at], asks + [tried])
  {
    assert forall n: nat | n <= |back| :: First(bos, back + [at], n) == First(bos, back, n);
  }

  // Which answers count

  /** An index is asked for only if its reservation is not held by the contended index or by a lower one. */
  predicate Asked(bos: seq<Resv>, contended: int, i: nat)
    requires i < |bos| && -1 <= contended < |bos|
  {
    bos[i] !in bos[..i] && (contended != -1 ==> bos[i] != bos[contended])
  }

  ghost predicate AllGranted(bos: seq<Resv>, contended: int, attempt: Attempt, n: nat)
    requires n <= |bos| && -1 <= contended < |bos|
  {
    forall i: nat | i < n && Asked(bos, contended, i) :: attempt.lock(i) == Granted
  }

  ghost predicate Refused(bos: seq<Resv>, contended: int, attempt: Attempt, at: nat, answer: Answer)
    requires -1 <= contended < |bos|
  {
    && at < |bos| && AllGranted(bos, contended, attempt, at)
    && Asked(bos, contended, at) && attempt.lock(at) == answer != Granted
  }

  predicate SlowGranted(contended: int, attempt: Attempt) {
    contended == -1 || attempt.slow.None?
  }

  /** The index whose lock is taken first, slowly, after these back-offs. */
  function Contended(back: seq<nat>): int {
    if back == [] then -1 else back[|back| - 1]
  }

  ghost predicate BacksOff(bos: seq<Resv>, contended: int, attempt: Attempt, at: nat) {
    && -1 <= contended < |bos| && SlowGranted(contended, attempt)
    && Refused(bos, contended, attempt, at, WouldDeadlock)
  }

  /** `back` are the indices at which the first attempts had to back off, each the contended one of the next. */
  ghost predicate BackedOff(bos: seq<Resv>, attempts: seq<Attempt>, back: seq<nat>) {
    && |back| <= |attempts| && Contended(back) < |bos|
    && (back != [] ==>
          var n := |back| - 1;
          BackedOff(bos, attempts, back[..n]) && BacksOff(bos, Contended(back[..n]), attempts[n], back[n]))
  }

  /** The result the answers call for, after the back-offs. */
  ghost predicate Called(bos: seq<Resv>, attempts: seq<Attempt>, back: seq<nat>, r: Result)
    requires BackedOff(bos, attempts, back)
  {
    var contended := Contended(back);
    match r
    case Retrying => |back| == |attempts|
    case Success =>
      && |back| < |attempts| && SlowGranted(contended, attempts[|back|])
      && AllGranted(bos, contended, attempts[|back|], |bos|)
    case Error(error) =>
      && |back| < |attempts|
      && (if SlowGranted(contended, attempts[|back|])
          then exists at: nat :: Refused(bos, contended, attempts[|back|], at, Failed(error))
          else attempts[|back|].slow == Some(error))
  }

  lemma BacksOffAgain(bos: seq<Resv>, attempts: seq<Attempt>, back: seq<nat>, at: nat)
    requires BackedOff(bos, attempts, back) && |back| < |attempts|
    requires BacksOff(bos, Contended(back), attempts[|back|], at)
    ensures BackedOff(bos, attempts, back + [at]) && Contended(back + [at]) == at
  {
    assert (back + [at])[..|back|] == back;
  }

  /** What a round answers is what a result is called for by. */
  ghost predicate Answered(bos: seq<Resv>, contended: int, attempt: Attempt, r: Answer, at: nat)
    requires -1 <= contended < |bos|
  {
    if r == Granted then SlowGranted(contended, attempt) && AllGranted(bos, contended, attempt, |bos|)
    else if SlowGranted(contended, attempt) then Refused(bos, contended, attempt, at, r)
    else r == Failed(attempt.slow.value)
  }

  lemma AnswerCallsFor(bos: seq<Resv>, attempts: seq<Attempt>, back: seq<nat>, r: Answer, at: nat)
    requires BackedOff(bos, attempts, back) && |back| < |attempts|
    requires -1 <= Contended(back) && Answered(bos, Contended(back), attempts[|back|], r, at)
    ensures r == Granted ==> Called(bos, attempts, back, Success)
    ensures r.Failed? ==> Called(bos, attempts, back, Error(r.error))
    ensures r == WouldDeadlock ==> BacksOff(bos, Contended(back), attempts[|back|], at)
  {
  }

  class Job {
    const bos: seq<Resv>
    const locked: array<bool>
    var held: set<Resv>
    ghost var locks: multiset<Resv>
    ghost var unlocks: multiset<Resv>

    ghost predicate Valid()
      reads this, locked
    {
      Owned(bos, locked[..], held) && locks == unlocks + multiset(held)
    }

    ghost predicate Clear()
      reads this, locked
    {
      Valid() && NoneLocked(locked[..]) && held == {}
    }

    constructor (bos: seq<Resv>)
      ensures Clear() && fresh(locked) && this.bos == bos
    {
      this.bos, held, locks, unlocks := bos, {}, multiset{}, multiset{};
      locked := new bool[|bos|](_ => false);
    }

    method Take(i: nat)
      requires Valid() && i < |bos| && bos[i] !in held
      modifies this, locked
      ensures Valid() && locked[..] == old(locked[..])[i := true] && held == old(held) + {bos[i]}
    {
      LockKeepsOwned(bos, locked[..], held, i);
      held, locks := held + {bos[i]}, locks + multiset{bos[i]};
      locked[i] := true;
    }

    method Release(i: nat)
      requires Valid() && i < |bos| && locked[i]
      modifies this, locked
      ensures Valid() && locked[..] == old(locked[..])[i := false] && held == old(held) - {bos[i]}
      ensures locks == old(locks)
    {
      UnlockKeepsOwned(bos, locked[..], held, i);
      held, unlocks := held - {bos[i]}, unlocks + multiset{bos[i]};
      locked[i] := false;
    }

    /** Back off from index i: everything below it and the contended index are let go. */
    method BackOff(i: nat, contended: int)
      requires Valid() && i < |bos| && -1 <= contended < |bos|
      requires forall j | i <= j < |bos| && locked[j] :: j == contended
      modifies this, locked
      ensures Clear()
    {
      var j := i - 1;
      while j >= 0
        invariant -1 <= j < i && Valid()
        invariant forall k | j < k < |bos| && locked[k] :: k == contended && i <= k
      {
        if locked[j] {
          Release(j);
        }
        j := j - 1;
      }
      if contended != -1 && contended >= i {
        if locked[contended] {
          Release(contended);
        }
      }
      NoneLockedNoneHeld(bos, locked[..], held);
    }

    /** What is held before index i of an attempt. */
    ghost predicate HeldBelow(i: nat, contended: int)
      requires i <= |bos| && -1 <= contended < |bos|
      reads this, locked
    {
      && Valid()
      && (forall r :: r in held <==> r in bos[..i] || (contended != -1 && r == bos[contended]))
      && (forall j | i <= j < |bos| && locked[j] :: j == contended)
    }

    /** One attempt. It takes all locks, or it is refused at an index and holds none. */
    method Try(contended: int, attempt: Attempt) returns (r: Answer, at: nat, ghost asks: seq<Ask>)
      requires -1 <= contended < |bos| && HeldBelow(0, contended)
      modifies this, locked
      ensures r == Granted ==>
                && Valid() && (forall j | 0 <= j < |bos| :: bos[j] in held)
                && AllGranted(bos, contended, attempt, |bos|)
      ensures r != Granted ==> Clear() && Refused(bos, contended, attempt, at, r)
      ensures AskOk(bos, if contended == -1 then None else Some(bos[contended]), asks)
    {
      var i := 0;
      asks := [];
      while i < |bos|
        invariant i <= |bos| && HeldBelow(i, contended) && AllGranted(bos, contended, attempt, i)
        invariant AskOk(bos, if contended == -1 then None else Some(bos[contended]), asks)
      {
        assert bos[..i + 1] == bos[..i] + [bos[i]];
        if !locked[i] && bos[i] !in held {
          asks := asks + [Ask(i, held)];
          var answer := attempt.lock(i);
          if answer != Granted {
            BackOff(i, contended);
            return answer, i, asks;
          }
          Take(i);
        }
        i := i + 1;
      }
      return Granted, 0, asks;
    }

    /** One round: the contended lock first, if there is one, and then an attempt. */
    method Round(contended: int, attempt: Attempt) returns (r: Answer, at: nat, ghost asks: seq<Ask>)
      requires -1 <= contended < |bos| && Clear()
      modifies this, locked
      ensures r == Granted ==>
                Valid() && (forall j | 0 <= j < |bos| :: bos[j] in held) && (contended == -1 || attempt.slow.None?)
      ensures r != Granted ==> Clear()
      ensures Answered(bos, contended, attempt, r, at)
      ensures contended != -1 && attempt.slow.Some? ==> r == Failed(attempt.slow.value)
      ensures AskOk(bos, if contended == -1 then None else Some(bos[contended]), asks)
    {
      if contended != -1 {
        if attempt.slow.Some? {
          return Failed(attempt.slow.value), 0, [];
        }
        Take(contended);
      }
      r, at, asks := Try(contended, attempt);
    }

    /**
     Lock all objects, for the answers met in any number of attempts. On success every reservation is held
     through exactly one index. After an error, and whenever it is about to try again, none is held. After a
     back-off the lock that would have deadlocked is taken first, and its refusal is the result.
     */
    method LockObjects(attempts: seq<Attempt>)
      returns (r: Result, ghost back: seq<nat>, ghost asks: seq<seq<Ask>>)
      requires Clear()
      modifies this, locked
      ensures BackedOff(bos, attempts, back) && Called(bos, attempts, back, r)
      ensures r == Success ==> Valid() && forall j | 0 <= j < |bos| :: bos[j] in held
      ensures r != Success ==> Clear()
      ensures AsksOk(bos, back, asks)
      ensures 0 < |back| < |attempts| && attempts[|back|].slow.Some? ==> r == Error(attempts[|back|].slow.value)
    {
      var contended := -1;
      back, asks := [], [];
      for n := 0 to |attempts|
        invariant Clear() && -1 <= contended < |bos|
        invariant |back| == n && contended == Contended(back) && BackedOff(bos, attempts, back)
        invariant |asks| == n && AsksOk(bos, back, asks)
      {
        var answer, at, tried := Round(contended, attempts[n]);
        AsksStayOk(bos, back, asks, tried, at);
        AnswerCallsFor(bos, attempts, back, answer, at);
        asks := asks + [tried];
        match answer {
          case Granted => return Success, back, asks;
          case Failed(error) => return Error(error), back, asks;
          case WouldDeadlock =>
            BacksOffAgain(bos, attempts, back, at);
            contended, back := at, back + [at];
        }
      }
      return Retrying, back, asks;
    }

    /** Unlocking releases exactly what is held. */
    method UnlockObjects()
      requires Valid()
      modifies this, locked
      ensures Clear() && locks == old(locks) && unlocks == old(unlocks) + multiset(old(held))
    {
      var i := 0;
      while i < |bos|
        invariant i <= |bos| && Valid() && locks == old(locks) && forall j | 0 <= j < i :: !locked[j]
      {
        if locked[i] {
          Release(i);
        }
        i := i + 1;
      }
      NoneLockedNoneHeld(bos, locked[..], held);
    }
  }
}
