/** What each step of the run queue changes, said of the lists, the counters and the context itself. */
module RunQueueEffects {
  import opened ContextLists
  import opened RunQueueSpec

  /** The list m is l without its entry c; all others keep their order. */
  predicate Left(l: seq<Id>, m: seq<Id>, c: Id) {
    exists i | 0 <= i < |l| :: l[i] == c && m == l[..i] + l[i + 1..]
  }

  predicate LeftIfThere(l: seq<Id>, m: seq<Id>, c: Id) {
    if c in l then Left(l, m, c) else m == l
  }

  /** A context with the record x gives up its hardware context. */
  predicate LeavesHardware(s: Rq, t: Rq, c: Id, x: Ctx) {
    && Left(s.conn, t.conn, c)
    && t == s.(ctx := s.ctx[c := x.(status := Disconnected)], conn := t.conn, disconn := s.disconn + [c],
               hwctxCnt := s.hwctxCnt - 1)
  }

  /** A waiting context is taken off its run queue, and is disconnected or dead then. */
  predicate LeavesQueue(s: Rq, t: Rq, c: Id, status: Status)
    requires Known(s, c) && |s.runq| == |s.cnt| == PRIORITIES
  {
    var p := s.prio[c] - 1;
    && |t.runq| == PRIORITIES && Left(s.runq[p], t.runq[p], c)
    && t == s.(ctx := s.ctx[c := s.ctx[c].(status := status)], runq := s.runq[p := t.runq[p]],
               disconn := s.disconn + [c], cnt := s.cnt[p := s.cnt[p] - 1], total := s.total - 1)
  }

  /** A disconnected context starts to wait, at the end of the run queue of its priority. */
  predicate EntersQueue(s: Rq, t: Rq, c: Id)
    requires Known(s, c) && |s.runq| == |s.cnt| == PRIORITIES
  {
    var p := s.prio[c] - 1;
    && Left(s.disconn, t.disconn, c)
    && t == s.(ctx := s.ctx[c := s.ctx[c].(status := Dispatched)], runq := s.runq[p := s.runq[p] + [c]],
               disconn := t.disconn, cnt := s.cnt[p := s.cnt[p] + 1], total := s.total + 1)
  }

  /** A waiting context gets a hardware context, later than all others on the connected list. */
  predicate EntersHardware(s: Rq, t: Rq, c: Id)
    requires Known(s, c) && |s.runq| == |s.cnt| == PRIORITIES
  {
    var p := s.prio[c] - 1;
    && |t.runq| == PRIORITIES && Left(s.runq[p], t.runq[p], c) && Left(t.conn, s.conn, c)
    && t == s.(ctx := s.ctx[c := s.ctx[c].(status := Connected)], runq := s.runq[p := t.runq[p]], conn := t.conn,
               cnt := s.cnt[p := s.cnt[p] - 1], total := s.total - 1, hwctxCnt := s.hwctxCnt + 1,
               stamp := s.stamp[c := s.clock], clock := s.clock + 1)
  }

  /** A context is gone, from whatever list it was on; a hardware context it had is free again. */
  predicate Leaves(s: Rq, t: Rq, c: Id) {
    && |t.runq| == |s.runq|
    && (forall p | 0 <= p < |s.runq| :: LeftIfThere(s.runq[p], t.runq[p], c))
    && LeftIfThere(s.conn, t.conn, c) && LeftIfThere(s.disconn, t.disconn, c)
    && t == s.(ctx := s.ctx - {c}, prio := s.prio - {c}, ctxCnt := s.ctxCnt - 1, conn := t.conn,
               disconn := t.disconn, runq := t.runq, hwctxCnt := s.hwctxCnt - if c in s.conn then 1 else 0)
  }

  // Lists

  lemma LeftBehind(l: seq<Id>, m: seq<Id>, x: Id, c: Id)
    requires Left(l, m, c)
    ensures Left([x] + l, [x] + m, c)
  {
    var i :| 0 <= i < |l| && l[i] == c && m == l[..i] + l[i + 1..];
    var longer := [x] + l;
    assert longer[i + 1] == c && [x] + m == longer[..i + 1] + longer[i + 2..];
  }

  lemma LeftFirst(l: seq<Id>, c: Id)
    ensures Left([c] + l, l, c)
  {
    var longer := [c] + l;
    assert longer[0] == c && l == longer[..0] + longer[1..];
  }

  lemma {:induction false} WithoutLeft(l: seq<Id>, c: Id)
    requires NoDup(l)
    ensures LeftIfThere(l, Without(l, c), c)
  {
    if c !in l {
      WithoutIsSame(l, c);
    } else if l[0] == c {
      WithoutIsSame(l[1..], c);
      assert l == [c] + l[1..];
      LeftFirst(l[1..], c);
    } else {
      WithoutLeft(l[1..], c);
      LeftBehind(l[1..], Without(l[1..], c), l[0], c);
      assert l == [l[0]] + l[1..];
    }
  }

  lemma {:induction false} InsertLeft(l: seq<Id>, prio: map<Id, nat>, c: Id)
    requires c in prio && forall x <- l :: x in prio
    ensures Left(Insert(l, prio, c), l, c)
  {
    if l == [] || prio[l[0]] >= prio[c] {
      LeftFirst(l, c);
    } else {
      InsertLeft(l[1..], prio, c);
      LeftBehind(Insert(l[1..], prio, c), l[1..], l[0], c);
      assert l == [l[0]] + l[1..];
    }
  }

  lemma LeftIsGone(l: seq<Id>, m: seq<Id>, c: Id)
    requires NoDup(l) && Left(l, m, c)
    ensures c !in m && |m| == |l| - 1
  {
  }

  /** Unlinking takes the context off the list it is on, and leaves the others alone. */
  lemma UnlinkLeft(s: Rq, c: Id)
    requires ListsOk(s)
    ensures var u := Unlink(s, c);
            && LeftIfThere(s.conn, u.conn, c) && LeftIfThere(s.disconn, u.disconn, c)
            && forall p | 0 <= p < |s.runq| :: LeftIfThere(s.runq[p], u.runq[p], c)
  {
    WithoutLeft(s.conn, c);
    WithoutLeft(s.disconn, c);
    forall p | 0 <= p < |s.runq|
      ensures LeftIfThere(s.runq[p], Unlink(s, c).runq[p], c)
    {
      assert ListIs(s.runq[p], s.ctx, s.prio, OnQueue(p + 1));
      WithoutLeft(s.runq[p], c);
    }
  }

  /** A context is on one list only. */
  lemma OnOneList(s: Rq, c: Id)
    requires KeysOk(s) && ListsOk(s) && c in s.ctx
    ensures c in s.conn <==> ShouldStop(s.ctx[c].status)
    ensures c in s.disconn <==> s.ctx[c].status in {Disconnected, Dead}
    ensures forall p | 0 <= p < |s.runq| :: c in s.runq[p] <==> s.ctx[c].status == Dispatched && s.prio[c] == p + 1
  {
    forall p | 0 <= p < |s.runq|
      ensures c in s.runq[p] <==> s.ctx[c].status == Dispatched && s.prio[c] == p + 1
    {
      assert ListIs(s.runq[p], s.ctx, s.prio, OnQueue(p + 1));
    }
  }

  lemma OnlyItsQueue(s: Rq, c: Id)
    requires KeysOk(s) && ListsOk(s) && c in s.ctx
    ensures var u, p := Unlink(s, c), s.prio[c] - 1;
            if s.ctx[c].status == Dispatched then
              Left(s.runq[p], u.runq[p], c) && u.runq == s.runq[p := u.runq[p]]
            else u.runq == s.runq
  {
    OnOneList(s, c);
    UnlinkLeft(s, c);
    var u, p := Unlink(s, c), s.prio[c] - 1;
    assert forall q | 0 <= q < |s.runq| && q != p :: u.runq[q] == s.runq[q];
    if s.ctx[c].status != Dispatched {
      assert u.runq[p] == s.runq[p];
    }
  }

  // Steps

  lemma StopEffect(s: Rq, lim: Limits, c: Id)
    requires Inv(s, lim) && c in s.ctx
    ensures if c in s.conn then LeavesHardware(s, Stop(s, c), c, s.ctx[c]) else Stop(s, c) == s
  {
    OnOneList(s, c);
    if c in s.conn {
      UnlinkLeft(s, c);
      OnlyItsQueue(s, c);
    }
  }

  /** Taking a waiting context off the lists only shortens its queue. */
  lemma OffItsQueue(s: Rq, c: Id) returns (q: seq<Id>)
    requires KeysOk(s) && ListsOk(s) && c in s.ctx && s.ctx[c].status == Dispatched
    ensures var p := s.prio[c] - 1;
            Left(s.runq[p], q, c) && Unlink(s, c) == s.(runq := s.runq[p := q]) && c !in s.conn
  {
    OnOneList(s, c);
    OnlyItsQueue(s, c);
    WithoutIsSame(s.conn, c);
    WithoutIsSame(s.disconn, c);
    q := Unlink(s, c).runq[s.prio[c] - 1];
  }

  lemma OffQueueEffect(s: Rq, c: Id, q: seq<Id>, status: Status)
    requires Known(s, c) && |s.runq| == |s.cnt| == PRIORITIES
    requires Left(s.runq[s.prio[c] - 1], q, c) && Unlink(s, c) == s.(runq := s.runq[s.prio[c] - 1 := q])
    ensures LeavesQueue(s, AddToCount(MoveToDisconn(s, c, status), c, -1), c, status)
  {
  }

  lemma OffQueueOnHardware(s: Rq, c: Id, q: seq<Id>)
    requires Known(s, c) && |s.runq| == |s.cnt| == PRIORITIES && (forall x <- s.conn :: x in s.prio)
    requires Left(s.runq[s.prio[c] - 1], q, c) && Unlink(s, c) == s.(runq := s.runq[s.prio[c] - 1 := q])
    ensures EntersHardware(s, Start(s, c, true), c)
  {
    InsertLeft(s.conn, s.prio, c);
  }

  lemma LeaveQueueEffect(s: Rq, lim: Limits, c: Id, status: Status)
    requires Inv(s, lim) && c in s.ctx && s.ctx[c].status == Dispatched
    ensures LeavesQueue(s, AddToCount(MoveToDisconn(s, c, status), c, -1), c, status)
  {
    var q := OffItsQueue(s, c);
    OffQueueEffect(s, c, q, status);
  }

  lemma CancelEffect(s: Rq, lim: Limits, c: Id)
    requires Inv(s, lim) && c in s.ctx && s.ctx[c].status == Dispatched
    ensures LeavesQueue(s, Cancel(s, c), c, Disconnected)
  {
    CancelIsOneMove(s, c);
    LeaveQueueEffect(s, lim, c, Disconnected);
  }

  lemma DispatchEffect(s: Rq, lim: Limits, c: Id)
    requires Inv(s, lim) && c in s.ctx && s.ctx[c].status == Disconnected
    ensures EntersQueue(s, Dispatch(s, c), c)
  {
    OnOneList(s, c);
    UnlinkLeft(s, c);
    OnlyItsQueue(s, c);
  }

  lemma StartEffect(s: Rq, lim: Limits, c: Id, ok: bool)
    requires Inv(s, lim) && c in s.ctx && s.ctx[c].status == Dispatched
    ensures if ok then EntersHardware(s, Start(s, c, ok), c) else LeavesQueue(s, Start(s, c, ok), c, Dead)
  {
    if ok {
      var q := OffItsQueue(s, c);
      OffQueueOnHardware(s, c, q);
    } else {
      LeaveQueueEffect(s, lim, c, Dead);
    }
  }

  /** A context with jobs is left alone; an idle one keeps its hardware context only if nobody waits. */
  predicate Yields(s: Rq, t: Rq, c: Id)
    requires c in s.ctx
  {
    var x := s.ctx[c];
    if x.submitted != x.completed then t == s
    else if s.total == 0 then t == s.(ctx := s.ctx[c := x.(shouldBlock := false, status := Connected)])
    else if c in s.conn then LeavesHardware(s, t, c, x.(shouldBlock := false))
    else t == s.(ctx := s.ctx[c := x.(shouldBlock := false)])
  }

  lemma RecordChangesFirst(s: Rq, t: Rq, c: Id, x: Ctx)
    requires LeavesHardware(Update(s, c, x), t, c, x)
    ensures LeavesHardware(s, t, c, x)
  {
    assert s.ctx[c := x][c := x.(status := Disconnected)] == s.ctx[c := x.(status := Disconnected)];
  }

  lemma YieldEffect(s: Rq, lim: Limits, c: Id)
    requires Inv(s, lim) && c in s.ctx
    ensures Yields(s, YieldWork(s, c), c)
  {
    var x := s.ctx[c].(shouldBlock := false);
    StayKeepsInv(s, lim, c, x);
    StopEffect(Update(s, c, x), lim, c);
    if c in s.conn {
      RecordChangesFirst(s, Stop(Update(s, c, x), c), c, x);
    }
  }

  lemma RemoveEffect(s: Rq, c: Id)
    requires ListsOk(s) && c !in s.conn
    ensures Leaves(s, Remove(s, c), c)
  {
    UnlinkLeft(s, c);
  }

  lemma StoppedLeaves(s: Rq, u: Rq, c: Id)
    requires NoDup(s.conn) && c in s.conn && c !in s.disconn && (forall p | 0 <= p < |s.runq| :: c !in s.runq[p])
    requires c in s.ctx && LeavesHardware(s, u, c, s.ctx[c])
    ensures Leaves(s, Remove(u, c), c)
  {
    LeftIsGone(s.conn, u.conn, c);
    WithoutIsSame(u.conn, c);
    WithoutAppend(s.disconn, c);
    WithoutIsSame(s.disconn, c);
    forall p | 0 <= p < |s.runq|
      ensures OffQueues(s.runq, c)[p] == s.runq[p]
    {
      WithoutIsSame(s.runq[p], c);
    }
    assert u.ctx - {c} == s.ctx - {c};
  }

  lemma DelEffect(s: Rq, lim: Limits, c: Id)
    requires Inv(s, lim) && c in s.ctx
    ensures Leaves(s, Del(s, c), c)
  {
    StopEffect(s, lim, c);
    if c in s.conn {
      OnOneList(s, c);
      StoppedLeaves(s, Stop(s, c), c);
    } else {
      RemoveEffect(s, c);
    }
  }
}
