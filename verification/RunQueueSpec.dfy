/**
 The state of the context run queue as a value, the steps the driver takes under its device lock, and
 the invariant every step keeps.
 */
module RunQueueSpec {
  import opened ContextLists

  const PRIORITIES: nat := 4
  const NEVER: int := -1   // u64 -1, which no completed count reaches

  datatype Status = Disconnected | Dispatched | Connected | Disconnecting | Debug | Dead

  datatype Ctx = Ctx(status: Status, shouldBlock: bool, submitted: nat, completed: nat,
                     pendingJobs: nat, lastCompleted: int)

  /** The list a context's status and priority put it on. */
  datatype Place = OnConn | OnDisconn | OnQueue(priority: nat)

  function Where(status: Status, priority: nat): Place {
    match status
    case Dispatched => OnQueue(priority)
    case Connected => OnConn
    case Disconnecting => OnConn
    case Debug => OnConn
    case Disconnected => OnDisconn
    case Dead => OnDisconn
  }

  /**
   `runq[p - 1]` and `cnt[p - 1]` belong to priority p. The rest is history, by which no step is decided:
   `stamp` holds connection times taken from `clock`, and `seen` the completed counts at which the stuck
   detector found a context with outstanding jobs.
   */
  datatype Rq = Rq(prio: map<Id, nat>, ctx: map<Id, Ctx>,
                   runq: seq<seq<Id>>, cnt: seq<int>, total: int,
                   conn: seq<Id>, disconn: seq<Id>, hwctxCnt: int, ctxCnt: int,
                   stamp: map<Id, nat>, clock: nat, seen: map<Id, set<nat>>)

  datatype Limits = Limits(hwctx: nat, ctx: nat)

  function Order(s: Rq): seq<Id> {
    Flatten(s.runq)
  }

  // The invariant

  /** The list holds exactly the contexts whose status and priority put them there, each once. */
  ghost predicate ListIs(l: seq<Id>, ctx: map<Id, Ctx>, prio: map<Id, nat>, place: Place) {
    && NoDup(l)
    && forall c :: c in l <==> c in ctx && c in prio && Where(ctx[c].status, prio[c]) == place
  }

  ghost predicate ListsOk(s: Rq) {
    && ListIs(s.conn, s.ctx, s.prio, OnConn)
    && ListIs(s.disconn, s.ctx, s.prio, OnDisconn)
    && |s.runq| == PRIORITIES
    && (forall p | 1 <= p <= PRIORITIES :: ListIs(s.runq[p - 1], s.ctx, s.prio, OnQueue(p)))
  }

  predicate CountsOk(s: Rq, lim: Limits) {
    && |s.runq| == |s.cnt| == PRIORITIES
    && (forall p | 0 <= p < PRIORITIES :: s.cnt[p] == |s.runq[p]|)
    && s.total == |Order(s)|
    && s.hwctxCnt == |s.conn| <= lim.hwctx
    && s.ctxCnt == |s.ctx| <= lim.ctx
  }

  predicate KeysOk(s: Rq) {
    s.prio.Keys == s.ctx.Keys && forall c <- s.prio :: 1 <= s.prio[c] <= PRIORITIES
  }

  predicate ConnOk(s: Rq) {
    Sorted(s.conn, s.prio, s.stamp) && forall c <- s.conn :: s.stamp[c] < s.clock
  }

  /** The count the stuck detector remembers is one it met, unless it never met the context running. */
  predicate SeenOk(s: Rq) {
    forall c <- s.ctx :: s.ctx[c].lastCompleted == NEVER || (c in s.seen && s.ctx[c].lastCompleted in s.seen[c])
  }

  ghost predicate Inv(s: Rq, lim: Limits) {
    KeysOk(s) && ListsOk(s) && CountsOk(s, lim) && ConnOk(s) && SeenOk(s)
  }

  // List moves

  function OffQueues(runq: seq<seq<Id>>, c: Id): seq<seq<Id>> {
    seq(|runq|, p requires 0 <= p < |runq| => Without(runq[p], c))
  }

  function Unlink(s: Rq, c: Id): Rq {
    s.(conn := Without(s.conn, c), disconn := Without(s.disconn, c), runq := OffQueues(s.runq, c))
  }

  function SetStatus(s: Rq, c: Id, status: Status): Rq
    requires c in s.ctx
  {
    s.(ctx := s.ctx[c := s.ctx[c].(status := status)])
  }

  function MoveToDisconn(s: Rq, c: Id, status: Status): Rq
    requires c in s.ctx
  {
    var u := Unlink(s, c);
    SetStatus(u.(disconn := u.disconn + [c]), c, status)
  }

  function MoveToQueue(s: Rq, c: Id): Rq
    requires c in s.ctx && c in s.prio && 1 <= s.prio[c] <= |s.runq|
  {
    var u, p := Unlink(s, c), s.prio[c] - 1;
    SetStatus(u.(runq := u.runq[p := u.runq[p] + [c]]), c, Dispatched)
  }

  function MoveToConn(s: Rq, c: Id): Rq
    requires c in s.ctx && c in s.prio && (forall x <- s.conn :: x in s.prio)
  {
    var u := Unlink(s, c);
    SetStatus(u.(conn := Insert(u.conn, s.prio, c), stamp := s.stamp[c := s.clock], clock := s.clock + 1), c, Connected)
  }

  lemma DropFromList(l: seq<Id>, ctx: map<Id, Ctx>, prio: map<Id, nat>, place: Place, c: Id, x: Ctx)
    requires ListIs(l, ctx, prio, place) && c in prio && Where(x.status, prio[c]) != place
    ensures ListIs(Without(l, c), ctx[c := x], prio, place)
  {
    WithoutKeepsNoDup(l, c);
  }

  lemma AddToList(l: seq<Id>, ctx: map<Id, Ctx>, prio: map<Id, nat>, place: Place, c: Id, x: Ctx)
    requires ListIs(l, ctx, prio, place) && c in prio && Where(x.status, prio[c]) == place
    ensures ListIs(Without(l, c) + [c], ctx[c := x], prio, place)
  {
    WithoutKeepsNoDup(l, c);
  }

  ghost predicate Known(s: Rq, c: Id) {
    c in s.ctx && c in s.prio && 1 <= s.prio[c] <= PRIORITIES
  }

  /** Unlinking shortens the list the context is on and no other. */
  ghost predicate UnlinksOne(s: Rq, c: Id) {
    && Known(s, c) && |s.runq| == PRIORITIES
    && var u, place, p := Unlink(s, c), Where(s.ctx[c].status, s.prio[c]), s.prio[c] - 1;
    && |u.conn| == |s.conn| - (if place.OnConn? then 1 else 0)
    && |u.disconn| == |s.disconn| - (if place.OnDisconn? then 1 else 0)
    && (if place.OnQueue? then u.runq == s.runq[p := Without(s.runq[p], c)] && |u.runq[p]| == |s.runq[p]| - 1
        else u.runq == s.runq)
  }

  lemma UnlinkLengths(s: Rq, c: Id)
    requires ListsOk(s) && Known(s, c)
    ensures UnlinksOne(s, c)
  {
    var place := Where(s.ctx[c].status, s.prio[c]);
    WithoutKeepsNoDup(s.conn, c);
    WithoutKeepsNoDup(s.disconn, c);
    forall p | 0 <= p < PRIORITIES
      ensures Unlink(s, c).runq[p] == s.runq[p] || (place.OnQueue? && p == s.prio[c] - 1)
    {
      assert ListIs(s.runq[p], s.ctx, s.prio, OnQueue(p + 1));
      if place != OnQueue(p + 1) {
        WithoutIsSame(s.runq[p], c);
      }
    }
    if place.OnQueue? {
      assert ListIs(s.runq[s.prio[c] - 1], s.ctx, s.prio, OnQueue(s.prio[c]));
      WithoutKeepsNoDup(s.runq[s.prio[c] - 1], c);
    }
  }

  lemma MoveToDisconnLists(s: Rq, c: Id, status: Status)
    requires ListsOk(s) && Known(s, c) && Where(status, s.prio[c]) == OnDisconn
    ensures ListsOk(MoveToDisconn(s, c, status))
  {
    var x, m := s.ctx[c].(status := status), MoveToDisconn(s, c, status);
    DropFromList(s.conn, s.ctx, s.prio, OnConn, c, x);
    AddToList(s.disconn, s.ctx, s.prio, OnDisconn, c, x);
    forall p | 1 <= p <= PRIORITIES
      ensures ListIs(m.runq[p - 1], m.ctx, m.prio, OnQueue(p))
    {
      DropFromList(s.runq[p - 1], s.ctx, s.prio, OnQueue(p), c, x);
    }
  }

  lemma MoveToQueueLists(s: Rq, c: Id)
    requires ListsOk(s) && Known(s, c)
    ensures ListsOk(MoveToQueue(s, c))
  {
    var x := s.ctx[c].(status := Dispatched);
    DropFromList(s.conn, s.ctx, s.prio, OnConn, c, x);
    DropFromList(s.disconn, s.ctx, s.prio, OnDisconn, c, x);
    var m := MoveToQueue(s, c);
    forall p | 1 <= p <= PRIORITIES
      ensures ListIs(m.runq[p - 1], m.ctx, m.prio, OnQueue(p))
    {
      if p == s.prio[c] {
        AddToList(s.runq[p - 1], s.ctx, s.prio, OnQueue(p), c, x);
      } else {
        DropFromList(s.runq[p - 1], s.ctx, s.prio, OnQueue(p), c, x);
      }
    }
  }

  lemma MoveToConnSorted(s: Rq, c: Id)
    requires ConnOk(s) && Known(s, c)
    ensures ConnOk(MoveToConn(s, c))
  {
    var stamp := s.stamp[c := s.clock];
    WithoutKeepsSorted(s.conn, s.prio, s.stamp, c);
    assert Sorted(Without(s.conn, c), s.prio, stamp);
    InsertKeepsSorted(Without(s.conn, c), s.prio, stamp, c);
  }

  lemma MoveToConnLists(s: Rq, c: Id)
    requires ListsOk(s) && ConnOk(s) && Known(s, c)
    ensures ListsOk(MoveToConn(s, c))
  {
    var x, m := s.ctx[c].(status := Connected), MoveToConn(s, c);
    MoveToConnSorted(s, c);
    SortedHasNoDup(m.conn, m.prio, m.stamp);
    DropFromList(s.disconn, s.ctx, s.prio, OnDisconn, c, x);
    forall p | 1 <= p <= PRIORITIES
      ensures ListIs(m.runq[p - 1], m.ctx, m.prio, OnQueue(p))
    {
      DropFromList(s.runq[p - 1], s.ctx, s.prio, OnQueue(p), c, x);
    }
  }

  // The steps

  predicate ShouldStop(status: Status) {
    status.Connected? || status.Disconnecting? || status.Debug?
  }

  function AddToCount(s: Rq, c: Id, d: int): Rq
    requires c in s.prio && 1 <= s.prio[c] <= |s.cnt|
  {
    var p := s.prio[c] - 1;
    s.(cnt := s.cnt[p := s.cnt[p] + d], total := s.total + d)
  }

  /** Connecting a dispatched context, which may fail. */
  function Start(s: Rq, c: Id, ok: bool): (t: Rq)
    requires Known(s, c) && |s.cnt| == PRIORITIES && forall x <- s.conn :: x in s.prio
    ensures t.seen == s.seen
  {
    var m := if ok then MoveToConn(s, c).(hwctxCnt := s.hwctxCnt + 1) else MoveToDisconn(s, c, Dead);
    AddToCount(m, c, -1)
  }

  function Stop(s: Rq, c: Id): (t: Rq)
    requires c in s.ctx
    ensures t.seen == s.seen
  {
    if ShouldStop(s.ctx[c].status) then MoveToDisconn(s, c, Disconnected).(hwctxCnt := s.hwctxCnt - 1) else s
  }

  function Dispatch(s: Rq, c: Id): (t: Rq)
    requires Known(s, c) && |s.cnt| == |s.runq| == PRIORITIES
    ensures t.seen == s.seen
  {
    AddToCount(MoveToQueue(s, c), c, 1)
  }

  function Cancel(s: Rq, c: Id): (t: Rq)
    requires Known(s, c) && |s.cnt| == |s.runq| == PRIORITIES
    ensures t.seen == s.seen
  {
    AddToCount(MoveToDisconn(MoveToQueue(s, c), c, Disconnected), c, -1)
  }

  // Each step is a move, then an adjustment of the counters that leaves the lists alone.

  lemma MoveToDisconnRest(s: Rq, c: Id, status: Status)
    requires KeysOk(s) && ConnOk(s) && SeenOk(s) && c in s.ctx
    ensures var m := MoveToDisconn(s, c, status); KeysOk(m) && ConnOk(m) && SeenOk(m)
  {
    WithoutKeepsSorted(s.conn, s.prio, s.stamp, c);
  }

  lemma MoveToQueueRest(s: Rq, c: Id)
    requires KeysOk(s) && ConnOk(s) && SeenOk(s) && Known(s, c) && |s.runq| == PRIORITIES
    ensures var m := MoveToQueue(s, c); KeysOk(m) && ConnOk(m) && SeenOk(m)
  {
    WithoutKeepsSorted(s.conn, s.prio, s.stamp, c);
  }

  lemma MoveToConnRest(s: Rq, c: Id)
    requires KeysOk(s) && ConnOk(s) && SeenOk(s) && Known(s, c)
    ensures var m := MoveToConn(s, c); KeysOk(m) && ConnOk(m) && SeenOk(m)
  {
    MoveToConnSorted(s, c);
  }

  lemma StopCounts(s: Rq, lim: Limits, c: Id)
    requires CountsOk(s, lim) && UnlinksOne(s, c) && ShouldStop(s.ctx[c].status)
    ensures CountsOk(Stop(s, c), lim)
  {
    assert Stop(s, c).ctx.Keys == s.ctx.Keys;
  }

  lemma StopKeepsInv(s: Rq, lim: Limits, c: Id)
    requires Inv(s, lim) && c in s.ctx
    ensures Inv(Stop(s, c), lim)
  {
    if ShouldStop(s.ctx[c].status) {
      UnlinkLengths(s, c);
      StopCounts(s, lim, c);
      MoveToDisconnLists(s, c, Disconnected);
      MoveToDisconnRest(s, c, Disconnected);
    }
  }

  lemma LeaveQueueCounts(s: Rq, lim: Limits, c: Id, status: Status)
    requires CountsOk(s, lim) && UnlinksOne(s, c) && s.ctx[c].status == Dispatched
    ensures CountsOk(AddToCount(MoveToDisconn(s, c, status), c, -1), lim)
  {
    var p := s.prio[c] - 1;
    FlattenUpdateLength(s.runq, p, Without(s.runq[p], c));
    assert MoveToDisconn(s, c, status).ctx.Keys == s.ctx.Keys;
  }

  lemma LeaveQueueKeepsInv(s: Rq, lim: Limits, c: Id, status: Status)
    requires Inv(s, lim) && c in s.ctx && s.ctx[c].status == Dispatched && Where(status, s.prio[c]) == OnDisconn
    ensures Inv(AddToCount(MoveToDisconn(s, c, status), c, -1), lim)
  {
    UnlinkLengths(s, c);
    LeaveQueueCounts(s, lim, c, status);
    MoveToDisconnLists(s, c, status);
    MoveToDisconnRest(s, c, status);
  }

  lemma ConnectCounts(s: Rq, lim: Limits, c: Id)
    requires CountsOk(s, lim) && UnlinksOne(s, c) && (forall x <- s.conn :: x in s.prio)
    requires s.ctx[c].status == Dispatched && s.hwctxCnt < lim.hwctx
    ensures CountsOk(Start(s, c, true), lim)
  {
    var p := s.prio[c] - 1;
    FlattenUpdateLength(s.runq, p, Without(s.runq[p], c));
    assert Start(s, c, true).ctx.Keys == s.ctx.Keys;
  }

  lemma ConnectKeepsInv(s: Rq, lim: Limits, c: Id)
    requires Inv(s, lim) && c in s.ctx && s.ctx[c].status == Dispatched && s.hwctxCnt < lim.hwctx
    ensures Inv(Start(s, c, true), lim)
  {
    UnlinkLengths(s, c);
    ConnectCounts(s, lim, c);
    MoveToConnLists(s, c);
    MoveToConnRest(s, c);
  }

  lemma StartKeepsInv(s: Rq, lim: Limits, c: Id, ok: bool)
    requires Inv(s, lim) && c in s.ctx && s.ctx[c].status == Dispatched && s.hwctxCnt < lim.hwctx
    ensures Inv(Start(s, c, ok), lim)
  {
    if ok {
      ConnectKeepsInv(s, lim, c);
    } else {
      LeaveQueueKeepsInv(s, lim, c, Dead);
    }
  }

  lemma DispatchCounts(s: Rq, lim: Limits, c: Id)
    requires CountsOk(s, lim) && UnlinksOne(s, c) && s.ctx[c].status == Disconnected
    ensures CountsOk(Dispatch(s, c), lim)
  {
    var p := s.prio[c] - 1;
    FlattenUpdateLength(s.runq, p, s.runq[p] + [c]);
    assert Dispatch(s, c).ctx.Keys == s.ctx.Keys;
  }

  lemma DispatchKeepsInv(s: Rq, lim: Limits, c: Id)
    requires Inv(s, lim) && c in s.ctx && s.ctx[c].status == Disconnected
    ensures Inv(Dispatch(s, c), lim)
  {
    UnlinkLengths(s, c);
    DispatchCounts(s, lim, c);
    MoveToQueueLists(s, c);
    MoveToQueueRest(s, c);
  }

  /** The first of the two list moves in a cancellation is undone by the second. */
  lemma CancelIsOneMove(s: Rq, c: Id)
    requires Known(s, c) && |s.cnt| == |s.runq| == PRIORITIES
    ensures Cancel(s, c) == AddToCount(MoveToDisconn(s, c, Disconnected), c, -1)
  {
    var m := MoveToQueue(s, c);
    WithoutIsSame(Without(s.conn, c), c);
    WithoutIsSame(Without(s.disconn, c), c);
    assert m.ctx[c := m.ctx[c].(status := Disconnected)] == s.ctx[c := s.ctx[c].(status := Disconnected)];
    forall p | 0 <= p < PRIORITIES
      ensures Without(m.runq[p], c) == Without(s.runq[p], c)
    {
      WithoutIsSame(Without(s.runq[p], c), c);
      WithoutAppend(Without(s.runq[p], c), c);
    }
    assert Unlink(m, c).runq == Unlink(s, c).runq;
  }

  lemma CancelKeepsInv(s: Rq, lim: Limits, c: Id)
    requires Inv(s, lim) && c in s.ctx && s.ctx[c].status == Dispatched
    ensures Inv(Cancel(s, c), lim)
  {
    CancelIsOneMove(s, c);
    LeaveQueueKeepsInv(s, lim, c, Disconnected);
  }

  // Steps that leave a context on its list

  function Update(s: Rq, c: Id, x: Ctx): Rq {
    s.(ctx := s.ctx[c := x])
  }

  lemma StayKeepsLists(s: Rq, c: Id, x: Ctx)
    requires ListsOk(s) && Known(s, c) && Where(x.status, s.prio[c]) == Where(s.ctx[c].status, s.prio[c])
    ensures ListsOk(Update(s, c, x))
  {
    var t := Update(s, c, x);
    forall p | 1 <= p <= PRIORITIES
      ensures ListIs(t.runq[p - 1], t.ctx, t.prio, OnQueue(p))
    {
      assert ListIs(s.runq[p - 1], s.ctx, s.prio, OnQueue(p));
    }
  }

  lemma StayKeepsInv(s: Rq, lim: Limits, c: Id, x: Ctx)
    requires Inv(s, lim) && c in s.ctx && Where(x.status, s.prio[c]) == Where(s.ctx[c].status, s.prio[c])
    requires x.lastCompleted == s.ctx[c].lastCompleted
    ensures Inv(Update(s, c, x), lim)
  {
    StayKeepsLists(s, c, x);
    assert Update(s, c, x).ctx.Keys == s.ctx.Keys;
  }

  lemma FalselyConnectedBreaksLists(s: Rq, c: Id, x: Ctx)
    requires c !in s.conn && c in s.prio && Where(x.status, s.prio[c]) == OnConn
    ensures !ListsOk(Update(s, c, x))
  {
    assert c in Update(s, c, x).ctx;
  }

  /** The yield work: an idle context gives up its hardware context, or keeps it when nobody waits. */
  function YieldWork(s: Rq, c: Id): Rq
    requires c in s.ctx
  {
    var x := s.ctx[c];
    if x.submitted != x.completed then s
    else if s.total == 0 then Update(s, c, x.(shouldBlock := false, status := Connected))
    else Stop(Update(s, c, x.(shouldBlock := false)), c)
  }

  /** The yield work keeps the invariant exactly when it does not call a context off the connected list connected. */
  lemma YieldKeepsInvIff(s: Rq, lim: Limits, c: Id)
    requires Inv(s, lim) && c in s.ctx
    ensures Inv(YieldWork(s, c), lim)
       <==> s.ctx[c].submitted != s.ctx[c].completed || s.total != 0 || c in s.conn
  {
    var x := s.ctx[c];
    if x.submitted == x.completed {
      if s.total == 0 && c !in s.conn {
        FalselyConnectedBreaksLists(s, c, x.(shouldBlock := false, status := Connected));
      } else if s.total == 0 {
        StayKeepsInv(s, lim, c, x.(shouldBlock := false, status := Connected));
      } else {
        StayKeepsInv(s, lim, c, x.(shouldBlock := false));
        StopKeepsInv(Update(s, c, x.(shouldBlock := false)), lim, c);
      }
    }
  }

  /** What a completed job, or a failed submission, does to a context that has been asked to give way. */
  function YieldNotice(s: Rq, c: Id): Rq
    requires c in s.ctx
  {
    if s.ctx[c].shouldBlock then SetStatus(s, c, Disconnecting) else s
  }

  lemma NoticeKeepsInvIff(s: Rq, lim: Limits, c: Id)
    requires Inv(s, lim) && c in s.ctx
    ensures Inv(YieldNotice(s, c), lim) <==> !s.ctx[c].shouldBlock || c in s.conn
  {
    if s.ctx[c].shouldBlock {
      if c in s.conn {
        StayKeepsInv(s, lim, c, s.ctx[c].(status := Disconnecting));
      } else {
        FalselyConnectedBreaksLists(s, c, s.ctx[c].(status := Disconnecting));
      }
    }
  }

  /** The clean-up of an interrupted submission. */
  function CancelSubmit(s: Rq, c: Id): (t: Rq)
    requires Known(s, c) && |s.cnt| == |s.runq| == PRIORITIES
    ensures t.seen == s.seen
  {
    if s.ctx[c].status.Dispatched? then Cancel(s, c)
    else if s.ctx[c].status.Connected? then Stop(s, c)
    else s
  }

  // Adding and deleting contexts

  const NEW_CTX := Ctx(Disconnected, false, 0, 0, 0, NEVER)

  function Add(s: Rq, c: Id, priority: nat): Rq {
    s.(prio := s.prio[c := priority], ctx := s.ctx[c := NEW_CTX], disconn := s.disconn + [c],
       ctxCnt := s.ctxCnt + 1, seen := s.seen - {c})
  }

  lemma AddKeepsLists(s: Rq, c: Id, priority: nat)
    requires ListsOk(s) && c !in s.ctx
    ensures ListsOk(Add(s, c, priority))
  {
    var t := Add(s, c, priority);
    forall p | 1 <= p <= PRIORITIES
      ensures ListIs(t.runq[p - 1], t.ctx, t.prio, OnQueue(p))
    {
      assert ListIs(s.runq[p - 1], s.ctx, s.prio, OnQueue(p));
    }
  }

  lemma AddCounts(s: Rq, lim: Limits, c: Id, priority: nat)
    requires CountsOk(s, lim) && c !in s.ctx && s.ctxCnt != lim.ctx
    ensures CountsOk(Add(s, c, priority), lim)
  {
    assert Add(s, c, priority).ctx.Keys == s.ctx.Keys + {c};
  }

  lemma AddRest(s: Rq, c: Id, priority: nat)
    requires KeysOk(s) && ConnOk(s) && SeenOk(s) && c !in s.ctx && c !in s.conn && 1 <= priority <= PRIORITIES
    ensures var t := Add(s, c, priority); KeysOk(t) && ConnOk(t) && SeenOk(t)
  {
  }

  /** Adding keeps the invariant exactly when the priority, which the driver takes as the user gave it, is in range. */
  lemma AddKeepsInvIff(s: Rq, lim: Limits, c: Id, priority: nat)
    requires Inv(s, lim) && c !in s.ctx && s.ctxCnt != lim.ctx
    ensures Inv(Add(s, c, priority), lim) <==> 1 <= priority <= PRIORITIES
  {
    if 1 <= priority <= PRIORITIES {
      AddKeepsInv(s, lim, c, priority);
    } else {
      assert Add(s, c, priority).prio[c] == priority;
    }
  }

  lemma AddKeepsInv(s: Rq, lim: Limits, c: Id, priority: nat)
    requires Inv(s, lim) && c !in s.ctx && 1 <= priority <= PRIORITIES && s.ctxCnt != lim.ctx
    ensures Inv(Add(s, c, priority), lim)
  {
    AddKeepsLists(s, c, priority);
    AddCounts(s, lim, c, priority);
    AddRest(s, c, priority);
  }

  function Remove(s: Rq, c: Id): Rq {
    Unlink(s, c).(prio := s.prio - {c}, ctx := s.ctx - {c}, ctxCnt := s.ctxCnt - 1)
  }

  function Del(s: Rq, c: Id): (t: Rq)
    requires c in s.ctx
    ensures t.seen == s.seen
  {
    Remove(Stop(s, c), c)
  }

  lemma RemoveFromList(l: seq<Id>, ctx: map<Id, Ctx>, prio: map<Id, nat>, place: Place, c: Id)
    requires ListIs(l, ctx, prio, place)
    ensures ListIs(Without(l, c), ctx - {c}, prio - {c}, place)
  {
    WithoutKeepsNoDup(l, c);
  }

  lemma RemoveKeepsLists(s: Rq, c: Id)
    requires ListsOk(s)
    ensures ListsOk(Remove(s, c))
  {
    var t := Remove(s, c);
    RemoveFromList(s.conn, s.ctx, s.prio, OnConn, c);
    RemoveFromList(s.disconn, s.ctx, s.prio, OnDisconn, c);
    forall p | 1 <= p <= PRIORITIES
      ensures ListIs(t.runq[p - 1], t.ctx, t.prio, OnQueue(p))
    {
      RemoveFromList(s.runq[p - 1], s.ctx, s.prio, OnQueue(p), c);
    }
  }

  lemma RemoveRest(s: Rq, c: Id)
    requires KeysOk(s) && ConnOk(s) && SeenOk(s)
    ensures var t := Remove(s, c); KeysOk(t) && ConnOk(t) && SeenOk(t)
  {
    WithoutKeepsSorted(s.conn, s.prio, s.stamp, c);
  }

  lemma RemoveCountsIff(s: Rq, lim: Limits, c: Id)
    requires CountsOk(s, lim) && UnlinksOne(s, c) && !ShouldStop(s.ctx[c].status)
    ensures CountsOk(Remove(s, c), lim) <==> s.ctx[c].status != Dispatched
  {
    var t := Remove(s, c);
    assert t.ctx.Keys == s.ctx.Keys - {c};
    if s.ctx[c].status == Dispatched {
      var p := s.prio[c] - 1;
      assert t.cnt[p] != |t.runq[p]|;
    }
  }

  lemma RemoveKeepsInvIff(s: Rq, lim: Limits, c: Id)
    requires Inv(s, lim) && c in s.ctx && !ShouldStop(s.ctx[c].status)
    ensures Inv(Remove(s, c), lim) <==> s.ctx[c].status != Dispatched
  {
    UnlinkLengths(s, c);
    RemoveCountsIff(s, lim, c);
    RemoveKeepsLists(s, c);
    RemoveRest(s, c);
  }

  /** Deleting a context keeps the invariant exactly when it is not waiting on a run queue. */
  lemma DelKeepsInvIff(s: Rq, lim: Limits, c: Id)
    requires Inv(s, lim) && c in s.ctx
    ensures Inv(Del(s, c), lim) <==> s.ctx[c].status != Dispatched
  {
    StopKeepsInv(s, lim, c);
    RemoveKeepsInvIff(Stop(s, c), lim, c);
  }
}
