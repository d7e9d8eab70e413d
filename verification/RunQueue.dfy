/** The context run queue as the driver keeps it: lists and counters updated in place under the device lock. */
module RunQueue {
  import opened Prelude
  import opened ContextLists
  import opened RunQueueEffects
  import opened RunQueueSpec
  import opened RunQueuePasses
  import opened RunQueueRuns

  function First(l: seq<Id>): Option<Id> {
    if l == [] then None else Some(l[0])
  }

  /** The waiting context that is served after i others. */
  function Turn(s: Rq, i: nat): Option<Id> {
    if i < |Order(s)| then Some(Order(s)[i]) else None
  }

  lemma SpliceTail(l: seq<Id>, c: Id, i: nat)
    requires 0 < i <= |l|
    ensures [l[0]] + (l[1..][..i - 1] + [c] + l[1..][i - 1..]) == l[..i] + [c] + l[i..]
  {
  }

  lemma {:induction false} InsertAt(l: seq<Id>, prio: map<Id, nat>, c: Id, i: nat)
    requires c in prio && (forall x <- l :: x in prio) && i <= |l|
    requires (forall j | 0 <= j < i :: prio[l[j]] < prio[c]) && (i == |l| || prio[l[i]] >= prio[c])
    ensures Insert(l, prio, c) == l[..i] + [c] + l[i..]
  {
    if i == 0 {
      assert l[..0] == [] && l[0..] == l;
    } else {
      var rest := l[1..];
      assert forall j | 0 <= j < i - 1 :: rest[j] == l[j + 1];
      InsertAt(rest, prio, c, i - 1);
      assert Insert(l, prio, c) == [l[0]] + Insert(rest, prio, c);
      SpliceTail(l, c, i);
    }
  }

  /** What follows a waiting context in the order of service. */
  lemma AfterInOrder(s: Rq, p: nat, j: nat, k: nat)
    requires KeysOk(s) && ListsOk(s) && p < PRIORITIES && j < |s.runq[p]|
    requires k < |Order(s)| && Order(s)[k] == s.runq[p][j]
    ensures Order(s)[k + 1..] == s.runq[p][j + 1..] + Flatten(s.runq[p + 1..])
  {
    FlattenAt(s.runq, p);
    OrderOk(s);
    AfterInConcat(Order(s), Flatten(s.runq[..p]), s.runq[p], Flatten(s.runq[p + 1..]), j, k);
  }

  lemma TurnAfter(s: Rq, p: nat, j: nat, k: nat, r: Option<Id>)
    requires KeysOk(s) && ListsOk(s) && p < PRIORITIES && j < |s.runq[p]| && Turn(s, k) == Some(s.runq[p][j])
    requires r == if j == |s.runq[p]| - 1 then First(Flatten(s.runq[p + 1..])) else Some(s.runq[p][j + 1])
    ensures r == Turn(s, k + 1)
  {
    AfterInOrder(s, p, j, k);
    assert r == First(Order(s)[k + 1..]);
  }

  method IndexOf(l: seq<Id>, c: Id) returns (j: nat)
    requires c in l
    ensures j < |l| && l[j] == c
  {
    j := 0;
    while l[j] != c
      invariant j < |l| && c in l[j..]
      decreases |l| - j
    {
      j := j + 1;
    }
  }

  /** The place of a newly connected context in the ordered list. */
  method ConnPosition(conn: seq<Id>, prio: map<Id, nat>, c: Id, ghost stamp: map<Id, nat>) returns (i: nat)
    requires Sorted(conn, prio, stamp) && c in prio
    ensures i <= |conn| && Insert(conn, prio, c) == conn[..i] + [c] + conn[i..]
  {
    i := |conn|;
    if conn != [] && prio[conn[|conn| - 1]] >= prio[c] {
      i := 0;
      while prio[conn[i]] < prio[c]
        invariant i < |conn| && forall j | 0 <= j < i :: prio[conn[j]] < prio[c]
        decreases |conn| - i
      {
        i := i + 1;
      }
    } else {
      assert forall j | 0 <= j < |conn| - 1 :: Before(conn[j], conn[|conn| - 1], prio, stamp);
    }
    InsertAt(conn, prio, c, i);
  }

  /** The victim pass so far: one victim for each of the first waiters, and nothing else changed. */
  ghost predicate Blocking(s0: Rq, s: Rq, lim: Limits, victims: seq<Id>) {
    Inv(s, lim) && OnlyBlocked(s0, s, victims) && VictimsOk(s0, victims, Order(s0))
  }

  /** The victim pass is over: no waiter from the next one on could still be given a victim. */
  ghost predicate BlockDone(s0: Rq, s: Rq, lim: Limits, victims: seq<Id>) {
    && Blocking(s0, s, lim, victims)
    && forall i | |victims| <= i < |Order(s0)| :: Order(s0)[i] in s.prio && NoVictim(s, s.prio[Order(s0)[i]])
  }

  /** The victim pass has come to the waiter `next`. */
  ghost predicate AtTurn(s0: Rq, s: Rq, lim: Limits, victims: seq<Id>, next: Option<Id>) {
    Blocking(s0, s, lim, victims) && next == Turn(s0, |victims|)
  }

  ghost predicate AfterChoice(s0: Rq, s: Rq, lim: Limits, victims: seq<Id>, v: Option<Id>) {
    match v
    case None => BlockDone(s0, s, lim, victims)
    case Some(c) => Blocking(s0, s, lim, victims + [c])
  }

  ghost predicate AfterRound(s0: Rq, s: Rq, lim: Limits, victims: seq<Id>, v: Option<Id>, next: Option<Id>) {
    match v
    case None => BlockDone(s0, s, lim, victims)
    case Some(c) => AtTurn(s0, s, lim, victims + [c], next)
  }

  lemma WaitersKnown(s: Rq)
    requires KeysOk(s) && ListsOk(s)
    ensures forall w <- Order(s) :: w in s.prio
  {
    OrderOk(s);
  }

  lemma NoVictimsOk(s: Rq, waiters: seq<Id>)
    requires forall w <- waiters :: w in s.prio
    ensures OnlyBlocked(s, s, []) && VictimsOk(s, [], waiters)
  {
  }

  lemma NobodyBlockedYet(s: Rq, lim: Limits)
    requires Inv(s, lim)
    ensures Blocking(s, s, lim, [])
  {
    WaitersKnown(s);
    NoVictimsOk(s, Order(s));
  }

  lemma SameQueues(s0: Rq, s: Rq, lim: Limits, victims: seq<Id>)
    requires Blocking(s0, s, lim, victims)
    ensures Inv(s, lim) && s.runq == s0.runq
  {
  }

  lemma TurnComes(s0: Rq, s: Rq, lim: Limits, victims: seq<Id>, next: Option<Id>)
    requires Blocking(s0, s, lim, victims) && next == Turn(s0, |victims|)
    ensures AtTurn(s0, s, lim, victims, next)
  {
  }

  lemma EveryWaiterServed(s0: Rq, s: Rq, lim: Limits, victims: seq<Id>)
    requires AtTurn(s0, s, lim, victims, None)
    ensures BlockDone(s0, s, lim, victims)
  {
  }

  lemma BlockingStep(s0: Rq, s: Rq, lim: Limits, victims: seq<Id>, v: Id)
    requires Inv(s0, lim) && Blocking(s0, s, lim, victims) && |victims| < |Order(s0)|
    requires Victim(s.conn, s.ctx, s.prio, s.prio[Order(s0)[|victims|]]) == Some(v)
    ensures v in s.ctx && Blocking(s0, Block(s, v), lim, victims + [v])
  {
    var u, t := BlockStep(s0, s, lim, victims, Order(s0));
  }

  lemma NobodyLeft(s: Rq, lim: Limits, m: nat)
    requires Inv(s, lim) && m < |Order(s)| && (forall w <- Order(s) :: w in s.prio)
    requires Victim(s.conn, s.ctx, s.prio, s.prio[Order(s)[m]]).None?
    ensures forall i | m <= i < |Order(s)| :: NoVictim(s, s.prio[Order(s)[i]])
  {
    OrderOk(s);
    NoVictimForLater(s, Order(s), m);
  }

  lemma NobodyLeftFrom(s0: Rq, s: Rq, lim: Limits, victims: seq<Id>)
    requires Inv(s0, lim) && Blocking(s0, s, lim, victims) && |victims| < |Order(s0)|
    requires Victim(s.conn, s.ctx, s.prio, s.prio[Order(s0)[|victims|]]).None?
    ensures BlockDone(s0, s, lim, victims)
  {
    NobodyLeft(s, lim, |victims|);
  }

  // The stuck detector, on the connected list and the contexts

  predicate Busy(x: Ctx) {
    x.submitted != x.completed
  }

  predicate Progressed(x: Ctx) {
    Busy(x) && x.lastCompleted != x.completed
  }

  function LookedAt(x: Ctx): Ctx {
    if Busy(x) then x.(lastCompleted := x.completed) else x
  }

  /** The contexts `now` when the detector has looked at those of `seen`, and whether some ran and some moved. */
  predicate Looking(seen: seq<Id>, ctx: map<Id, Ctx>, now: map<Id, Ctx>, running: nat, progress: nat) {
    && (forall c <- seen :: c in ctx) && now.Keys == ctx.Keys
    && (forall c <- ctx :: now[c] == if c in seen then LookedAt(ctx[c]) else ctx[c])
    && (running > 0 <==> exists c <- seen :: Busy(ctx[c]))
    && (progress > 0 <==> exists c <- seen :: Progressed(ctx[c]))
  }

  lemma LookAtOne(seen: seq<Id>, c: Id, ctx: map<Id, Ctx>, now: map<Id, Ctx>, running: nat, progress: nat)
    requires Looking(seen, ctx, now, running, progress) && c in ctx && c !in seen
    ensures now[c] == ctx[c]
    ensures Looking(seen + [c], ctx, now[c := LookedAt(now[c])], if Busy(now[c]) then running + 1 else running,
                    if Progressed(now[c]) then progress + 1 else progress)
  {
    assert c in seen + [c];
    assert forall x :: x in seen + [c] <==> x in seen || x == c;
  }

  lemma AllLookedAt(s: Rq, now: map<Id, Ctx>, running: nat, progress: nat)
    requires Looking(s.conn, s.ctx, now, running, progress)
    ensures now == Checked(s).ctx && (running != 0 && progress == 0 <==> AllStuck(s))
  {
    assert forall c <- s.conn :: Running(s, c) <==> Busy(s.ctx[c]);
  }

  /** Some connected context has outstanding jobs, and none such is past the count remembered of it. */
  predicate SomeRunNoneMoves(conn: seq<Id>, ctx: map<Id, Ctx>) {
    && (exists c <- conn :: c in ctx && ctx[c].submitted != ctx[c].completed)
    && (forall c <- conn | c in ctx && ctx[c].submitted != ctx[c].completed ::
          ctx[c].lastCompleted == ctx[c].completed)
  }

  /** The completed counts of the connected contexts with outstanding jobs are remembered. */
  predicate Remembered(conn: seq<Id>, ctx: map<Id, Ctx>, now: map<Id, Ctx>) {
    && now.Keys == ctx.Keys
    && forall c <- ctx :: now[c] ==
         if c in conn && ctx[c].submitted != ctx[c].completed then ctx[c].(lastCompleted := ctx[c].completed)
         else ctx[c]
  }

  lemma CheckedRemembers(s: Rq)
    ensures Remembered(s.conn, s.ctx, Checked(s).ctx)
    ensures AllStuck(s) <==> SomeRunNoneMoves(s.conn, s.ctx)
  {
  }

  /** The walk over the connected list, with the contexts and the two counters as it leaves them. */
  method LookAtAll(conn: seq<Id>, ctx: map<Id, Ctx>) returns (now: map<Id, Ctx>, running: nat, progress: nat)
    requires NoDup(conn) && forall c <- conn :: c in ctx
    ensures Looking(conn, ctx, now, running, progress)
  {
    now, running, progress := ctx, 0, 0;
    var i := 0;
    while i < |conn|
      invariant i <= |conn| && Looking(conn[..i], ctx, now, running, progress)
    {
      var c := conn[i];
      OneMore(conn, i);
      LookAtOne(conn[..i], c, ctx, now, running, progress);
      if now[c].submitted != now[c].completed {
        running := running + 1;
        if now[c].lastCompleted != now[c].completed {
          now, progress := now[c := now[c].(lastCompleted := now[c].completed)], progress + 1;
        } else {
          assert now[c := LookedAt(now[c])] == now;
        }
      } else {
        assert now[c := LookedAt(now[c])] == now;
      }
      i := i + 1;
    }
    assert conn[..i] == conn;
  }

  lemma ConnKnown(s: Rq)
    requires ListsOk(s)
    ensures NoDup(s.conn) && forall c <- s.conn :: c in s.ctx
  {
  }

  /** The walk back over the connected list to the context that has to give way. */
  method WalkBack(conn: seq<Id>, ctx: map<Id, Ctx>, prio: map<Id, nat>, priority: nat) returns (r: Option<Id>)
    requires forall c <- conn :: c in ctx && c in prio
    ensures r == Victim(conn, ctx, prio, priority)
  {
    var i := |conn|;
    assert conn[..i] == conn;
    while i > 0
      invariant 0 <= i <= |conn| && Victim(conn, ctx, prio, priority) == Victim(conn[..i], ctx, prio, priority)
    {
      i := i - 1;
      assert conn[..i + 1][..i] == conn[..i];
      var c := conn[i];
      if prio[c] >= priority && !ctx[c].shouldBlock {
        return Some(c);
      }
    }
    return None;
  }

  lemma HeadMoves(a: seq<Id>, b: seq<Id>)
    requires b != []
    ensures (a + [b[0]]) + b[1..] == a + b
  {
  }

  lemma NothingStartedYet(s: Rq, lim: Limits, connects: Id -> bool)
    requires Inv(s, lim)
    ensures Connecting(s, s, lim, connects, 0)
  {
    assert Order(s)[0..] == Order(s) && Order(s)[..0] == [];
  }

  /** The connect pass is over: it started as many as the hardware allowed, and nobody else could be. */
  ghost predicate ConnectDone(s0: Rq, s: Rq, lim: Limits, connects: Id -> bool, k: nat) {
    && Connecting(s0, s, lim, connects, k)
    && k == Started(Order(s0), connects, lim.hwctx - s0.hwctxCnt)
    && (Order(s) == [] || s.hwctxCnt == lim.hwctx)
  }

  /** One more context was started, or none could be. */
  ghost predicate AfterStart(s0: Rq, s: Rq, lim: Limits, connects: Id -> bool, k: nat, started: bool) {
    && Connecting(s0, s, lim, connects, if started then k + 1 else k)
    && (started || Order(s) == [] || s.hwctxCnt == lim.hwctx)
  }

  lemma NotConnected(s: Rq, c: Id)
    requires KeysOk(s) && ListsOk(s) && ConnOk(s) && c in s.ctx && s.ctx[c].status == Dispatched
    ensures Known(s, c) && c !in s.conn && Sorted(s.conn, s.prio, s.stamp)
  {
  }

  lemma AllStarted(s0: Rq, s: Rq, lim: Limits, connects: Id -> bool, k: nat)
    requires Connecting(s0, s, lim, connects, k) && (Order(s) == [] || s.hwctxCnt == lim.hwctx)
    ensures ConnectDone(s0, s, lim, connects, k)
  {
  }

  lemma StopFirst(s: Rq, lim: Limits)
    requires Inv(s, lim) && s.conn != []
    ensures var t := Stop(s, s.conn[0]);
            t.conn == s.conn[1..] && t.disconn + t.conn == s.disconn + s.conn && t.runq == s.runq
  {
    var c := s.conn[0];
    ConnFirst(s);
    UnlinkFirst(s.conn, s.disconn, s.runq);
    HeadMoves(s.disconn, s.conn);
    assert Stop(s, c) == MoveToDisconn(s, c, Disconnected).(hwctxCnt := s.hwctxCnt - 1);
  }

  /** The contexts that were connected and are no longer are disconnected now; the others did not change. */
  predicate Paused(was: seq<Id>, conn: seq<Id>, ctx: map<Id, Ctx>, now: map<Id, Ctx>) {
    && now.Keys == ctx.Keys
    && forall c <- ctx :: now[c] == if c in was && c !in conn then ctx[c].(status := Disconnected) else ctx[c]
  }

  lemma PausedOneMore(was: seq<Id>, conn: seq<Id>, ctx: map<Id, Ctx>, now: map<Id, Ctx>)
    requires Paused(was, conn, ctx, now) && conn != [] && NoDup(conn) && conn[0] in ctx && conn[0] in was
    ensures Paused(was, conn[1..], ctx, now[conn[0] := now[conn[0]].(status := Disconnected)])
  {
    assert conn == [conn[0]] + conn[1..];
  }

  lemma ConnFirst(s: Rq)
    requires ListsOk(s) && s.conn != []
    ensures var c := s.conn[0];
            && c in s.ctx && ShouldStop(s.ctx[c].status) && NoDup(s.conn) && c !in s.disconn
            && (forall i | 0 <= i < |s.runq| :: c !in s.runq[i])
  {
    var c := s.conn[0];
    assert c in s.conn;
    forall i | 0 <= i < |s.runq|
      ensures c !in s.runq[i]
    {
      assert ListIs(s.runq[i], s.ctx, s.prio, OnQueue(i + 1));
    }
  }

  lemma UnlinkFirst(conn: seq<Id>, disconn: seq<Id>, runq: seq<seq<Id>>)
    requires conn != [] && NoDup(conn) && conn[0] !in disconn && forall i | 0 <= i < |runq| :: conn[0] !in runq[i]
    ensures var c := conn[0];
            Without(conn, c) == conn[1..] && Without(disconn, c) == disconn && OffQueues(runq, c) == runq
  {
    WithoutIsSame(conn[1..], conn[0]);
    WithoutIsSame(disconn, conn[0]);
    forall i | 0 <= i < |runq|
      ensures Without(runq[i], conn[0]) == runq[i]
    {
      WithoutIsSame(runq[i], conn[0]);
    }
  }

  class RunQueue {
    const lim: Limits
    var prio: map<Id, nat>
    var ctx: map<Id, Ctx>
    var runq: seq<seq<Id>>
    var cnt: seq<int>
    var total: int
    var conn: seq<Id>
    var disconn: seq<Id>
    var hwctxCnt: int
    var ctxCnt: int
    ghost var stamp: map<Id, nat>
    ghost var clock: nat
    ghost var seen: map<Id, set<nat>>

    ghost function State(): Rq
      reads this
    {
      Rq(prio, ctx, runq, cnt, total, conn, disconn, hwctxCnt, ctxCnt, stamp, clock, seen)
    }

    ghost predicate Valid()
      reads this
    {
      Inv(State(), lim)
    }

    constructor (lim: Limits)
      ensures Valid() && State() == EMPTY && this.lim == lim
    {
      this.lim := lim;
      prio, ctx := map[], map[];
      runq, cnt, total := [[], [], [], []], [0, 0, 0, 0], 0;
      conn, disconn, hwctxCnt, ctxCnt := [], [], 0, 0;
      stamp, clock, seen := map[], 0, map[];
      new;
      EmptyInv(lim);
    }

    /** The first waiting context of priority above i. */
    method FirstFrom(i: nat) returns (r: Option<Id>)
      requires Valid() && i <= PRIORITIES
      ensures r == First(Flatten(runq[i..]))
    {
      var p := i;
      while p < PRIORITIES
        invariant i <= p <= PRIORITIES && Flatten(runq[i..]) == Flatten(runq[p..])
      {
        assert runq[p..][1..] == runq[p + 1..];
        if cnt[p] != 0 {
          return Some(runq[p][0]);
        }
        p := p + 1;
      }
      return None;
    }

    method NextAfter(c: Id, ghost k: nat) returns (r: Option<Id>)
      requires Valid() && Turn(State(), k) == Some(c)
      ensures r == Turn(State(), k + 1)
    {
      WaitsOnItsQueue(State(), c);
      var p := prio[c] - 1;
      var j := IndexOf(runq[p], c);
      if j == |runq[p]| - 1 {
        r := FirstFrom(p + 1);
      } else {
        r := Some(runq[p][j + 1]);
      }
      TurnAfter(State(), p, j, k, r);
    }

    /**
     The waiting context served after c, the k-th one, or without c the first one. So the waiting contexts
     are enumerated in order.
     */
    method SelectNext(c: Option<Id>, ghost k: nat) returns (r: Option<Id>)
      requires Valid() && (c.Some? ==> c == Turn(State(), k))
      ensures r == Turn(State(), if c.None? then 0 else k + 1)
    {
      if total == 0 {
        return None;
      }
      if c.Some? {
        r := NextAfter(c.value, k);
      } else {
        r := FirstFrom(0);
        assert runq[0..] == runq;
      }
    }

    method Unlink(c: Id)
      modifies this`runq, this`conn, this`disconn
      ensures State() == RunQueueSpec.Unlink(old(State()), c)
    {
      conn, disconn := Without(conn, c), Without(disconn, c);
      runq := OffQueues(runq, c);
    }

    // The moves below change the lists as they are asked to; what they keep is shown where they are used.

    method InsertConn(c: Id)
      requires Sorted(conn, prio, stamp) && c in prio && c !in conn
      modifies this`runq, this`conn, this`disconn, this`hwctxCnt
      ensures var s := old(State());
              State() == s.(conn := Insert(s.conn, s.prio, c), disconn := Without(s.disconn, c),
                            runq := OffQueues(s.runq, c), hwctxCnt := s.hwctxCnt + 1)
    {
      var i := ConnPosition(conn, prio, c, stamp);
      WithoutIsSame(conn, c);
      Unlink(c);
      conn, hwctxCnt := conn[..i] + [c] + conn[i..], hwctxCnt + 1;
    }

    method ConnectCtx(c: Id)
      requires Known(State(), c) && |cnt| == PRIORITIES && Sorted(conn, prio, stamp) && c !in conn
      modifies this
      ensures State() == Start(old(State()), c, true)
    {
      var p := prio[c] - 1;
      WithoutIsSame(conn, c);
      InsertConn(c);
      SetConnected(c, p);
    }

    method SetConnected(c: Id, p: nat)
      requires c in ctx && p < |cnt|
      modifies this`ctx, this`cnt, this`total, this`stamp, this`clock
      ensures var s := old(State());
              State() == s.(ctx := s.ctx[c := s.ctx[c].(status := Connected)], cnt := s.cnt[p := s.cnt[p] - 1],
                            total := s.total - 1, stamp := s.stamp[c := s.clock], clock := s.clock + 1)
    {
      ctx, cnt, total := ctx[c := ctx[c].(status := Connected)], cnt[p := cnt[p] - 1], total - 1;
      stamp, clock := stamp[c := clock], clock + 1;
    }

    method FailCtx(c: Id)
      requires Known(State(), c) && |cnt| == PRIORITIES && forall x <- conn :: x in prio
      modifies this
      ensures State() == Start(old(State()), c, false)
    {
      var p := prio[c] - 1;
      MoveOff(c, Dead);
      cnt, total := cnt[p := cnt[p] - 1], total - 1;
    }

    method StartCtx(c: Id, ok: bool)
      requires Known(State(), c) && |cnt| == PRIORITIES && Sorted(conn, prio, stamp) && c !in conn
      modifies this
      ensures State() == Start(old(State()), c, ok)
    {
      if ok {
        ConnectCtx(c);
      } else {
        FailCtx(c);
      }
    }

    method DispatchCtx(c: Id)
      requires Known(State(), c) && |cnt| == |runq| == PRIORITIES
      modifies this
      ensures State() == Dispatch(old(State()), c)
    {
      var p := prio[c] - 1;
      MoveToRunq(c);
      cnt, total := cnt[p := cnt[p] + 1], total + 1;
    }

    method CancelCtx(c: Id)
      requires Known(State(), c) && |cnt| == |runq| == PRIORITIES
      modifies this
      ensures State() == Cancel(old(State()), c)
    {
      var p := prio[c] - 1;
      MoveToRunq(c);
      MoveOff(c, Disconnected);
      cnt, total := cnt[p := cnt[p] - 1], total - 1;
    }

    method MoveToRunq(c: Id)
      requires Known(State(), c) && |runq| == PRIORITIES
      modifies this`runq, this`conn, this`disconn, this`ctx
      ensures State() == MoveToQueue(old(State()), c)
    {
      var p := prio[c] - 1;
      Unlink(c);
      runq, ctx := runq[p := runq[p] + [c]], ctx[c := ctx[c].(status := Dispatched)];
    }

    method MoveOff(c: Id, status: Status)
      requires c in ctx
      modifies this`runq, this`conn, this`disconn, this`ctx
      ensures State() == MoveToDisconn(old(State()), c, status)
    {
      Unlink(c);
      disconn, ctx := disconn + [c], ctx[c := ctx[c].(status := status)];
    }

    method YieldCtx(c: Id)
      requires c in ctx
      modifies this
      ensures State() == RunQueueSpec.YieldWork(old(State()), c)
    {
      if ctx[c].submitted != ctx[c].completed {
        return;
      }
      ctx := ctx[c := ctx[c].(shouldBlock := false)];
      if total == 0 {
        ctx := ctx[c := ctx[c].(status := Connected)];
      } else {
        StopCtx(c);
      }
    }

    method NewCtx(c: Id, priority: nat)
      modifies this
      ensures State() == Add(old(State()), c, priority)
    {
      ctx, prio := ctx[c := NEW_CTX], prio[c := priority];
      disconn, ctxCnt := disconn + [c], ctxCnt + 1;
      seen := seen - {c};
    }

    method RemoveCtx(c: Id)
      requires c in ctx
      modifies this
      ensures State() == Del(old(State()), c)
    {
      StopCtx(c);
      Unlink(c);
      ctx, prio, ctxCnt := ctx - {c}, prio - {c}, ctxCnt - 1;
    }

    method StopCtx(c: Id)
      requires c in ctx
      modifies this
      ensures State() == Stop(old(State()), c)
    {
      if ShouldStop(ctx[c].status) {
        Unlink(c);
        disconn, hwctxCnt := disconn + [c], hwctxCnt - 1;
        ctx := ctx[c := ctx[c].(status := Disconnected)];
      }
    }

    // The works and entry points

    /** One round of the connect pass: start the best waiting context, unless none waits or the hardware is full. */
    method ConnectOne(connects: Id -> bool, ghost s0: Rq, ghost k: nat) returns (started: bool)
      requires Connecting(s0, State(), lim, connects, k) && NoDup(Order(s0))
      modifies this
      ensures AfterStart(s0, State(), lim, connects, k, started)
      ensures exists ok :: Takes(old(State()), lim, StartNext(ok), State())
    {
      var next := SelectNext(None, 0);
      if next == None || hwctxCnt == lim.hwctx {
        ghost var u := StartIsTaken(State(), lim, true);
        return false;
      }
      ghost var c, t := ConnectStep(s0, State(), lim, connects, k);
      NotConnected(State(), c);
      ghost var u := StartIsTaken(State(), lim, connects(c));
      StartCtx(next.value, connects(next.value));
      return true;
    }

    /** The connect pass starts the first k waiting contexts, where k is what the free hardware contexts allow. */
    method ConnectPass(connects: Id -> bool) returns (ghost k: nat)
      requires Valid()
      modifies this
      ensures ConnectDone(old(State()), State(), lim, connects, k)
    {
      ghost var s0 := State();
      k := 0;
      OrderOk(s0);
      NothingStartedYet(s0, lim, connects);
      var more := true;
      while more
        invariant Connecting(s0, State(), lim, connects, k)
        invariant !more ==> Order(State()) == [] || hwctxCnt == lim.hwctx
        decreases more, |Order(s0)| - k
      {
        more := ConnectOne(connects, s0, k);
        k := if more then k + 1 else k;
      }
      AllStarted(s0, State(), lim, connects, k);
    }

    /** The connected context that has to give way to a waiter, from the end of the ordered list. */
    method SelectCtxToBlock(priority: nat) returns (r: Option<Id>)
      requires Valid()
      ensures r == Victim(conn, ctx, prio, priority)
      ensures r == None ==> forall c <- conn :: ctx[c].shouldBlock || prio[c] < priority
      ensures r.Some? ==> r.value in conn && !ctx[r.value].shouldBlock && prio[r.value] >= priority
      ensures r.Some? ==> forall c <- conn | !ctx[c].shouldBlock && c != r.value ::
                            prio[c] < prio[r.value] || (prio[c] == prio[r.value] && stamp[c] > stamp[r.value])
    {
      VictimIsLowestAndOldest(conn, ctx, prio, stamp, priority);
      r := WalkBack(conn, ctx, prio, priority);
    }

    method BlockCtx(v: Id)
      requires v in ctx
      modifies this`ctx
      ensures State() == Block(old(State()), v)
    {
      if ctx[v].pendingJobs == 0 && ctx[v].submitted == ctx[v].completed {
        ctx := ctx[v := ctx[v].(shouldBlock := true, status := Disconnecting)];
      } else {
        ctx := ctx[v := ctx[v].(shouldBlock := true)];
      }
    }

    method BlockFor(waiter: Id, ghost victims: seq<Id>, ghost s0: Rq) returns (v: Option<Id>)
      requires Inv(s0, lim) && AtTurn(s0, State(), lim, victims, Some(waiter))
      modifies this`ctx
      ensures AfterChoice(s0, State(), lim, victims, v)
    {
      v := SelectCtxToBlock(prio[waiter]);
      if v == None {
        NobodyLeftFrom(s0, State(), lim, victims);
      } else {
        BlockingStep(s0, State(), lim, victims, v.value);
        BlockCtx(v.value);
      }
    }

    method NextInOrder(waiter: Id, ghost i: nat, ghost s0: Rq) returns (next: Option<Id>)
      requires Valid() && runq == s0.runq && Turn(s0, i) == Some(waiter)
      ensures next == Turn(s0, i + 1)
    {
      next := SelectNext(Some(waiter), i);
    }

    method NextWaiter(waiter: Id, ghost victims: seq<Id>, ghost s0: Rq) returns (next: Option<Id>)
      requires victims != [] && Blocking(s0, State(), lim, victims) && Turn(s0, |victims| - 1) == Some(waiter)
      ensures AtTurn(s0, State(), lim, victims, next)
    {
      ghost var s := State();
      SameQueues(s0, s, lim, victims);
      next := NextInOrder(waiter, |victims| - 1, s0);
      TurnComes(s0, s, lim, victims, next);
    }

    /** One round of the victim pass, for the waiter whose turn it is. */
    method BlockRound(waiter: Id, ghost victims: seq<Id>, ghost s0: Rq) returns (v: Option<Id>, next: Option<Id>)
      requires Inv(s0, lim) && AtTurn(s0, State(), lim, victims, Some(waiter))
      modifies this`ctx
      ensures AfterRound(s0, State(), lim, victims, v, next)
    {
      v := BlockFor(waiter, victims, s0);
      next := None;
      if v != None {
        ghost var served := victims + [v.value];
        assert |served| == |victims| + 1;
        next := NextWaiter(waiter, served, s0);
      }
    }

    /**
     The victim pass: one connected context is asked to give way for each waiter in turn, until a waiter
     finds none, and then no later waiter could have found one.
     */
    method VictimPass() returns (victims: seq<Id>)
      requires Valid()
      modifies this`ctx
      ensures BlockDone(old(State()), State(), lim, victims)
    {
      ghost var s0 := State();
      NobodyBlockedYet(s0, lim);
      var next := SelectNext(None, 0);
      victims := [];
      while next != None
        invariant AtTurn(s0, State(), lim, victims, next)
        decreases |Order(s0)| - |victims|
      {
        var v: Option<Id>;
        v, next := BlockRound(next.value, victims, s0);
        if v == None {
          return;
        }
        victims := victims + [v.value];
      }
      EveryWaiterServed(s0, State(), lim, victims);
    }

    /**
     The scheduling work: the connect pass up to the state `mid`, and the victim pass only if the hardware
     is full then.
     */
    method SchedWork(connects: Id -> bool) returns (victims: seq<Id>, ghost mid: Rq)
      requires Valid()
      modifies this
      ensures Valid()
      ensures exists k: nat :: ConnectDone(old(State()), mid, lim, connects, k)
      ensures mid.hwctxCnt < lim.hwctx ==> State() == mid && victims == []
      ensures mid.hwctxCnt == lim.hwctx ==> BlockDone(mid, State(), lim, victims)
    {
      ghost var k := ConnectPass(connects);
      mid, victims := State(), [];
      if hwctxCnt == lim.hwctx {
        victims := VictimPass();
      }
    }

    /** The dispatch work: a disconnected context joins the end of its run queue. */
    method DispatchWork(c: Id)
      requires Valid() && c in ctx
      modifies this
      ensures Valid()
      ensures State() == if old(ctx[c]).status == Disconnected then Dispatch(old(State()), c) else old(State())
      ensures old(ctx[c]).status == Disconnected ==> EntersQueue(old(State()), State(), c)
      ensures Takes(old(State()), lim, Step.DispatchCtx(c), State())
    {
      ContextStepsAreTaken(State(), lim, c);
      if ctx[c].status == Disconnected {
        DispatchEffect(State(), lim, c);
        DispatchKeepsInv(State(), lim, c);
        DispatchCtx(c);
      }
    }

    /** The clean-up after an interrupted wait for a connection. */
    method CancelWait(c: Id)
      requires Valid() && c in ctx
      modifies this
      ensures Valid() && State() == CancelSubmit(old(State()), c)
      ensures match old(ctx[c]).status
              case Dispatched => LeavesQueue(old(State()), State(), c, Disconnected)
              case Connected => LeavesHardware(old(State()), State(), c, old(ctx[c]))
              case _ => State() == old(State())
      ensures Takes(old(State()), lim, Interrupted(c), State())
    {
      ContextStepsAreTaken(State(), lim, c);
      if ctx[c].status == Dispatched {
        CancelEffect(State(), lim, c);
        CancelKeepsInv(State(), lim, c);
        CancelCtx(c);
      } else if ctx[c].status == Connected {
        StopEffect(State(), lim, c);
        StopKeepsInv(State(), lim, c);
        StopCtx(c);
      }
    }

    /**
     The yield work: an idle context gives up its hardware context while others wait. Run on a context off the
     connected list while nobody waits, it breaks the queue.
     */
    method YieldWork(c: Id)
      requires Valid() && c in ctx
      modifies this
      ensures State() == RunQueueSpec.YieldWork(old(State()), c)
      ensures Valid() <==> old(ctx[c].submitted != ctx[c].completed || total != 0 || c in conn)
      ensures Yields(old(State()), State(), c)
      ensures old(ctx[c].submitted == ctx[c].completed && total > 0 && c in conn) ==>
                && c in disconn && c !in conn && hwctxCnt == old(hwctxCnt) - 1
                && ctx[c].status == Disconnected && !ctx[c].shouldBlock
      ensures Valid() ==> Takes(old(State()), lim, Step.YieldCtx(c), State())
    {
      InvIsShaped(State(), lim);
      YieldEffect(State(), lim, c);
      YieldKeepsInvIff(State(), lim, c);
      YieldCtx(c);
    }

    /**
     A command is completed, or its submission failed: a context asked to give way is on its way out, and its
     yield work is queued once it is idle. On a context off the connected list, this breaks the queue.
     */
    method Notice(c: Id) returns (queued: bool)
      requires Valid() && c in ctx
      modifies this`ctx
      ensures State() == YieldNotice(old(State()), c)
      ensures Valid() <==> !old(ctx[c]).shouldBlock || c in conn
      ensures queued <==> old(ctx[c].shouldBlock && ctx[c].submitted == ctx[c].completed)
      ensures ctx == if !old(ctx[c]).shouldBlock then old(ctx)
                     else old(ctx)[c := old(ctx[c]).(status := Disconnecting)]
      ensures Valid() ==> Takes(old(State()), lim, Step.Notice(c), State())
    {
      InvIsShaped(State(), lim);
      NoticeKeepsInvIff(State(), lim, c);
      if !ctx[c].shouldBlock {
        return false;
      }
      ctx := ctx[c := ctx[c].(status := Disconnecting)];
      return ctx[c].submitted == ctx[c].completed;
    }

    /** Adding a context. With a priority that has no run queue, it breaks the queue. */
    method AddCtx(c: Id, priority: nat) returns (ok: bool)
      requires Valid() && c !in ctx
      modifies this
      ensures ok <==> old(ctxCnt) < lim.ctx
      ensures State() == if ok then Add(old(State()), c, priority) else old(State())
      ensures Valid() <==> !ok || 1 <= priority <= PRIORITIES
      ensures ok ==>
                && prio == old(prio)[c := priority] && disconn == old(disconn) + [c]
                && ctx == old(ctx)[c := Ctx(Disconnected, false, 0, 0, 0, NEVER)]
                && conn == old(conn) && runq == old(runq) && total == old(total) && ctxCnt == old(ctxCnt) + 1
      ensures 1 <= priority <= PRIORITIES ==> Takes(old(State()), lim, Step.AddCtx(c, priority), State())
    {
      InvIsShaped(State(), lim);
      ok := lim.ctx != ctxCnt;
      if ok {
        AddKeepsInvIff(State(), lim, c, priority);
        NewCtx(c, priority);
      }
    }

    /** Deleting a context. On a context that waits on a run queue, it breaks the counters. */
    method DelCtx(c: Id)
      requires Valid() && c in ctx
      modifies this
      ensures State() == Del(old(State()), c)
      ensures Valid() <==> old(ctx[c].status != Dispatched)
      ensures Leaves(old(State()), State(), c)
      ensures Valid() ==> Takes(old(State()), lim, Step.DelCtx(c), State())
    {
      InvIsShaped(State(), lim);
      DelEffect(State(), lim, c);
      DelKeepsInvIff(State(), lim, c);
      RemoveCtx(c);
    }

    method Remember(now: map<Id, Ctx>, ghost met: map<Id, set<nat>>)
      modifies this`ctx, this`seen
      ensures State() == old(State()).(ctx := now, seen := met)
    {
      ctx, seen := now, met;
    }

    /**
     The detector reports that all contexts are stuck exactly when no connected context with outstanding jobs
     moved since it last looked, and remembers how far each one is now.
     */
    method IsAllStuck() returns (stuck: bool)
      requires Valid()
      modifies this`ctx, this`seen
      ensures Valid()
      ensures stuck <==> AllStuck(old(State()))
      ensures State() == Checked(old(State()))
      ensures stuck <==> SomeRunNoneMoves(conn, old(ctx))
      ensures Remembered(conn, old(ctx), ctx)
      ensures Takes(old(State()), lim, CheckStuck, State())
    {
      CheckIsTaken(State(), lim);
      ghost var s := State();
      ConnKnown(s);
      CheckedRemembers(s);
      var now, running, progress := LookAtAll(conn, ctx);
      AllLookedAt(s, now, running, progress);
      Remember(now, Checked(s).seen);
      CheckedKeepsInv(s, lim);
      return running != 0 && progress == 0;
    }

    method PauseFirst()
      requires Valid() && conn != []
      modifies this
      ensures Valid() && conn == old(conn)[1..] && disconn + conn == old(disconn + conn) && runq == old(runq)
      ensures old(conn)[0] in old(ctx)
      ensures ctx == old(ctx)[old(conn)[0] := old(ctx)[old(conn)[0]].(status := Disconnected)]
      ensures Takes(old(State()), lim, PauseOne(old(conn)[0]), State())
    {
      ConnFirst(State());
      ContextStepsAreTaken(State(), lim, conn[0]);
      StopKeepsInv(State(), lim, conn[0]);
      StopFirst(State(), lim);
      StopCtx(conn[0]);
    }

    /** Pausing stops every connected context: none is left connected, and they join the disconnected list in order. */
    method PauseAll()
      requires Valid()
      modifies this
      ensures Valid() && conn == [] && hwctxCnt == 0
      ensures disconn == old(disconn) + old(conn) && runq == old(runq)
      ensures Paused(old(conn), [], old(ctx), ctx)
    {
      while conn != []
        invariant Paused(old(conn), conn, old(ctx), ctx) && forall c <- conn :: c in old(conn)
        invariant Valid() && runq == old(runq) && disconn + conn == old(disconn) + old(conn)
        decreases |conn|
      {
        ConnKnown(State());
        PausedOneMore(old(conn), conn, old(ctx), ctx);
        PauseFirst();
      }
    }
  }
}
