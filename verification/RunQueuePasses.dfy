/** The two passes of the scheduling work, and what they choose. */
module RunQueuePasses {
  import opened Prelude
  import opened ContextLists
  import opened RunQueueSpec

  // The order in which waiting contexts are served

  /** From queue p on: every waiting context of priority above p once, by priority and then by arrival. */
  lemma {:induction false} OrderFrom(s: Rq, p: nat)
    requires KeysOk(s) && ListsOk(s) && p <= PRIORITIES
    ensures var l := Flatten(s.runq[p..]);
            && NoDup(l)
            && (forall c :: c in l <==> c in s.ctx && s.ctx[c].status == Dispatched && s.prio[c] > p)
            && (forall i, j | 0 <= i < j < |l| :: s.prio[l[i]] <= s.prio[l[j]])
    decreases PRIORITIES - p
  {
    if p < PRIORITIES {
      OrderFrom(s, p + 1);
      var q, rest := s.runq[p], Flatten(s.runq[p + 1..]);
      assert s.runq[p..][1..] == s.runq[p + 1..];
      assert Flatten(s.runq[p..]) == q + rest;
      assert ListIs(s.runq[p], s.ctx, s.prio, OnQueue(p + 1));
    }
  }

  lemma OrderOk(s: Rq)
    requires KeysOk(s) && ListsOk(s)
    ensures NoDup(Order(s))
    ensures forall c :: c in Order(s) <==> c in s.ctx && s.ctx[c].status == Dispatched
    ensures forall i, j | 0 <= i < j < |Order(s)| :: s.prio[Order(s)[i]] <= s.prio[Order(s)[j]]
  {
    OrderFrom(s, 0);
    assert s.runq[0..] == s.runq;
  }

  /** A context that starts to wait is served after all of its priority or better, and before all the others. */
  lemma DispatchedIsServedLast(s: Rq, lim: Limits, c: Id) returns (k: nat)
    requires Inv(s, lim) && c in s.ctx && s.ctx[c].status == Disconnected
    ensures k <= |Order(s)| && Order(Dispatch(s, c)) == Order(s)[..k] + [c] + Order(s)[k..]
    ensures forall w <- Order(s) :: w in s.prio
    ensures forall i | 0 <= i < |Order(s)| :: i < k <==> s.prio[Order(s)[i]] <= s.prio[c]
  {
    var p := s.prio[c] - 1;
    OrderOk(s);
    NotQueued(s, c);
    FlattenAt(s.runq, p);
    k := |Flatten(s.runq[..p]) + s.runq[p]|;
    JoinQueue(s.runq, p, c);
    QueuesBehind(s, p, k);
  }

  lemma NotQueued(s: Rq, c: Id)
    requires ListsOk(s) && c in s.ctx && s.ctx[c].status == Disconnected
    ensures OffQueues(s.runq, c) == s.runq
  {
    forall i | 0 <= i < PRIORITIES
      ensures Without(s.runq[i], c) == s.runq[i]
    {
      assert ListIs(s.runq[i], s.ctx, s.prio, OnQueue(i + 1));
      WithoutIsSame(s.runq[i], c);
    }
  }

  lemma JoinQueue(qs: seq<seq<Id>>, p: nat, c: Id)
    requires p < |qs|
    ensures var k := |Flatten(qs[..p]) + qs[p]|;
            k <= |Flatten(qs)| && Flatten(qs[p := qs[p] + [c]]) == Flatten(qs)[..k] + [c] + Flatten(qs)[k..]
  {
    var rs := qs[p := qs[p] + [c]];
    FlattenAt(qs, p);
    FlattenAt(rs, p);
    assert rs[..p] == qs[..p] && rs[p + 1..] == qs[p + 1..];
    JoinMiddle(Flatten(qs[..p]), qs[p], Flatten(qs[p + 1..]), c);
  }

  lemma JoinMiddle(pre: seq<Id>, q: seq<Id>, post: seq<Id>, c: Id)
    ensures var k := |pre + q|;
            && (pre + q + post)[..k] == pre + q && (pre + q + post)[k..] == post
            && pre + (q + [c]) + post == pre + q + [c] + post
  {
  }

  lemma QueuesBehind(s: Rq, p: nat, k: nat)
    requires KeysOk(s) && ListsOk(s) && p < PRIORITIES && k == |Flatten(s.runq[..p]) + s.runq[p]|
    ensures k <= |Order(s)| && forall w <- Order(s) :: w in s.prio
    ensures forall i | 0 <= i < |Order(s)| :: i < k <==> s.prio[Order(s)[i]] <= p + 1
  {
    var order, rest := Order(s), Flatten(s.runq[p + 1..]);
    OrderOk(s);
    OrderFrom(s, p + 1);
    FlattenAt(s.runq, p);
    assert order[k..] == rest;
    forall i | 0 <= i < |order|
      ensures order[i] in s.prio && (i < k <==> s.prio[order[i]] <= p + 1)
    {
      assert order[i] in order;
      if i >= k {
        assert order[i] == rest[i - k];
      }
    }
  }

  // The connect pass

  /** A context in the order of service is on the queue of its priority and on no other. */
  lemma WaitsOnItsQueue(s: Rq, c: Id)
    requires KeysOk(s) && ListsOk(s) && c in Order(s)
    ensures c in s.ctx && c in s.prio && s.ctx[c].status == Dispatched && 1 <= s.prio[c] <= PRIORITIES
    ensures forall i | 0 <= i < PRIORITIES :: NoDup(s.runq[i]) && (c in s.runq[i] <==> i == s.prio[c] - 1)
  {
    OrderOk(s);
    forall i | 0 <= i < PRIORITIES
      ensures NoDup(s.runq[i]) && (c in s.runq[i] <==> i == s.prio[c] - 1)
    {
      assert ListIs(s.runq[i], s.ctx, s.prio, OnQueue(i + 1));
    }
  }

  lemma OffOneQueue(runq: seq<seq<Id>>, p: nat, c: Id)
    requires p < |runq| && forall i | 0 <= i < |runq| && i != p :: c !in runq[i]
    ensures OffQueues(runq, c) == runq[p := Without(runq[p], c)]
  {
    forall i | 0 <= i < |runq| && i != p
      ensures Without(runq[i], c) == runq[i]
    {
      WithoutIsSame(runq[i], c);
    }
  }

  lemma FirstIsPopped(runq: seq<seq<Id>>, p: nat, c: Id)
    requires p < |runq| && forall i | 0 <= i < |runq| :: NoDup(runq[i]) && (c in runq[i] <==> i == p)
    requires Flatten(runq) != [] && Flatten(runq)[0] == c
    ensures Flatten(OffQueues(runq, c)) == Flatten(runq)[1..]
  {
    OffOneQueue(runq, p, c);
    FlattenPop(runq, p, c);
  }

  lemma StartTakesOffQueues(s: Rq, c: Id, ok: bool)
    requires Known(s, c) && |s.cnt| == PRIORITIES && forall x <- s.conn :: x in s.prio
    ensures Start(s, c, ok).runq == OffQueues(s.runq, c)
  {
  }

  lemma StartPopsOrder(s: Rq, lim: Limits, ok: bool)
    requires Inv(s, lim) && Order(s) != [] && s.hwctxCnt < lim.hwctx
    ensures var c := Order(s)[0];
            && c in s.ctx && s.ctx[c].status == Dispatched
            && Inv(Start(s, c, ok), lim) && Order(Start(s, c, ok)) == Order(s)[1..]
  {
    StartPops(s, ok);
    StartKeepsInv(s, lim, Order(s)[0], ok);
  }

  lemma StartPops(s: Rq, ok: bool)
    requires KeysOk(s) && ListsOk(s) && |s.cnt| == PRIORITIES && Order(s) != []
    ensures var c := Order(s)[0];
            && Known(s, c) && s.ctx[c].status == Dispatched && (forall x <- s.conn :: x in s.prio)
            && Order(Start(s, c, ok)) == Order(s)[1..]
  {
    var c := Order(s)[0];
    WaitsOnItsQueue(s, c);
    StartTakesOffQueues(s, c, ok);
    FirstIsPopped(s.runq, s.prio[c] - 1, c);
  }

  /** How many contexts of a waiting list are started when `room` hardware contexts are free. */
  function Started(order: seq<Id>, connects: Id -> bool, room: nat): (k: nat)
    ensures k <= |order|
  {
    if order == [] || room == 0 then 0
    else 1 + Started(order[1..], connects, if connects(order[0]) then room - 1 else room)
  }

  /** What became of the contexts: the first k waiting ones were started and the others left alone. */
  predicate PrefixStarted(s: Rq, t: Rq, connects: Id -> bool, order: seq<Id>) {
    && t.prio == s.prio && t.ctx.Keys == s.ctx.Keys
    && (forall c <- s.ctx :: t.ctx[c] ==
          if c in order then s.ctx[c].(status := if connects(c) then Connected else Dead) else s.ctx[c])
  }

  /** The connect pass after k starts: they were the first k waiting contexts, and the others still wait in order. */
  ghost predicate Connecting(s0: Rq, s: Rq, lim: Limits, connects: Id -> bool, k: nat) {
    && Inv(s, lim) && k <= |Order(s0)| && Order(s) == Order(s0)[k..]
    && PrefixStarted(s0, s, connects, Order(s0)[..k])
    && s0.hwctxCnt <= lim.hwctx
    && k + Started(Order(s), connects, lim.hwctx - s.hwctxCnt)
       == Started(Order(s0), connects, lim.hwctx - s0.hwctxCnt)
  }

  lemma StartExtendsPrefix(s0: Rq, s: Rq, lim: Limits, connects: Id -> bool, order: seq<Id>, c: Id)
    requires Inv(s, lim) && c in s.ctx && c !in order && PrefixStarted(s0, s, connects, order)
    ensures PrefixStarted(s0, Start(s, c, connects(c)), connects, order + [c])
  {
  }

  lemma StartedStep(s: Rq, t: Rq, lim: Limits, connects: Id -> bool)
    requires Order(s) != [] && Order(t) == Order(s)[1..] && s.hwctxCnt < lim.hwctx
    requires t.hwctxCnt == s.hwctxCnt + if connects(Order(s)[0]) then 1 else 0
    ensures Started(Order(s), connects, lim.hwctx - s.hwctxCnt)
         == 1 + Started(Order(t), connects, lim.hwctx - t.hwctxCnt)
  {
  }

  lemma ConnectStep(s0: Rq, s: Rq, lim: Limits, connects: Id -> bool, k: nat) returns (c: Id, t: Rq)
    requires Connecting(s0, s, lim, connects, k) && NoDup(Order(s0)) && k < |Order(s0)| && s.hwctxCnt < lim.hwctx
    ensures c == Order(s)[0] && c in s.ctx && s.ctx[c].status == Dispatched && t == Start(s, c, connects(c))
    ensures Connecting(s0, t, lim, connects, k + 1)
  {
    var order := Order(s0);
    c := order[k];
    StartPopsOrder(s, lim, connects(c));
    t := Start(s, c, connects(c));
    OneMore(order, k);
    StartedStep(s, t, lim, connects);
    StartExtendsPrefix(s0, s, lim, connects, order[..k], c);
  }

  // The victim pass

  /** The last connected context, from the end of the list, that may be asked to give way to a waiter. */
  function Victim(conn: seq<Id>, ctx: map<Id, Ctx>, prio: map<Id, nat>, priority: nat): Option<Id>
    requires forall c <- conn :: c in ctx && c in prio
  {
    if conn == [] then None
    else
      var c := conn[|conn| - 1];
      if prio[c] < priority || ctx[c].shouldBlock then Victim(conn[..|conn| - 1], ctx, prio, priority)
      else Some(c)
  }

  predicate Unblocked(ctx: map<Id, Ctx>, c: Id) {
    c in ctx && !ctx[c].shouldBlock
  }

  /**
   The victim is never of strictly higher priority than the waiter, and every other connected context not
   yet asked has higher priority or connected later. There is none exactly when all those not yet asked
   have strictly higher priority than the waiter.
   */
  lemma {:induction false} VictimIsLowestAndOldest(conn: seq<Id>, ctx: map<Id, Ctx>, prio: map<Id, nat>,
                                                   stamp: map<Id, nat>, priority: nat)
    requires Sorted(conn, prio, stamp) && forall c <- conn :: c in ctx
    ensures match Victim(conn, ctx, prio, priority)
            case None => forall c <- conn | Unblocked(ctx, c) :: prio[c] < priority
            case Some(v) =>
              && v in conn && Unblocked(ctx, v) && prio[v] >= priority
              && (forall c <- conn | Unblocked(ctx, c) && c != v :: Before(c, v, prio, stamp))
  {
    if conn != [] {
      var last, rest := conn[|conn| - 1], conn[..|conn| - 1];
      assert forall c <- rest :: Before(c, last, prio, stamp);
      VictimIsLowestAndOldest(rest, ctx, prio, stamp, priority);
    }
  }

  function Blocked(x: Ctx): Ctx {
    if x.pendingJobs == 0 && x.submitted == x.completed then x.(shouldBlock := true, status := Disconnecting)
    else x.(shouldBlock := true)
  }

  function Block(s: Rq, v: Id): Rq
    requires v in s.ctx
  {
    Update(s, v, Blocked(s.ctx[v]))
  }

  /** No connected context in s can be asked to give way to a waiter of this priority. */
  predicate NoVictim(s: Rq, priority: nat) {
    forall c <- s.conn | Unblocked(s.ctx, c) :: c in s.prio && s.prio[c] < priority
  }

  /** The i-th victim of a pass gave way to the i-th waiter and is not of strictly higher priority. */
  predicate VictimsFit(s0: Rq, vs: seq<Id>, waiters: seq<Id>) {
    && |vs| <= |waiters|
    && (forall v <- vs :: v in s0.conn && v in s0.prio && Unblocked(s0.ctx, v))
    && (forall w <- waiters :: w in s0.prio)
    && (forall i | 0 <= i < |vs| :: s0.prio[vs[i]] >= s0.prio[waiters[i]])
  }

  /** Each victim was the lowest and oldest choice: later victims and the contexts spared come before it. */
  predicate LowestFirst(s0: Rq, vs: seq<Id>) {
    && (forall v <- vs :: v in s0.prio && v in s0.stamp)
    && (forall i, j | 0 <= i < j < |vs| :: Before(vs[j], vs[i], s0.prio, s0.stamp))
    && (forall c <- s0.conn, v <- vs | Unblocked(s0.ctx, c) && c !in vs ::
          c in s0.prio && c in s0.stamp && Before(c, v, s0.prio, s0.stamp))
  }

  predicate VictimsOk(s0: Rq, vs: seq<Id>, waiters: seq<Id>) {
    VictimsFit(s0, vs, waiters) && LowestFirst(s0, vs)
  }

  predicate Idle(x: Ctx) {
    x.pendingJobs == 0 && x.submitted == x.completed
  }

  /** Only the victims changed. Each was asked to give way, and is on its way out exactly if it has nothing to do. */
  predicate OnlyBlocked(s0: Rq, s: Rq, vs: seq<Id>) {
    && s == s0.(ctx := s.ctx) && s.ctx.Keys == s0.ctx.Keys
    && (forall c <- s0.ctx | c !in vs :: s.ctx[c] == s0.ctx[c])
    && (forall c <- s0.ctx | c in vs :: s.ctx[c] ==
          s0.ctx[c].(shouldBlock := true, status := if Idle(s0.ctx[c]) then Disconnecting else s0.ctx[c].status))
  }

  lemma BlockKeepsInv(s: Rq, lim: Limits, v: Id)
    requires Inv(s, lim) && v in s.conn
    ensures Inv(Block(s, v), lim)
  {
    StayKeepsInv(s, lim, v, Blocked(s.ctx[v]));
  }

  lemma LowestFirstExtends(s0: Rq, s: Rq, vs: seq<Id>, v: Id)
    requires ConnOk(s0) && LowestFirst(s0, vs) && OnlyBlocked(s0, s, vs) && v in s.conn && Unblocked(s.ctx, v)
    requires forall c <- s.conn | Unblocked(s.ctx, c) && c != v :: Before(c, v, s.prio, s.stamp)
    ensures LowestFirst(s0, vs + [v])
  {
    assert v !in vs && Unblocked(s0.ctx, v);
    assert forall c <- s0.conn | Unblocked(s0.ctx, c) && c !in vs :: Unblocked(s.ctx, c);
    assert forall u <- vs :: Before(v, u, s0.prio, s0.stamp);
  }

  lemma FitExtends(s0: Rq, s: Rq, vs: seq<Id>, waiters: seq<Id>, v: Id)
    requires VictimsFit(s0, vs, waiters) && OnlyBlocked(s0, s, vs) && |vs| < |waiters|
    requires v in s.conn && v in s.prio && Unblocked(s.ctx, v) && s.prio[v] >= s.prio[waiters[|vs|]]
    ensures VictimsFit(s0, vs + [v], waiters) && OnlyBlocked(s0, Block(s, v), vs + [v])
  {
  }

  lemma BlockStep(s0: Rq, s: Rq, lim: Limits, vs: seq<Id>, waiters: seq<Id>) returns (v: Id, t: Rq)
    requires ConnOk(s0) && Inv(s, lim) && VictimsOk(s0, vs, waiters) && OnlyBlocked(s0, s, vs) && |vs| < |waiters|
    requires Victim(s.conn, s.ctx, s.prio, s.prio[waiters[|vs|]]).Some?
    ensures v == Victim(s.conn, s.ctx, s.prio, s.prio[waiters[|vs|]]).value && v in s.ctx && t == Block(s, v)
    ensures Inv(t, lim) && VictimsOk(s0, vs + [v], waiters) && OnlyBlocked(s0, t, vs + [v])
  {
    v := Victim(s.conn, s.ctx, s.prio, s.prio[waiters[|vs|]]).value;
    VictimIsLowestAndOldest(s.conn, s.ctx, s.prio, s.stamp, s.prio[waiters[|vs|]]);
    LowestFirstExtends(s0, s, vs, v);
    FitExtends(s0, s, vs, waiters, v);
    BlockKeepsInv(s, lim, v);
    t := Block(s, v);
  }

  /** Stopping at the first waiter without a victim loses nothing: no later waiter could have one. */
  lemma NoVictimForLater(s: Rq, waiters: seq<Id>, m: nat)
    requires ConnOk(s) && (forall c <- s.conn :: c in s.ctx) && m < |waiters|
    requires forall w <- waiters :: w in s.prio
    requires forall a, b | 0 <= a < b < |waiters| :: s.prio[waiters[a]] <= s.prio[waiters[b]]
    requires Victim(s.conn, s.ctx, s.prio, s.prio[waiters[m]]).None?
    ensures forall i | m <= i < |waiters| :: NoVictim(s, s.prio[waiters[i]])
  {
    var p := s.prio[waiters[m]];
    VictimIsLowestAndOldest(s.conn, s.ctx, s.prio, s.stamp, p);
    assert NoVictim(s, p);
  }
}
