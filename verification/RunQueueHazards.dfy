/** Runs of the run queue after which one more step breaks it: why the rules for its callers are needed. */
module RunQueueHazards {
  import opened Prelude
  import opened ContextLists
  import opened RunQueueSpec
  import opened RunQueuePasses
  import opened RunQueueRuns

  /** What the runs below need to know of a state. */
  datatype View = View(ctx: map<Id, Ctx>, prio: map<Id, nat>, total: int, hwctxCnt: int)

  ghost predicate Shows(s: Rq, lim: Limits, v: View) {
    Inv(s, lim) && v == View(s.ctx, s.prio, s.total, s.hwctxCnt)
  }

  /** A run of these steps ends in s. */
  ghost predicate Reached(lim: Limits, steps: seq<Step>, s: Rq) {
    exists states :: IsRun(states, lim, steps) && states[|steps|] == s
  }

  ghost predicate At(lim: Limits, steps: seq<Step>, s: Rq, v: View) {
    Reached(lim, steps, s) && Shows(s, lim, v)
  }

  lemma RunGrows(lim: Limits, steps: seq<Step>, s: Rq, step: Step, t: Rq)
    requires Reached(lim, steps, s) && Follows(s, t, lim, step)
    ensures Reached(lim, steps + [step], t)
  {
    var states :| IsRun(states, lim, steps) && states[|steps|] == s;
    assert IsRun(states + [t], lim, steps + [step]);
  }

  lemma NothingDone(lim: Limits)
    ensures At(lim, [], EMPTY, View(map[], map[], 0, 0))
  {
    EmptyInv(lim);
    assert IsRun([EMPTY], lim, []);
  }

  lemma AddOne(s: Rq, lim: Limits, v: View, c: Id, priority: nat) returns (t: Rq)
    requires Shows(s, lim, v) && c !in v.ctx && |v.ctx| < lim.ctx && 1 <= priority <= PRIORITIES
    ensures Follows(s, t, lim, AddCtx(c, priority))
    ensures Shows(t, lim, v.(ctx := v.ctx[c := NEW_CTX], prio := v.prio[c := priority]))
  {
    t := Add(s, c, priority);
    AddKeepsInv(s, lim, c, priority);
  }

  lemma DispatchView(s: Rq, c: Id)
    requires Known(s, c) && |s.cnt| == |s.runq| == PRIORITIES
    ensures var t := Dispatch(s, c);
            && t.ctx == s.ctx[c := s.ctx[c].(status := Dispatched)] && t.prio == s.prio
            && t.total == s.total + 1 && t.hwctxCnt == s.hwctxCnt
  {
  }

  lemma DispatchOne(s: Rq, lim: Limits, v: View, c: Id) returns (t: Rq)
    requires Shows(s, lim, v) && c in v.ctx && v.ctx[c].status == Disconnected
    ensures Follows(s, t, lim, DispatchCtx(c))
    ensures Shows(t, lim, v.(ctx := v.ctx[c := v.ctx[c].(status := Dispatched)], total := v.total + 1))
  {
    t := Dispatch(s, c);
    DispatchKeepsInv(s, lim, c);
    DispatchView(s, c);
  }

  lemma OnlyWaiter(s: Rq, lim: Limits, c: Id)
    requires Inv(s, lim) && c in s.ctx && s.ctx[c].status == Dispatched && s.total == 1
    ensures Order(s) == [c]
  {
    OrderOk(s);
    assert c in Order(s) && |Order(s)| == 1;
  }

  lemma StartView(s: Rq, c: Id)
    requires Known(s, c) && |s.cnt| == PRIORITIES && forall x <- s.conn :: x in s.prio
    ensures var t := Start(s, c, true);
            && t.ctx == s.ctx[c := s.ctx[c].(status := Connected)] && t.prio == s.prio
            && t.total == s.total - 1 && t.hwctxCnt == s.hwctxCnt + 1
  {
  }

  lemma StartOne(s: Rq, lim: Limits, v: View, c: Id) returns (t: Rq)
    requires Shows(s, lim, v) && c in v.ctx && v.ctx[c].status == Dispatched
    requires v.total == 1 && v.hwctxCnt < lim.hwctx
    ensures Follows(s, t, lim, StartNext(true))
    ensures Shows(t, lim, v.(ctx := v.ctx[c := v.ctx[c].(status := Connected)], total := 0,
                             hwctxCnt := v.hwctxCnt + 1))
  {
    OnlyWaiter(s, lim, c);
    StartKeepsInv(s, lim, c, true);
    StartView(s, c);
    t := Start(s, c, true);
  }

  lemma CountJobs(s: Rq, lim: Limits, v: View, c: Id, submitted: nat, completed: nat, pending: nat) returns (t: Rq)
    requires Shows(s, lim, v) && c in v.ctx
    ensures Follows(s, t, lim, Jobs(c, submitted, completed, pending))
    ensures var x := v.ctx[c].(submitted := submitted, completed := completed, pendingJobs := pending);
            Shows(t, lim, v.(ctx := v.ctx[c := x]))
  {
    var x := s.ctx[c].(submitted := submitted, completed := completed, pendingJobs := pending);
    t := Update(s, c, x);
    StayKeepsInv(s, lim, c, x);
  }

  lemma BlockVictim(s: Rq, lim: Limits, v: View, c: Id) returns (t: Rq)
    requires Shows(s, lim, v) && c in v.ctx && v.ctx[c].status == Connected
    ensures Follows(s, t, lim, BlockOne(c)) && Shows(t, lim, v.(ctx := v.ctx[c := Blocked(v.ctx[c])]))
  {
    assert c in s.conn;
    BlockKeepsInv(s, lim, c);
    t := Block(s, c);
  }

  lemma StopView(s: Rq, c: Id)
    requires c in s.ctx && ShouldStop(s.ctx[c].status)
    ensures var t := Stop(s, c);
            && t.ctx == s.ctx[c := s.ctx[c].(status := Disconnected)] && t.prio == s.prio
            && t.total == s.total && t.hwctxCnt == s.hwctxCnt - 1
  {
  }

  lemma Pause(s: Rq, lim: Limits, v: View, c: Id) returns (t: Rq)
    requires Shows(s, lim, v) && c in v.ctx && ShouldStop(v.ctx[c].status)
    ensures Follows(s, t, lim, PauseOne(c))
    ensures Shows(t, lim, v.(ctx := v.ctx[c := v.ctx[c].(status := Disconnected)], hwctxCnt := v.hwctxCnt - 1))
  {
    StopKeepsInv(s, lim, c);
    StopView(s, c);
    t := Stop(s, c);
  }

  /** Whether one of the steps above applies to context c as seen in v. */
  predicate Applies(v: View, lim: Limits, step: Step, c: Id) {
    match step
    case AddCtx(d, priority) => c == d && c !in v.ctx && |v.ctx| < lim.ctx && 1 <= priority <= PRIORITIES
    case DispatchCtx(d) => c == d && c in v.ctx && v.ctx[c].status == Disconnected
    case StartNext(ok) =>
      ok && c in v.ctx && v.ctx[c].status == Dispatched && v.total == 1 && v.hwctxCnt < lim.hwctx
    case Jobs(d, _, _, _) => c == d && c in v.ctx
    case BlockOne(d) => c == d && c in v.ctx && v.ctx[c].status == Connected
    case PauseOne(d) => c == d && c in v.ctx && ShouldStop(v.ctx[c].status)
    case _ => false
  }

  function After(v: View, lim: Limits, step: Step, c: Id): View
    requires Applies(v, lim, step, c)
  {
    match step
    case AddCtx(_, priority) => v.(ctx := v.ctx[c := NEW_CTX], prio := v.prio[c := priority])
    case DispatchCtx(_) => v.(ctx := v.ctx[c := v.ctx[c].(status := Dispatched)], total := v.total + 1)
    case StartNext(_) =>
      v.(ctx := v.ctx[c := v.ctx[c].(status := Connected)], total := 0, hwctxCnt := v.hwctxCnt + 1)
    case Jobs(_, submitted, completed, pending) =>
      v.(ctx := v.ctx[c := v.ctx[c].(submitted := submitted, completed := completed, pendingJobs := pending)])
    case BlockOne(_) => v.(ctx := v.ctx[c := Blocked(v.ctx[c])])
    case PauseOne(_) =>
      v.(ctx := v.ctx[c := v.ctx[c].(status := Disconnected)], hwctxCnt := v.hwctxCnt - 1)
    case _ => v
  }

  lemma StepShown(s: Rq, lim: Limits, v: View, step: Step, c: Id) returns (t: Rq)
    requires Shows(s, lim, v) && Applies(v, lim, step, c)
    ensures Follows(s, t, lim, step) && Shows(t, lim, After(v, lim, step, c))
  {
    if step.AddCtx? || step.DispatchCtx? || step.StartNext? {
      t := EntryShown(s, lim, v, step, c);
    } else {
      match step {
        case Jobs(_, submitted, completed, pending) => t := CountJobs(s, lim, v, c, submitted, completed, pending);
        case BlockOne(_) => t := BlockVictim(s, lim, v, c);
        case PauseOne(_) => t := Pause(s, lim, v, c);
      }
    }
  }

  lemma EntryShown(s: Rq, lim: Limits, v: View, step: Step, c: Id) returns (t: Rq)
    requires Shows(s, lim, v) && Applies(v, lim, step, c) && (step.AddCtx? || step.DispatchCtx? || step.StartNext?)
    ensures Follows(s, t, lim, step) && Shows(t, lim, After(v, lim, step, c))
  {
    match step {
      case AddCtx(_, priority) => t := AddOne(s, lim, v, c, priority);
      case DispatchCtx(_) => t := DispatchOne(s, lim, v, c);
      case StartNext(_) => t := StartOne(s, lim, v, c);
    }
  }

  lemma Play(lim: Limits, steps: seq<Step>, s: Rq, v: View, step: Step, c: Id, w: View) returns (t: Rq)
    requires At(lim, steps, s, v) && Applies(v, lim, step, c) && w == After(v, lim, step, c)
    ensures At(lim, steps + [step], t, w)
  {
    t := StepShown(s, lim, v, step, c);
    RunGrows(lim, steps, s, step, t);
  }

  /** A view of context 1 alone, of priority 1. */
  function Alone(x: Ctx, total: int, hwctxCnt: int): View {
    View(map[1 := x], map[1 := 1], total, hwctxCnt)
  }

  lemma PlayAlone(lim: Limits, steps: seq<Step>, s: Rq, v: View, step: Step, w: View) returns (t: Rq)
    requires At(lim, steps, s, v) && Applies(v, lim, step, 1) && w.prio == v.prio && v.ctx.Keys == {1}
    requires w == Alone(After(v, lim, step, 1).ctx[1], After(v, lim, step, 1).total, After(v, lim, step, 1).hwctxCnt)
    ensures At(lim, steps + [step], t, w)
  {
    assert After(v, lim, step, 1) == w;
    t := Play(lim, steps, s, v, step, 1, w);
  }

  /** Context 1 from its addition to its wait for a connection, with a submission pending. */
  const UNTIL_WAITING: seq<Step> := [AddCtx(1, 1)] + [Jobs(1, 0, 0, 1)] + [DispatchCtx(1)]

  const PENDING := NEW_CTX.(pendingJobs := 1)

  lemma WaitingRun(lim: Limits) returns (s: Rq)
    requires lim.ctx > 0
    ensures At(lim, UNTIL_WAITING, s, Alone(PENDING.(status := Dispatched), 1, 0))
  {
    NothingDone(lim);
    s := Play(lim, [], EMPTY, View(map[], map[], 0, 0), AddCtx(1, 1), 1, Alone(NEW_CTX, 0, 0));
    assert [] + [AddCtx(1, 1)] == [AddCtx(1, 1)];
    s := PlayAlone(lim, [AddCtx(1, 1)], s, Alone(NEW_CTX, 0, 0), Jobs(1, 0, 0, 1), Alone(PENDING, 0, 0));
    s := PlayAlone(lim, [AddCtx(1, 1)] + [Jobs(1, 0, 0, 1)], s, Alone(PENDING, 0, 0), DispatchCtx(1),
                   Alone(PENDING.(status := Dispatched), 1, 0));
  }

  /** A context that waits cannot be deleted. */
  lemma WaitingMustNotBeDeleted(lim: Limits) returns (s: Rq)
    requires lim.ctx > 0
    ensures Reached(lim, UNTIL_WAITING, s) && Inv(s, lim)
    ensures 1 in s.ctx && !Inv(Del(s, 1), lim)
  {
    s := WaitingRun(lim);
    DelKeepsInvIff(s, lim, 1);
  }

  lemma ConnectedRun(lim: Limits) returns (s: Rq)
    requires lim.ctx > 0 && lim.hwctx > 0
    ensures At(lim, UNTIL_WAITING + [StartNext(true)], s, Alone(PENDING.(status := Connected), 0, 1))
  {
    s := WaitingRun(lim);
    s := PlayAlone(lim, UNTIL_WAITING, s, Alone(PENDING.(status := Dispatched), 1, 0), StartNext(true),
                   Alone(PENDING.(status := Connected), 0, 1));
  }

  /** It connects, runs one job, and is idle and connected. */
  const UNTIL_IDLE: seq<Step> := UNTIL_WAITING + [StartNext(true)] + [Jobs(1, 1, 0, 0)] + [Jobs(1, 1, 1, 0)]

  const IDLE := NEW_CTX.(submitted := 1, completed := 1)

  lemma IdleRun(lim: Limits) returns (s: Rq)
    requires lim.ctx > 0 && lim.hwctx > 0
    ensures At(lim, UNTIL_IDLE, s, Alone(IDLE.(status := Connected), 0, 1))
  {
    var x := PENDING.(status := Connected);
    var y := x.(submitted := 1, pendingJobs := 0);
    s := ConnectedRun(lim);
    s := PlayAlone(lim, UNTIL_WAITING + [StartNext(true)], s, Alone(x, 0, 1), Jobs(1, 1, 0, 0), Alone(y, 0, 1));
    s := PlayAlone(lim, UNTIL_WAITING + [StartNext(true)] + [Jobs(1, 1, 0, 0)], s, Alone(y, 0, 1), Jobs(1, 1, 1, 0),
                   Alone(IDLE.(status := Connected), 0, 1));
  }

  /**
   The idle handler queues the yield work for a connected context without jobs. If the context is paused
   before the work runs, the work breaks the queue.
   */
  lemma PausedMustNotYield(lim: Limits) returns (idle: Rq, paused: Rq)
    requires lim.ctx > 0 && lim.hwctx > 0
    ensures Reached(lim, UNTIL_IDLE, idle) && 1 in idle.conn && idle.ctx == map[1 := IDLE.(status := Connected)]
    ensures Reached(lim, UNTIL_IDLE + [PauseOne(1)], paused) && Inv(paused, lim)
    ensures 1 in paused.ctx && !Inv(YieldWork(paused, 1), lim)
  {
    idle := IdleRun(lim);
    paused := PlayAlone(lim, UNTIL_IDLE, idle, Alone(IDLE.(status := Connected), 0, 1), PauseOne(1), Alone(IDLE, 0, 0));
    YieldKeepsInvIff(paused, lim, 1);
  }

  /** Context 1 connects; before its submitter goes on, context 2 comes to wait for the only hardware context. */
  const UNTIL_FULL: seq<Step> :=
    UNTIL_WAITING + [StartNext(true)] + [AddCtx(2, 1)] + [Jobs(2, 0, 0, 1)] + [DispatchCtx(2)]

  /** A view of the contexts 1 and 2, both of priority 1. */
  function Both(x: Ctx, y: Ctx, total: int, hwctxCnt: int): View {
    View(map[1 := x, 2 := y], map[1 := 1, 2 := 1], total, hwctxCnt)
  }

  lemma PlaySecond(lim: Limits, steps: seq<Step>, s: Rq, x: Ctx, y: Ctx, total: int, hwctxCnt: int, step: Step,
                   y': Ctx, total': int) returns (t: Rq)
    requires At(lim, steps, s, Both(x, y, total, hwctxCnt)) && Applies(Both(x, y, total, hwctxCnt), lim, step, 2)
    requires step.Jobs? || step.DispatchCtx?
    requires var w := After(Both(x, y, total, hwctxCnt), lim, step, 2); w.ctx[2] == y' && w.total == total'
    ensures At(lim, steps + [step], t, Both(x, y', total', hwctxCnt))
  {
    var v := Both(x, y, total, hwctxCnt);
    assert After(v, lim, step, 2) == Both(x, y', total', hwctxCnt);
    t := Play(lim, steps, s, v, step, 2, Both(x, y', total', hwctxCnt));
  }

  lemma FirstAfter(lim: Limits, x: Ctx, y: Ctx, total: int, hwctxCnt: int, step: Step, x': Ctx, hwctxCnt': int)
    requires Applies(Both(x, y, total, hwctxCnt), lim, step, 1) && (step.Jobs? || step.BlockOne? || step.PauseOne?)
    requires var w := After(Both(x, y, total, hwctxCnt), lim, step, 1); w.ctx[1] == x' && w.hwctxCnt == hwctxCnt'
    ensures After(Both(x, y, total, hwctxCnt), lim, step, 1) == Both(x', y, total, hwctxCnt')
  {
    var v := Both(x, y, total, hwctxCnt);
    assert v.ctx[1 := x'] == map[1 := x', 2 := y];
  }

  lemma PlayFirst(lim: Limits, steps: seq<Step>, s: Rq, x: Ctx, y: Ctx, total: int, hwctxCnt: int, step: Step,
                  x': Ctx, hwctxCnt': int) returns (t: Rq)
    requires At(lim, steps, s, Both(x, y, total, hwctxCnt)) && Applies(Both(x, y, total, hwctxCnt), lim, step, 1)
    requires step.Jobs? || step.BlockOne? || step.PauseOne?
    requires var w := After(Both(x, y, total, hwctxCnt), lim, step, 1); w.ctx[1] == x' && w.hwctxCnt == hwctxCnt'
    ensures At(lim, steps + [step], t, Both(x', y, total, hwctxCnt'))
  {
    FirstAfter(lim, x, y, total, hwctxCnt, step, x', hwctxCnt');
    t := Play(lim, steps, s, Both(x, y, total, hwctxCnt), step, 1, Both(x', y, total, hwctxCnt'));
  }

  lemma FullRun(lim: Limits) returns (s: Rq)
    requires lim.ctx > 1 && lim.hwctx == 1
    ensures At(lim, UNTIL_FULL, s, Both(PENDING.(status := Connected), PENDING.(status := Dispatched), 1, 1))
  {
    var x := PENDING.(status := Connected);
    var steps := UNTIL_WAITING + [StartNext(true)];
    s := ConnectedRun(lim);
    assert After(Alone(x, 0, 1), lim, AddCtx(2, 1), 2) == Both(x, NEW_CTX, 0, 1);
    s := Play(lim, steps, s, Alone(x, 0, 1), AddCtx(2, 1), 2, Both(x, NEW_CTX, 0, 1));
    s := PlaySecond(lim, steps + [AddCtx(2, 1)], s, x, NEW_CTX, 0, 1, Jobs(2, 0, 0, 1), PENDING, 0);
    s := PlaySecond(lim, steps + [AddCtx(2, 1)] + [Jobs(2, 0, 0, 1)], s, x, PENDING, 0, 1, DispatchCtx(2),
                    PENDING.(status := Dispatched), 1);
  }

  /** Context 1 is the victim for context 2, and is then paused; its submitter, woken before, enters now. */
  const UNTIL_ENTERED: seq<Step> := UNTIL_FULL + [BlockOne(1)] + [PauseOne(1)] + [Jobs(1, 0, 0, 0)]

  lemma EnteredRun(lim: Limits, full: Rq) returns (s: Rq)
    requires lim.ctx > 1 && lim.hwctx == 1
    requires At(lim, UNTIL_FULL, full, Both(PENDING.(status := Connected), PENDING.(status := Dispatched), 1, 1))
    ensures At(lim, UNTIL_ENTERED, s, Both(NEW_CTX.(shouldBlock := true), PENDING.(status := Dispatched), 1, 0))
  {
    var x, y := PENDING.(status := Connected), PENDING.(status := Dispatched);
    var z := x.(shouldBlock := true);
    s := PlayFirst(lim, UNTIL_FULL, full, x, y, 1, 1, BlockOne(1), z, 1);
    s := PlayFirst(lim, UNTIL_FULL + [BlockOne(1)], s, z, y, 1, 1, PauseOne(1), z.(status := Disconnected), 0);
    s := PlayFirst(lim, UNTIL_FULL + [BlockOne(1)] + [PauseOne(1)], s, z.(status := Disconnected), y, 1, 0,
                   Jobs(1, 0, 0, 0), NEW_CTX.(shouldBlock := true), 0);
  }

  lemma FirstIsVictim(s: Rq, lim: Limits)
    requires lim.hwctx == 1
    requires Shows(s, lim, Both(PENDING.(status := Connected), PENDING.(status := Dispatched), 1, 1))
    ensures Order(s) == [2] && s.conn == [1] && Victim(s.conn, s.ctx, s.prio, s.prio[2]) == Some(1)
  {
    OnlyWaiter(s, lim, 2);
    assert 1 in s.conn && |s.conn| == 1;
  }

  /**
   The submitter of a context waits for the connection and does not look again once it holds the lock. If the
   context was chosen as a victim and paused in between, and the submission then fails, the notice it gives on
   its way out breaks the queue.
   */
  lemma FailedSubmissionMustNotGiveNotice(lim: Limits) returns (full: Rq, entered: Rq)
    requires lim.ctx > 1 && lim.hwctx == 1
    ensures Reached(lim, UNTIL_FULL, full) && full.hwctxCnt == lim.hwctx && Order(full) == [2]
    ensures full.conn == [1] && full.ctx.Keys == full.prio.Keys == {1, 2}
    ensures Victim(full.conn, full.ctx, full.prio, full.prio[2]) == Some(1)
    ensures Reached(lim, UNTIL_ENTERED, entered) && Inv(entered, lim)
    ensures 1 in entered.ctx && !Inv(YieldNotice(entered, 1), lim)
  {
    full := FullRun(lim);
    FirstIsVictim(full, lim);
    entered := EnteredRun(lim, full);
    NoticeKeepsInvIff(entered, lim, 1);
  }
}
