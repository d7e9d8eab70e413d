/** Runs of the run queue: any sequence of steps its callers may take, and what the stuck detector can say. */
module RunQueueRuns {
  import opened ContextLists
  import opened RunQueueSpec
  import opened RunQueuePasses

  // The stuck detector

  /** A connected context with outstanding jobs. */
  predicate Running(s: Rq, c: Id) {
    c in s.conn && c in s.ctx && s.ctx[c].submitted != s.ctx[c].completed
  }

  /** After a check every running context's completed count is remembered. */
  function Checked(s: Rq): Rq {
    s.(ctx := map c <- s.ctx :: if Running(s, c) then s.ctx[c].(lastCompleted := s.ctx[c].completed) else s.ctx[c],
       seen := map c <- s.ctx ::
         (if c in s.seen then s.seen[c] else {}) + (if Running(s, c) then {s.ctx[c].completed} else {}))
  }

  /** The detector's verdict: some context runs, and none has made progress since the last check. */
  predicate AllStuck(s: Rq) {
    && (exists c <- s.conn :: Running(s, c))
    && (forall c <- s.conn | Running(s, c) :: s.ctx[c].lastCompleted == s.ctx[c].completed)
  }

  /** Two checks with no step between them: the second fires exactly if some connected context has jobs. */
  lemma SecondCheckFires(s: Rq)
    requires forall c <- s.conn :: c in s.ctx
    ensures AllStuck(Checked(s)) <==> exists c <- s.conn :: s.ctx[c].submitted != s.ctx[c].completed
  {
    var t := Checked(s);
    forall c <- s.conn
      ensures Running(t, c) <==> s.ctx[c].submitted != s.ctx[c].completed
      ensures Running(t, c) ==> t.ctx[c].lastCompleted == t.ctx[c].completed
    {
      assert c in t.ctx;
    }
  }

  lemma CheckedKeepsInv(s: Rq, lim: Limits)
    requires Inv(s, lim)
    ensures Inv(Checked(s), lim)
  {
    assert Checked(s).ctx.Keys == s.ctx.Keys;
    SameStatusKeepsLists(s, Checked(s));
    CheckedIsSeen(s);
  }

  lemma CheckedIsSeen(s: Rq)
    requires SeenOk(s)
    ensures SeenOk(Checked(s))
  {
  }

  lemma SameStatusKeepsLists(s: Rq, t: Rq)
    requires ListsOk(s) && t == s.(ctx := t.ctx, seen := t.seen)
    requires t.ctx.Keys == s.ctx.Keys && forall c <- s.ctx :: t.ctx[c].status == s.ctx[c].status
    ensures ListsOk(t)
  {
    forall p | 1 <= p <= PRIORITIES
      ensures ListIs(t.runq[p - 1], t.ctx, t.prio, OnQueue(p))
    {
      assert ListIs(s.runq[p - 1], s.ctx, s.prio, OnQueue(p));
    }
  }

  // Runs

  datatype Step =
    | AddCtx(c: Id, priority: nat)
    | DelCtx(c: Id)
    | DispatchCtx(c: Id)
    | StartNext(ok: bool)
    | BlockOne(v: Id)
    | YieldCtx(c: Id)
    | Notice(c: Id)
    | Interrupted(c: Id)
    | PauseOne(c: Id)
    | Jobs(c: Id, submitted: nat, completed: nat, pending: nat)
    | CheckStuck

  /**
   What the callers guarantee. Three of these rules the run queue leaves to them, at their exact strength: the
   yield work reaches an idle context off the connected list only while somebody waits, a notice reaches a
   context asked to give way only on the connected list, and a context is not deleted while it waits itself.
   */
  predicate Allowed(s: Rq, step: Step) {
    match step
    case AddCtx(c, priority) => c !in s.ctx && 1 <= priority <= PRIORITIES
    case DelCtx(c) => c in s.ctx && s.ctx[c].status != Dispatched
    case StartNext(_) => true
    case BlockOne(v) => v in s.conn
    case YieldCtx(c) =>
      c in s.ctx && (s.ctx[c].submitted != s.ctx[c].completed || s.total != 0 || c in s.conn)
    case Notice(c) => c in s.ctx && (!s.ctx[c].shouldBlock || c in s.conn)
    case CheckStuck => true
    case _ => step.c in s.ctx
  }

  // What the steps need to make sense; Inv implies it.
  predicate Shaped(s: Rq) {
    && KeysOk(s) && |s.runq| == |s.cnt| == PRIORITIES
    && (forall c <- s.conn :: c in s.ctx) && (forall c <- Order(s) :: c in s.ctx)
  }

  lemma InvIsShaped(s: Rq, lim: Limits)
    requires Inv(s, lim)
    ensures Shaped(s)
  {
    OrderOk(s);
  }

  /** One round of the connect pass. */
  function StartFirst(s: Rq, lim: Limits, ok: bool): (t: Rq)
    requires Shaped(s)
    ensures t.seen == s.seen
  {
    if Order(s) == [] || s.hwctxCnt == lim.hwctx then s else Start(s, Order(s)[0], ok)
  }

  ghost function Next(s: Rq, lim: Limits, step: Step): Rq
    requires Shaped(s) && Allowed(s, step)
  {
    match step
    case AddCtx(c, priority) => if s.ctxCnt == lim.ctx then s else Add(s, c, priority)
    case DelCtx(c) => Del(s, c)
    case DispatchCtx(c) => if s.ctx[c].status == Disconnected then Dispatch(s, c) else s
    case StartNext(ok) => StartFirst(s, lim, ok)
    case BlockOne(v) => Block(s, v)
    case YieldCtx(c) => YieldWork(s, c)
    case Notice(c) => YieldNotice(s, c)
    case Interrupted(c) => CancelSubmit(s, c)
    case PauseOne(c) => Stop(s, c)
    case Jobs(c, submitted, completed, pending) =>
      Update(s, c, s.ctx[c].(submitted := submitted, completed := completed, pendingJobs := pending))
    case CheckStuck => Checked(s)
  }

  /** From s to t the step is taken, one that its callers may take. */
  ghost predicate Takes(s: Rq, lim: Limits, step: Step, t: Rq) {
    Shaped(s) && Allowed(s, step) && t == Next(s, lim, step)
  }

  lemma ContextStepsAreTaken(s: Rq, lim: Limits, c: Id)
    requires Inv(s, lim) && c in s.ctx
    ensures Takes(s, lim, DispatchCtx(c), if s.ctx[c].status == Disconnected then Dispatch(s, c) else s)
    ensures Takes(s, lim, Interrupted(c), CancelSubmit(s, c))
    ensures Takes(s, lim, PauseOne(c), Stop(s, c))
  {
    InvIsShaped(s, lim);
  }

  lemma CheckIsTaken(s: Rq, lim: Limits)
    requires Inv(s, lim)
    ensures Takes(s, lim, CheckStuck, Checked(s))
  {
    InvIsShaped(s, lim);
  }

  lemma StartIsTaken(s: Rq, lim: Limits, ok: bool) returns (t: Rq)
    requires Inv(s, lim)
    ensures Shaped(s) && t == StartFirst(s, lim, ok) && Takes(s, lim, StartNext(ok), t)
  {
    InvIsShaped(s, lim);
    t := StartFirst(s, lim, ok);
  }

  predicate MovesContext(step: Step) {
    step.AddCtx? || step.DelCtx? || step.DispatchCtx? || step.StartNext? || step.Interrupted? || step.PauseOne?
  }

  lemma MoveKeepsInv(s: Rq, lim: Limits, step: Step) returns (t: Rq)
    requires Inv(s, lim) && Shaped(s) && Allowed(s, step) && MovesContext(step)
    ensures t == Next(s, lim, step) && Inv(t, lim)
  {
    t := s;
    match step {
      case AddCtx(c, priority) =>
        if s.ctxCnt != lim.ctx {
          AddKeepsInv(s, lim, c, priority);
          t := Add(s, c, priority);
        }
      case DelCtx(c) =>
        DelKeepsInvIff(s, lim, c);
        t := Del(s, c);
      case DispatchCtx(c) =>
        if s.ctx[c].status == Disconnected {
          DispatchKeepsInv(s, lim, c);
          t := Dispatch(s, c);
        }
      case StartNext(ok) =>
        if Order(s) != [] && s.hwctxCnt < lim.hwctx {
          StartPopsOrder(s, lim, ok);
          t := Start(s, Order(s)[0], ok);
        }
      case Interrupted(c) =>
        CancelSubmitKeepsInv(s, lim, c);
        t := CancelSubmit(s, c);
      case PauseOne(c) =>
        StopKeepsInv(s, lim, c);
        t := Stop(s, c);
    }
  }

  lemma CancelSubmitKeepsInv(s: Rq, lim: Limits, c: Id)
    requires Inv(s, lim) && c in s.ctx
    ensures Known(s, c) && Inv(CancelSubmit(s, c), lim)
  {
    if s.ctx[c].status.Dispatched? {
      CancelKeepsInv(s, lim, c);
    } else {
      StopKeepsInv(s, lim, c);
    }
  }

  lemma StepKeepsInv(s: Rq, lim: Limits, step: Step)
    requires Inv(s, lim) && Shaped(s) && Allowed(s, step)
    ensures Inv(Next(s, lim, step), lim)
  {
    if MovesContext(step) {
      var t := MoveKeepsInv(s, lim, step);
    } else {
      var t := StayingKeepsInv(s, lim, step);
    }
  }

  lemma StayingKeepsInv(s: Rq, lim: Limits, step: Step) returns (t: Rq)
    requires Inv(s, lim) && Shaped(s) && Allowed(s, step) && !MovesContext(step)
    ensures t == Next(s, lim, step) && Inv(t, lim)
  {
    match step {
      case BlockOne(v) =>
        BlockKeepsInv(s, lim, v);
        t := Block(s, v);
      case YieldCtx(c) =>
        YieldKeepsInvIff(s, lim, c);
        t := YieldWork(s, c);
      case Notice(c) =>
        NoticeKeepsInvIff(s, lim, c);
        t := YieldNotice(s, c);
      case Jobs(c, submitted, completed, pending) =>
        var x := s.ctx[c].(submitted := submitted, completed := completed, pendingJobs := pending);
        StayKeepsInv(s, lim, c, x);
        t := Update(s, c, x);
      case CheckStuck =>
        CheckedKeepsInv(s, lim);
        t := Checked(s);
    }
  }

  /** A run: each state follows from the one before by an allowed step, from the empty queue. */
  ghost predicate IsRun(states: seq<Rq>, lim: Limits, steps: seq<Step>) {
    && |states| == |steps| + 1 && states[0] == EMPTY
    && forall i | 0 <= i < |steps| :: Follows(states[i], states[i + 1], lim, steps[i])
  }

  ghost predicate Follows(s: Rq, t: Rq, lim: Limits, step: Step) {
    Shaped(s) ==> Allowed(s, step) && t == Next(s, lim, step)
  }

  const EMPTY := Rq(map[], map[], [[], [], [], []], [0, 0, 0, 0], 0, [], [], 0, 0, map[], 0, map[])

  /**
   In every state of every run: each context is on exactly one list, the one its status names; every
   counter is the length it stands for and within its limit; and the connected list is in order.
   */
  lemma {:induction false} EveryStateKeepsInv(states: seq<Rq>, lim: Limits, steps: seq<Step>, i: nat)
    requires IsRun(states, lim, steps) && i < |states|
    ensures Inv(states[i], lim)
  {
    if i == 0 {
      EmptyInv(lim);
    } else {
      EveryStateKeepsInv(states, lim, steps, i - 1);
      InvIsShaped(states[i - 1], lim);
      assert Follows(states[i - 1], states[i], lim, steps[i - 1]);
      StepKeepsInv(states[i - 1], lim, steps[i - 1]);
    }
  }

  lemma EmptyInv(lim: Limits)
    ensures Inv(EMPTY, lim)
  {
    FlattenEmpty(EMPTY.runq);
  }

  // What the detector has seen

  /** The count a running context had when the detector looked at state j of a run. */
  ghost predicate SeenAt(states: seq<Rq>, steps: seq<Step>, j: nat, c: Id, completed: nat) {
    && j < |steps| < |states| && steps[j].CheckStuck?
    && Running(states[j], c) && states[j].ctx[c].completed == completed
  }

  /** No context is added under this id from step j + 1 up to step i: it is the same context all along. */
  predicate SameContext(steps: seq<Step>, j: nat, i: nat, c: Id)
    requires i <= |steps|
  {
    forall h | j < h < i :: !(steps[h].AddCtx? && steps[h].c == c)
  }

  /** Every count the history holds for a context was met by an earlier check that saw this same context running. */
  lemma {:induction false} SeenWasMet(states: seq<Rq>, lim: Limits, steps: seq<Step>, i: nat, c: Id, n: nat)
    requires IsRun(states, lim, steps) && i < |states|
    requires c in states[i].ctx && c in states[i].seen && n in states[i].seen[c]
    ensures exists j: nat :: j < i && SeenAt(states, steps, j, c, n) && SameContext(steps, j, i, c)
  {
    if i > 0 {
      RememberedBefore(states, lim, steps, i, c, n);
      if SeenAt(states, steps, i - 1, c, n) {
        assert SameContext(steps, i - 1, i, c);
      } else {
        SeenWasMet(states, lim, steps, i - 1, c, n);
        var j: nat :| j < i - 1 && SeenAt(states, steps, j, c, n) && SameContext(steps, j, i - 1, c);
        assert SameContext(steps, j, i, c);
      }
    }
  }

  /** A count remembered in state i was met by the last step, or was remembered before it for the same context. */
  lemma RememberedBefore(states: seq<Rq>, lim: Limits, steps: seq<Step>, i: nat, c: Id, n: nat)
    requires IsRun(states, lim, steps) && 0 < i < |states|
    requires c in states[i].ctx && c in states[i].seen && n in states[i].seen[c]
    ensures var s := states[i - 1];
            || SeenAt(states, steps, i - 1, c, n)
            || (c in s.ctx && c in s.seen && n in s.seen[c] && !(steps[i - 1].AddCtx? && steps[i - 1].c == c))
  {
    var s, step := states[i - 1], steps[i - 1];
    EveryStateKeepsInv(states, lim, steps, i - 1);
    InvIsShaped(s, lim);
    assert Follows(s, states[i], lim, step);
    if c in s.seen && n in s.seen[c] {
      RememberedIsNotNew(s, lim, step, c);
    } else {
      OnlyChecksAreRemembered(s, lim, step, c, n);
    }
  }

  lemma RememberedIsNotNew(s: Rq, lim: Limits, step: Step, c: Id)
    requires Shaped(s) && Allowed(s, step) && c in Next(s, lim, step).ctx && c in Next(s, lim, step).seen
    ensures c in s.ctx && !(step.AddCtx? && step.c == c)
  {
    if !step.AddCtx? {
      NoOtherStepAdds(s, lim, step);
    }
  }

  lemma NoOtherStepAdds(s: Rq, lim: Limits, step: Step)
    requires Shaped(s) && Allowed(s, step) && !step.AddCtx?
    ensures Next(s, lim, step).ctx.Keys <= s.ctx.Keys
  {
    if MovesContext(step) {
      NoOtherMoveAdds(s, lim, step);
    }
  }

  lemma NoOtherMoveAdds(s: Rq, lim: Limits, step: Step)
    requires Shaped(s) && Allowed(s, step) && MovesContext(step) && !step.AddCtx?
    ensures Next(s, lim, step).ctx.Keys <= s.ctx.Keys
  {
  }

  lemma MoveKeepsSeen(s: Rq, lim: Limits, step: Step)
    requires Shaped(s) && Allowed(s, step) && MovesContext(step)
    ensures Next(s, lim, step).seen == s.seen || (step.AddCtx? && Next(s, lim, step).seen == s.seen - {step.c})
  {
  }

  lemma OnlyChecksAreRemembered(s: Rq, lim: Limits, step: Step, c: Id, n: nat)
    requires Shaped(s) && Allowed(s, step) && !(c in s.seen && n in s.seen[c])
    requires c in Next(s, lim, step).seen && n in Next(s, lim, step).seen[c]
    ensures step.CheckStuck? && Running(s, c) && s.ctx[c].completed == n
  {
    if MovesContext(step) {
      MoveKeepsSeen(s, lim, step);
    }
  }

  /**
   The detector fires only if some connected context has outstanding jobs and each such context had the
   same completed count at an earlier check that saw this same context, not an earlier one of the same id,
   outstanding. So it never fires on first sight.
   */
  lemma StuckOnlyAfterEarlierSight(states: seq<Rq>, lim: Limits, steps: seq<Step>, i: nat)
    requires IsRun(states, lim, steps) && i < |states| && AllStuck(states[i])
    ensures exists c <- states[i].conn :: Running(states[i], c)
    ensures forall c | Running(states[i], c) ::
              exists j: nat :: j < i && SeenAt(states, steps, j, c, states[i].ctx[c].completed)
                               && SameContext(steps, j, i, c)
  {
    var s := states[i];
    EveryStateKeepsInv(states, lim, steps, i);
    forall c | Running(s, c)
      ensures exists j: nat :: j < i && SeenAt(states, steps, j, c, s.ctx[c].completed) && SameContext(steps, j, i, c)
    {
      SeenWasMet(states, lim, steps, i, c, s.ctx[c].completed);
    }
  }
}
