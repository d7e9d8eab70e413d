/**
 The jobs of one context, from submission to release. The submitting thread, the DRM scheduler and the
 mailbox callbacks take steps in any order. A step is a stretch of driver code between two points where
 another side could see the difference.

 The scheduler is an environment: it runs a queued job or kills it, and frees it once, after its fence
 signalled, its run failed or it was killed. Every message sent is answered in the end, by a response or
 by the release of its channel.
 */
module JobLifecycle {
  import opened Prelude

  const MAX_CMDS: nat := 4

  // The submitting thread: holding a permit, gone with an error, pushed but still holding its reference, gone.
  datatype Submit = Waiting | Aborted | Pushed | Left

  datatype Sched = Unqueued | Queued | Running | Ran | RunFailed | Killed | Freed

  // The message: not sent, about to be sent, answered by nobody yet, and the three stages of its callback.
  datatype Message = Unsent | Launching | InFlight | Signalled | Returned | Dropped

  datatype Job = Job(submit: Submit, sched: Sched, msg: Message, seqNo: nat, refcnt: int, done: bool)

  /** `returned` counts the permits given back by pushed jobs; no step is decided by it. */
  datatype State = State(jobs: map<nat, Job>, permits: int, submitted: nat, completed: nat, freeCnt: nat,
                         pending: seq<Option<nat>>, returned: nat)

  datatype Step =
    | Submit(j: nat) | Abort(j: nat) | Push(j: nat) | SubmitPut(j: nat)
    | RunBegin(j: nat) | SendOk(j: nat) | SendFails(j: nat) | RunReturns(j: nat) | RunRefused(j: nat)
    | Signal(j: nat) | Return(j: nat) | Drop(j: nat)
    | Kill(j: nat) | Free(j: nat)

  const INIT := State(map[], MAX_CMDS, 0, 0, 0, [None, None, None, None], 0)

  predicate Enabled(s: State, step: Step) {
    if step.Submit? then step.j !in s.jobs && s.permits > 0
    else step.j in s.jobs && JobEnabled(s.jobs[step.j], step)
  }

  predicate JobEnabled(job: Job, step: Step) {
    match step
    case Submit(_) => true
    case Abort(_) => job.submit.Waiting?
    case Push(_) => job.submit.Waiting?
    case SubmitPut(_) => job.submit.Pushed?
    case RunBegin(_) => job.sched.Queued?
    case RunRefused(_) => job.sched.Queued?
    case SendOk(_) => job.msg.Launching?
    case SendFails(_) => job.msg.Launching?
    case RunReturns(_) => job.sched.Running? && !job.msg.Launching?
    case Signal(_) => job.msg.InFlight?
    case Return(_) => job.msg.Signalled?
    case Drop(_) => job.msg.Returned?
    case Kill(_) => job.sched.Queued?
    case Free(_) => job.sched.RunFailed? || job.sched.Killed?
                    || (job.sched.Ran? && (job.msg.Signalled? || job.msg.Returned? || job.msg.Dropped?))
  }

  // The slot a sequence number selects in the pending and command-buffer arrays.
  function Slot(seqNo: nat): nat {
    seqNo % MAX_CMDS
  }

  // Dropping one reference; the last one releases the job.
  function Put(s: State, j: nat, job: Job): State {
    s.(jobs := s.jobs[j := job.(refcnt := job.refcnt - 1)],
       freeCnt := if job.refcnt == 1 then s.freeCnt + 1 else s.freeCnt)
  }

  function GiveBack(s: State, job: Job): State
    requires |s.pending| == MAX_CMDS
  {
    s.(permits := s.permits + 1, pending := s.pending[Slot(job.seqNo) := None], returned := s.returned + 1)
  }

  function Next(s: State, step: Step): State
    requires Enabled(s, step) && |s.pending| == MAX_CMDS
  {
    var j := step.j;
    if step.Submit? then
      s.(jobs := s.jobs[j := Job(Waiting, Unqueued, Unsent, 0, 1, false)], permits := s.permits - 1)
    else
      var job := s.jobs[j];
      match step
      case Submit(_) => s
      case Abort(_) => s.(jobs := s.jobs[j := job.(submit := Aborted, done := true)], permits := s.permits + 1)
      case Push(_) =>
        s.(jobs := s.jobs[j := job.(submit := Pushed, sched := Queued, seqNo := s.submitted, refcnt := job.refcnt + 1)],
           submitted := s.submitted + 1, pending := s.pending[Slot(s.submitted) := Some(j)])
      case SubmitPut(_) => Put(s, j, job.(submit := Left))
      case RunBegin(_) => s.(jobs := s.jobs[j := job.(sched := Running, msg := Launching, refcnt := job.refcnt + 1)])
      case RunRefused(_) => s.(jobs := s.jobs[j := job.(sched := RunFailed)])
      case SendOk(_) => s.(jobs := s.jobs[j := job.(msg := InFlight)])
      case SendFails(_) => Put(s, j, job.(msg := Unsent, sched := RunFailed))
      case RunReturns(_) => s.(jobs := s.jobs[j := job.(sched := Ran)])
      case Signal(_) =>
        s.(jobs := s.jobs[j := job.(msg := Signalled, done := true)], completed := s.completed + 1)
      case Return(_) => GiveBack(s, job).(jobs := s.jobs[j := job.(msg := Returned)])
      case Drop(_) => Put(s, j, job.(msg := Dropped))
      case Kill(_) => s.(jobs := s.jobs[j := job.(sched := Killed)])
      case Free(_) => Put(if job.done then s else GiveBack(s, job), j, job.(sched := Freed))
  }

  // What the counters mean

  predicate IsPushed(job: Job) {
    job.submit.Pushed? || job.submit.Left?
  }

  /** The job still has the semaphore permit its submission took. */
  predicate HoldsPermit(job: Job) {
    job.submit.Waiting? || IsLive(job)
  }

  /** A pushed job that has not given its permit back; it owns its slot. */
  predicate IsLive(job: Job) {
    IsPushed(job) && !job.msg.Returned? && !job.msg.Dropped? && !(job.sched.Freed? && job.msg.Unsent?)
  }

  function Holders(job: Job): nat {
    (if job.submit.Waiting? || job.submit.Pushed? then 1 else 0)
    + (if IsPushed(job) && !job.sched.Freed? then 1 else 0)
    + (if job.msg.Unsent? || job.msg.Dropped? then 0 else 1)
  }

  predicate IsReleased(job: Job) {
    IsPushed(job) && job.refcnt == 0
  }

  /** The firmware has answered, or the job was completed without it. */
  predicate IsCompleted(job: Job) {
    job.msg.Signalled? || job.msg.Returned? || job.msg.Dropped?
  }

  predicate JobInv(job: Job) {
    && (!job.submit.Aborted? ==> job.refcnt == Holders(job))
    && (job.sched.Unqueued? <==> !IsPushed(job))
    && (job.sched.Unqueued? || job.sched.Queued? || job.sched.Killed? || job.sched.RunFailed? ==> job.msg.Unsent?)
    && (job.sched.Running? ==> !job.msg.Unsent?)
    && (job.sched.Ran? ==> !job.msg.Unsent? && !job.msg.Launching?)
    && (job.sched.Freed? ==> !job.msg.Launching? && !job.msg.InFlight?)
    && (job.done <==> job.submit.Aborted? || job.msg.Signalled? || job.msg.Returned? || job.msg.Dropped?)
  }

  function Selected(jobs: map<nat, Job>, p: Job -> bool): set<nat> {
    set j <- jobs | p(jobs[j])
  }

  predicate Inv(s: State) {
    && |s.pending| == MAX_CMDS
    && (forall j <- s.jobs :: JobInv(s.jobs[j]))
    && s.permits + |Selected(s.jobs, HoldsPermit)| == MAX_CMDS
    && |Selected(s.jobs, IsLive)| + s.returned == s.submitted
    && |Selected(s.jobs, IsPushed)| == s.submitted
    && |Selected(s.jobs, IsReleased)| == s.freeCnt
    && |Selected(s.jobs, IsCompleted)| == s.completed
  }

  lemma UpdateSelected(jobs: map<nat, Job>, j: nat, job: Job, p: Job -> bool)
    ensures |Selected(jobs[j := job], p)| - |Selected(jobs, p)|
         == Count(p(job)) - Count(j in jobs && p(jobs[j]))
  {
    var before, after := Selected(jobs, p), Selected(jobs[j := job], p);
    assert after == if p(job) then before + {j} else before - {j};
  }

  function Count(b: bool): nat {
    if b then 1 else 0
  }

  const NO_JOB := Job(Aborted, Unqueued, Unsent, 0, 1, true)

  /** From s to t one job changes, and each counter by what that job gained or lost. */
  predicate ChangesOneJob(s: State, t: State, j: nat) {
    && j in t.jobs && t.jobs == s.jobs[j := t.jobs[j]] && |t.pending| == MAX_CMDS && JobInv(t.jobs[j])
    && var before, after := if j in s.jobs then s.jobs[j] else NO_JOB, t.jobs[j];
    && s.permits - t.permits == Count(HoldsPermit(after)) - Count(HoldsPermit(before))
    && t.submitted - s.submitted == Count(IsPushed(after)) - Count(IsPushed(before))
    && t.returned - s.returned == t.submitted - s.submitted + Count(IsLive(before)) - Count(IsLive(after))
    && t.freeCnt - s.freeCnt == Count(IsReleased(after)) - Count(IsReleased(before))
    && t.completed - s.completed == Count(IsCompleted(after)) - Count(IsCompleted(before))
  }

  predicate OneJobOk(s: State, step: Step) {
    |s.pending| == MAX_CMDS && (step.j in s.jobs ==> JobInv(s.jobs[step.j]))
  }

  predicate SubmitterStep(step: Step) {
    step.Submit? || step.Abort? || step.Push? || step.SubmitPut?
  }

  predicate MessageStep(step: Step) {
    step.SendOk? || step.SendFails? || step.Signal? || step.Return? || step.Drop?
  }

  lemma SubmitterChangesOneJob(s: State, step: Step)
    requires OneJobOk(s, step) && Enabled(s, step) && SubmitterStep(step)
    ensures ChangesOneJob(s, Next(s, step), step.j)
  {
  }

  lemma MessageChangesOneJob(s: State, step: Step)
    requires OneJobOk(s, step) && Enabled(s, step) && MessageStep(step)
    ensures ChangesOneJob(s, Next(s, step), step.j)
  {
  }

  lemma SchedulerChangesOneJob(s: State, step: Step)
    requires OneJobOk(s, step) && Enabled(s, step) && !SubmitterStep(step) && !MessageStep(step)
    ensures ChangesOneJob(s, Next(s, step), step.j)
  {
  }

  lemma OneJobKeepsInv(s: State, t: State, j: nat)
    requires Inv(s) && ChangesOneJob(s, t, j)
    ensures Inv(t)
  {
    var job := t.jobs[j];
    UpdateSelected(s.jobs, j, job, HoldsPermit);
    UpdateSelected(s.jobs, j, job, IsLive);
    UpdateSelected(s.jobs, j, job, IsPushed);
    UpdateSelected(s.jobs, j, job, IsReleased);
    UpdateSelected(s.jobs, j, job, IsCompleted);
  }

  lemma StepKeepsInv(s: State, step: Step)
    requires Inv(s) && Enabled(s, step)
    ensures Inv(Next(s, step))
  {
    if SubmitterStep(step) {
      SubmitterChangesOneJob(s, step);
    } else if MessageStep(step) {
      MessageChangesOneJob(s, step);
    } else {
      SchedulerChangesOneJob(s, step);
    }
    OneJobKeepsInv(s, Next(s, step), step.j);
  }

  // Runs

  function Do(s: State, step: Step): (t: State)
    requires |s.pending| == MAX_CMDS
    ensures |t.pending| == MAX_CMDS
  {
    if Enabled(s, step) then Next(s, step) else s
  }

  /** The state after a schedule; a step that is not enabled when its turn comes does nothing. */
  function Run(s: State, schedule: seq<Step>): (t: State)
    requires |s.pending| == MAX_CMDS
    ensures |t.pending| == MAX_CMDS
    decreases |schedule|
  {
    if schedule == [] then s else Run(Do(s, schedule[0]), schedule[1..])
  }

  lemma {:induction false} RunKeepsInv(s: State, schedule: seq<Step>)
    requires Inv(s)
    ensures Inv(Run(s, schedule))
    decreases |schedule|
  {
    if schedule != [] {
      if Enabled(s, schedule[0]) {
        StepKeepsInv(s, schedule[0]);
      }
      RunKeepsInv(Do(s, schedule[0]), schedule[1..]);
    }
  }

  /**
   In every interleaving: the free permits and the permits held by jobs make up the four; each job's
   reference count is its number of live holders; and the release counter counts each released job once, as
   the completion counter counts each answered one.
   */
  lemma PermitsAndReferencesAddUp(schedule: seq<Step>)
    ensures var s := Run(INIT, schedule);
            && s.permits >= 0 && s.permits + |Selected(s.jobs, HoldsPermit)| == MAX_CMDS
            && (forall j <- s.jobs :: !s.jobs[j].submit.Aborted? ==> s.jobs[j].refcnt == Holders(s.jobs[j]))
            && s.freeCnt == |Selected(s.jobs, IsReleased)| <= |Selected(s.jobs, IsPushed)| == s.submitted
            && s.completed == |Selected(s.jobs, IsCompleted)| <= s.submitted
  {
    RunKeepsInv(INIT, schedule);
    var s := Run(INIT, schedule);
    SelectedMonotone(s.jobs, IsCompleted, IsPushed);
    RunKeepsPermits(INIT, schedule);
    SelectedMonotone(s.jobs, IsReleased, IsPushed);
  }

  lemma {:induction false} RunKeepsPermits(s: State, schedule: seq<Step>)
    requires |s.pending| == MAX_CMDS && s.permits >= 0
    ensures Run(s, schedule).permits >= 0
    decreases |schedule|
  {
    if schedule != [] {
      RunKeepsPermits(Do(s, schedule[0]), schedule[1..]);
    }
  }

  lemma SelectedMonotone(jobs: map<nat, Job>, p: Job -> bool, q: Job -> bool)
    requires forall j <- jobs :: p(jobs[j]) ==> q(jobs[j])
    ensures |Selected(jobs, p)| <= |Selected(jobs, q)|
  {
    SubsetSize(Selected(jobs, p), Selected(jobs, q));
  }

  lemma {:induction false} SubsetSize(a: set<nat>, b: set<nat>)
    requires a <= b
    ensures |a| <= |b|
  {
    if a != {} {
      var x :| x in a;
      SubsetSize(a - {x}, b - {x});
    }
  }

  // Every job is released in the end

  /** A bound on the steps a job can still take. */
  function Remaining(job: Job): nat {
    (match job.submit case Waiting => 11 case Pushed => 1 case Left => 0 case Aborted => 0)
    + (match job.sched case Unqueued => 0 case Queued => 9 case Running => 2 case Ran => 1
       case RunFailed => 1 case Killed => 1 case Freed => 0)
    + (match job.msg case Unsent => 0 case Launching => 5 case InFlight => 3 case Signalled => 2
       case Returned => 1 case Dropped => 0)
  }

  /** Each step after the submission uses up some of its job's steps and leaves the other jobs alone. */
  lemma StepUsesUpItsJob(s: State, step: Step)
    requires OneJobOk(s, step) && Enabled(s, step) && !step.Submit?
    ensures Remaining(Next(s, step).jobs[step.j]) < Remaining(s.jobs[step.j])
    ensures forall j <- s.jobs | j != step.j :: j in Next(s, step).jobs && Next(s, step).jobs[j] == s.jobs[j]
  {
  }

  /** Once no job can take another step, every submitted job has been released and all four permits are back. */
  lemma QuiescentMeansAllReleased(schedule: seq<Step>)
    requires forall step: Step | !step.Submit? :: !Enabled(Run(INIT, schedule), step)
    ensures Run(INIT, schedule).freeCnt == Run(INIT, schedule).submitted
    ensures Run(INIT, schedule).permits == MAX_CMDS
  {
    var s := Run(INIT, schedule);
    RunKeepsInv(INIT, schedule);
    forall j <- s.jobs
      ensures !HoldsPermit(s.jobs[j]) && (IsPushed(s.jobs[j]) ==> IsReleased(s.jobs[j]))
    {
      StuckJobIsOver(s, j);
    }
    assert Selected(s.jobs, IsReleased) == Selected(s.jobs, IsPushed);
    assert Selected(s.jobs, HoldsPermit) == {};
  }

  lemma StuckJobIsOver(s: State, j: nat)
    requires j in s.jobs && JobInv(s.jobs[j])
    requires forall step: Step | !step.Submit? :: !Enabled(s, step)
    ensures !HoldsPermit(s.jobs[j]) && (IsPushed(s.jobs[j]) ==> IsReleased(s.jobs[j]))
  {
    assert !Enabled(s, Push(j)) && !Enabled(s, SubmitPut(j)) && !Enabled(s, RunBegin(j));
    assert !Enabled(s, SendOk(j)) && !Enabled(s, RunReturns(j)) && !Enabled(s, Signal(j));
    assert !Enabled(s, Return(j)) && !Enabled(s, Drop(j)) && !Enabled(s, Free(j));
  }

  // Slots

  /** Two live jobs never use the same slot, and each slot's entry is the live job that owns it. */
  predicate SlotsExact(s: State) {
    && |s.pending| == MAX_CMDS
    && (forall j <- s.jobs | IsLive(s.jobs[j]) ::
          s.jobs[j].seqNo < s.submitted && s.pending[Slot(s.jobs[j].seqNo)] == Some(j))
    && (forall i | 0 <= i < MAX_CMDS && s.pending[i].Some? ::
          var j := s.pending[i].value; j in s.jobs && IsLive(s.jobs[j]) && Slot(s.jobs[j].seqNo) == i)
  }

  /** From s to t no job starts or stops being live. */
  predicate SlotsUntouched(s: State, t: State, j: nat) {
    && t.pending == s.pending && t.submitted == s.submitted && t.returned == s.returned
    && j in t.jobs && t.jobs == s.jobs[j := t.jobs[j]]
    && (IsLive(t.jobs[j]) <==> j in s.jobs && IsLive(s.jobs[j]))
    && (j in s.jobs ==> t.jobs[j].seqNo == s.jobs[j].seqNo)
  }

  /** From s to t the live job j gives its permit and slot back. */
  predicate SlotFreed(s: State, t: State, j: nat) {
    && j in s.jobs && IsLive(s.jobs[j]) && |s.pending| == MAX_CMDS
    && t.pending == s.pending[Slot(s.jobs[j].seqNo) := None]
    && t.submitted == s.submitted && t.returned == s.returned + 1
    && j in t.jobs && t.jobs == s.jobs[j := t.jobs[j]] && !IsLive(t.jobs[j])
  }

  predicate GivesBack(s: State, step: Step) {
    step.Return? || (step.Free? && step.j in s.jobs && !s.jobs[step.j].done)
  }

  lemma SlotEffect(s: State, step: Step)
    requires Inv(s) && Enabled(s, step) && !step.Push?
    ensures if GivesBack(s, step) then SlotFreed(s, Next(s, step), step.j)
            else SlotsUntouched(s, Next(s, step), step.j)
  {
  }

  lemma FreedKeepsSlots(s: State, t: State, j: nat)
    requires SlotsExact(s) && SlotFreed(s, t, j)
    ensures SlotsExact(t)
  {
    assert forall k <- s.jobs | IsLive(s.jobs[k]) && k != j :: Slot(s.jobs[k].seqNo) != Slot(s.jobs[j].seqNo);
  }

  lemma UntouchedKeepsSlots(s: State, t: State, j: nat)
    requires SlotsExact(s) && SlotsUntouched(s, t, j)
    ensures SlotsExact(t)
  {
  }

  lemma PushKeepsSlotsIffFree(s: State, j: nat)
    requires Inv(s) && SlotsExact(s) && Enabled(s, Push(j))
    ensures SlotsExact(Next(s, Push(j))) <==> s.pending[Slot(s.submitted)].None?
  {
    var t, slot := Next(s, Push(j)), Slot(s.submitted);
    assert t.jobs == s.jobs[j := t.jobs[j]] && t.pending == s.pending[slot := Some(j)];
    if s.pending[slot].Some? {
      var k := s.pending[slot].value;
      assert k != j && t.jobs[k] == s.jobs[k] && IsLive(t.jobs[k]);
    } else {
      assert forall k <- s.jobs | IsLive(s.jobs[k]) :: Slot(s.jobs[k].seqNo) != slot;
    }
  }

  lemma SlotsStayExactIffFree(s: State, step: Step)
    requires Inv(s) && SlotsExact(s) && Enabled(s, step)
    ensures SlotsExact(Next(s, step)) <==> !(step.Push? && s.pending[Slot(s.submitted)].Some?)
  {
    if step.Push? {
      PushKeepsSlotsIffFree(s, step.j);
    } else {
      SlotEffect(s, step);
      if GivesBack(s, step) {
        FreedKeepsSlots(s, Next(s, step), step.j);
      } else {
        UntouchedKeepsSlots(s, Next(s, step), step.j);
      }
    }
  }

  ghost predicate Shares(s: State) {
    exists j, k :: {j, k} <= Selected(s.jobs, IsLive) && j != k && Slot(s.jobs[j].seqNo) == Slot(s.jobs[k].seqNo)
  }

  lemma ExactMeansNotShared(s: State)
    requires SlotsExact(s)
    ensures !Shares(s)
  {
    forall j, k | {j, k} <= Selected(s.jobs, IsLive) && j != k
      ensures Slot(s.jobs[j].seqNo) != Slot(s.jobs[k].seqNo)
    {
      assert j in Selected(s.jobs, IsLive) && k in Selected(s.jobs, IsLive);
    }
  }

  lemma TakenSlotIsShared(s: State, j: nat)
    requires Inv(s) && SlotsExact(s) && Enabled(s, Push(j)) && s.pending[Slot(s.submitted)].Some?
    ensures Shares(Next(s, Push(j)))
  {
    var t, k := Next(s, Push(j)), s.pending[Slot(s.submitted)].value;
    assert k != j && t.jobs[k] == s.jobs[k] && t.jobs[j].seqNo == s.submitted;
    assert {j, k} <= Selected(t.jobs, IsLive);
  }

  /** Only a push can make two live jobs share a slot, and it does so exactly when the slot it takes is taken. */
  lemma SharesSlotIffTaken(s: State, step: Step)
    requires Inv(s) && SlotsExact(s) && Enabled(s, step)
    ensures Shares(Next(s, step)) <==> step.Push? && s.pending[Slot(s.submitted)].Some?
  {
    SlotsStayExactIffFree(s, step);
    if step.Push? && s.pending[Slot(s.submitted)].Some? {
      TakenSlotIsShared(s, step.j);
    } else {
      ExactMeansNotShared(Next(s, step));
    }
  }

  // Permits given back in the order of submission

  predicate InOrder(s: State, step: Step) {
    Enabled(s, step) && GivesBack(s, step) ==> s.jobs[step.j].seqNo == s.returned
  }

  predicate InOrderRun(s: State, schedule: seq<Step>)
    requires |s.pending| == MAX_CMDS
    decreases |schedule|
  {
    schedule != [] ==> InOrder(s, schedule[0]) && InOrderRun(Do(s, schedule[0]), schedule[1..])
  }

  /** The live jobs are the last ones submitted. */
  predicate LiveAreNewest(s: State) {
    forall j <- s.jobs | IsLive(s.jobs[j]) :: s.jobs[j].seqNo >= s.returned
  }

  lemma RoomForPush(s: State, j: nat)
    requires Inv(s) && s.permits >= 0 && Enabled(s, Push(j))
    ensures s.submitted - s.returned < MAX_CMDS
  {
    SubsetSize(Selected(s.jobs, IsLive) + {j}, Selected(s.jobs, HoldsPermit));
  }

  lemma NextSlotIsFree(s: State, j: nat)
    requires Inv(s) && s.permits >= 0 && SlotsExact(s) && LiveAreNewest(s) && Enabled(s, Push(j))
    ensures s.pending[Slot(s.submitted)].None?
  {
    RoomForPush(s, j);
    var slot := s.pending[Slot(s.submitted)];
    if slot.Some? {
      NearbySlotsDiffer(s.jobs[slot.value].seqNo, s.submitted);
    }
  }

  lemma NearbySlotsDiffer(a: nat, b: nat)
    requires a < b < a + MAX_CMDS
    ensures Slot(a) != Slot(b)
  {
  }

  lemma PushStaysNewest(s: State, j: nat)
    requires Inv(s) && LiveAreNewest(s) && Enabled(s, Push(j))
    ensures LiveAreNewest(Next(s, Push(j)))
  {
  }

  lemma FreedStaysNewest(s: State, t: State, j: nat)
    requires SlotsExact(s) && LiveAreNewest(s) && SlotFreed(s, t, j) && s.jobs[j].seqNo == s.returned
    ensures LiveAreNewest(t)
  {
    assert forall k <- s.jobs | IsLive(s.jobs[k]) && k != j :: s.jobs[k].seqNo != s.jobs[j].seqNo;
  }

  lemma InOrderStepKeepsSlots(s: State, step: Step)
    requires Inv(s) && s.permits >= 0 && SlotsExact(s) && LiveAreNewest(s) && Enabled(s, step) && InOrder(s, step)
    ensures SlotsExact(Next(s, step)) && LiveAreNewest(Next(s, step))
  {
    if step.Push? {
      NextSlotIsFree(s, step.j);
      PushStaysNewest(s, step.j);
    } else {
      SlotEffect(s, step);
      if GivesBack(s, step) {
        FreedStaysNewest(s, Next(s, step), step.j);
      }
    }
    SlotsStayExactIffFree(s, step);
  }

  lemma {:induction false} InOrderRunKeepsSlots(s: State, schedule: seq<Step>)
    requires Inv(s) && s.permits >= 0 && SlotsExact(s) && LiveAreNewest(s) && InOrderRun(s, schedule)
    ensures SlotsExact(Run(s, schedule))
    decreases |schedule|
  {
    if schedule != [] {
      var t := Do(s, schedule[0]);
      if Enabled(s, schedule[0]) {
        StepKeepsInv(s, schedule[0]);
        InOrderStepKeepsSlots(s, schedule[0]);
      }
      InOrderRunKeepsSlots(t, schedule[1..]);
    }
  }

  /** While permits come back in the order of submission, two live jobs never share a slot. */
  lemma InOrderLiveJobsHaveOwnSlots(schedule: seq<Step>, j: nat, k: nat)
    requires InOrderRun(INIT, schedule)
    requires var s := Run(INIT, schedule); {j, k} <= Selected(s.jobs, IsLive) && j != k
    ensures var s := Run(INIT, schedule); Slot(s.jobs[j].seqNo) != Slot(s.jobs[k].seqNo)
  {
    InOrderRunKeepsSlots(INIT, schedule);
    var s := Run(INIT, schedule);
    assert {j, k} <= Selected(s.jobs, IsLive);
    assert j in Selected(s.jobs, IsLive) && k in Selected(s.jobs, IsLive);
  }

  function Enter(j: nat): seq<Step> {
    [Step.Submit(j)] + [Push(j)]
  }

  /** A job without a command is completed as soon as it is run, and gives its permit back. */
  function NoCommand(j: nat): seq<Step> {
    [RunBegin(j)] + ([SendOk(j)] + ([Signal(j)] + [Return(j)]))
  }

  /** Job 0 is sent to the firmware; three jobs without a command pass it; then job 4 is submitted. */
  const OVERTAKEN: seq<Step> :=
    Enter(0) + [RunBegin(0)] + [SendOk(0)]
    + Enter(1) + NoCommand(1) + Enter(2) + NoCommand(2) + Enter(3) + NoCommand(3) + Enter(4)

  lemma RunOne(s: State, step: Step)
    requires |s.pending| == MAX_CMDS && Enabled(s, step)
    ensures Run(s, [step]) == Next(s, step)
  {
  }

  /** The first step of a schedule, when it is enabled. */
  lemma RunFirst(s: State, step: Step, rest: seq<Step>)
    requires |s.pending| == MAX_CMDS && Enabled(s, step)
    ensures |Next(s, step).pending| == MAX_CMDS && Run(s, [step] + rest) == Run(Next(s, step), rest)
  {
    assert ([step] + rest)[1..] == rest;
  }

  /** From s to t only job j changed. */
  predicate OnlyJob(s: State, t: State, j: nat, job: Job) {
    |t.pending| == MAX_CMDS && t.jobs == s.jobs[j := job]
  }

  lemma EnterRun(s: State, j: nat) returns (t: State)
    requires |s.pending| == MAX_CMDS && j !in s.jobs && s.permits > 0
    ensures t == Run(s, Enter(j)) && OnlyJob(s, t, j, Job(Pushed, Queued, Unsent, s.submitted, 2, false))
    ensures t.permits == s.permits - 1 && t.submitted == s.submitted + 1
  {
    var a := Next(s, Step.Submit(j));
    t := Next(a, Push(j));
    RunFirst(s, Step.Submit(j), [Push(j)]);
    RunOne(a, Push(j));
  }

  lemma NoCommandRun(s: State, j: nat) returns (t: State)
    requires |s.pending| == MAX_CMDS && j in s.jobs && s.jobs[j].sched.Queued? && s.jobs[j].msg.Unsent?
    ensures t == Run(s, NoCommand(j)) && j in t.jobs && OnlyJob(s, t, j, t.jobs[j])
    ensures t.permits == s.permits + 1 && t.submitted == s.submitted
  {
    var a := Next(s, RunBegin(j));
    var b := Next(a, SendOk(j));
    var c := Next(b, Signal(j));
    t := Next(c, Return(j));
    RunFirst(s, RunBegin(j), [SendOk(j)] + ([Signal(j)] + [Return(j)]));
    RunFirst(a, SendOk(j), [Signal(j)] + [Return(j)]);
    RunFirst(b, Signal(j), [Return(j)]);
    RunOne(c, Return(j));
  }

  /** Job 0 is with the firmware, n jobs were submitted, and n - 1 have given their permits back. */
  predicate Passed(s: State, n: nat) {
    && |s.pending| == MAX_CMDS && s.permits == MAX_CMDS - 1 && s.submitted == n
    && (forall j <- s.jobs :: j < n)
    && 0 in s.jobs && s.jobs[0] == Job(Pushed, Running, InFlight, 0, 3, false)
  }

  lemma PassThrough(s: State, steps: seq<Step>, n: nat)
    requires n > 0 && s == Run(INIT, steps) && Passed(s, n)
    ensures Passed(Run(INIT, steps + Enter(n) + NoCommand(n)), n + 1)
  {
    var a := EnterRun(s, n);
    RunAppend(INIT, steps, Enter(n));
    var t := NoCommandRun(a, n);
    RunAppend(INIT, steps + Enter(n), NoCommand(n));
  }

  lemma {:induction false} RunAppend(s: State, a: seq<Step>, b: seq<Step>)
    requires |s.pending| == MAX_CMDS
    ensures Run(s, a + b) == Run(Run(s, a), b)
    decreases |a|
  {
    if a == [] {
      assert a + b == b;
    } else {
      RunAppend(Do(s, a[0]), a[1..], b);
      assert (a + b)[1..] == a[1..] + b;
    }
  }

  lemma FirstJobInFlight()
    ensures Passed(Run(INIT, Enter(0) + [RunBegin(0)] + [SendOk(0)]), 1)
  {
    var a := EnterRun(INIT, 0);
    var b := Next(a, RunBegin(0));
    var c := Next(b, SendOk(0));
    RunOne(a, RunBegin(0));
    RunAppend(INIT, Enter(0), [RunBegin(0)]);
    RunOne(b, SendOk(0));
    RunAppend(INIT, Enter(0) + [RunBegin(0)], [SendOk(0)]);
  }

  lemma ThreeJobsPass(steps: seq<Step>)
    requires steps == Enter(0) + [RunBegin(0)] + [SendOk(0)]
    ensures Passed(Run(INIT, steps + Enter(1) + NoCommand(1) + Enter(2) + NoCommand(2) + Enter(3) + NoCommand(3)), 4)
  {
    FirstJobInFlight();
    PassThrough(Run(INIT, steps), steps, 1);
    var a := steps + Enter(1) + NoCommand(1);
    PassThrough(Run(INIT, a), a, 2);
    var b := a + Enter(2) + NoCommand(2);
    PassThrough(Run(INIT, b), b, 3);
  }

  /**
   Out of order they can, by a run in which nothing fails and no job is killed: while the first job is with the
   firmware, three later ones give their permits back, and the next one takes the first job's slot.
   */
  lemma OutOfOrderJobsShareSlot()
    ensures var s := Run(INIT, OVERTAKEN);
            && {0, 4} <= Selected(s.jobs, IsLive) && s.jobs[0].msg.InFlight?
            && Slot(s.jobs[0].seqNo) == Slot(s.jobs[4].seqNo)
  {
    var first := Enter(0) + [RunBegin(0)] + [SendOk(0)];
    var steps := first + Enter(1) + NoCommand(1) + Enter(2) + NoCommand(2) + Enter(3) + NoCommand(3);
    ThreeJobsPass(first);
    var t := EnterRun(Run(INIT, steps), 4);
    RunAppend(INIT, steps, Enter(4));
    assert Slot(4) == Slot(0);
  }
}
