/** Once the firmware is quiet, the worker that drains a channel comes to its end, and has received everything. */
module MailboxRxProgress {
  import opened MailboxRing
  import opened MailboxRx
  import Ring = MailboxInterleaving
  import Progress = MailboxProgress

  function Unread(s: State): seq<Words> {
    s.ring.layout.Contents()
  }

  /** Nothing in the ring hinders the reader: every unread message has a payload, and the tail is not zero. */
  ghost predicate Calm(ring: Ring.State) {
    Ring.Inv(ring) && ring.layout.tail != 0 && forall p <- ring.layout.Contents() :: |p| > HEADER_WORDS
  }

  /** Nothing hinders the worker: the ring is calm, and no error came up. */
  ghost predicate Quiet(s: State) {
    Inv(s) && !s.phase.Bad? && Calm(s.ring)
  }

  /** The steps a run of the worker consists of when all goes well. */
  predicate Works(step: Step) {
    step.Clear? || step.Check? || (step.Read? && !Ring.Writes(step.step))
  }

  // How much work is left

  function Sum(ps: seq<Words>): nat {
    if ps == [] then 0 else |ps[0]| + 8 + Sum(ps[1..])
  }

  ghost function DrainLeft(ring: Ring.State): nat {
    var ps := ring.layout.Contents();
    if ps == [] then if ring.r.Ready? then 2 else 1
    else Progress.ToReceive(ring) + Sum(ps[1..]) + 2
  }

  function AfterDrain(s: State): nat {
    if s.iohub then Sum(Unread(s)) + 5 else 1
  }

  ghost function WorkLeft(s: State): nat {
    match s.phase
    case Clearing => Sum(Unread(s)) + 4
    case Draining => DrainLeft(s.ring) + AfterDrain(s)
    case Checking => AfterDrain(s)
    case Idle => 0
    case Bad => 0
  }

  lemma CalmIsWaiting(s: Ring.State)
    requires Calm(s) && s.layout.Contents() != []
    ensures Progress.Waiting(s)
  {
    assert s.layout.Contents()[0] in s.layout.Contents();
  }

  // Draining

  lemma FinishLeavesLess(s: Ring.State)
    requires Ring.Inv(s) && Ring.Enabled(s, Ring.Finish)
    ensures var t, ps := Ring.Next(s, Ring.Finish), s.layout.Contents();
            t.layout.Contents() == ps[1..] && t.layout.tail == s.layout.tail && Sum(ps[1..]) < Sum(ps)
            && DrainLeft(t) < DrainLeft(s)
  {
    var t, ps := Ring.Next(s, Ring.Finish), s.layout.Contents();
    assert t.layout.Contents() == ps[1..];
  }

  /** The steps of a drain on an empty ring are two: the tail is read, and found to be the head. */
  lemma EmptyDrain(s: Ring.State, r: Ring.Step)
    requires Ring.Inv(s) && s.layout.Contents() == [] && !s.r.Failed? && Ring.Enabled(s, r) && !Ring.Writes(r)
    ensures var t := Ring.Next(s, r);
            && t == s.(r := t.r) && (r.ReadTail? ==> t.r.TailRead? && s.r.Ready?)
            && (!r.ReadTail? ==> r.Peek? && t.r.Ready?)
  {
    EmptyIffHeadMeetsTail(s.mem, s.layout);
  }

  /** A drain goes on and has less to do, or it ends with the head found at the tail that was read. */
  ghost predicate Drains(s: Ring.State, r: Ring.Step, t: Ring.State) {
    && Calm(t) && !t.r.Failed?
    && Sum(t.layout.Contents()) <= Sum(s.layout.Contents())
    && ((r.Peek? && t.r.Ready?) || DrainLeft(t) < DrainLeft(s))
  }

  lemma WaitingDrain(s: Ring.State, r: Ring.Step)
    requires Calm(s) && s.layout.Contents() != [] && Ring.Enabled(s, r) && !Ring.Writes(r)
    ensures Drains(s, r, Ring.Next(s, r))
  {
    var t := Ring.Next(s, r);
    CalmIsWaiting(s);
    Ring.StepKeepsInv(s, r);
    Progress.ReaderGoesOn(s, r);
    if r.Finish? {
      FinishLeavesLess(s);
      assert forall p <- t.layout.Contents() :: p in s.layout.Contents();
    } else {
      Progress.NotThereYet(t);
    }
  }

  lemma DrainStep(s: Ring.State, r: Ring.Step)
    requires Calm(s) && !s.r.Failed? && Ring.Enabled(s, r) && !Ring.Writes(r)
    ensures Drains(s, r, Ring.Next(s, r))
  {
    if s.layout.Contents() == [] {
      Ring.StepKeepsInv(s, r);
      EmptyDrain(s, r);
    } else {
      WaitingDrain(s, r);
    }
  }

  lemma DrainedWork(s: State, r: Ring.Step, ring: Ring.State)
    requires s.phase.Draining? && Drains(s.ring, r, ring)
    ensures var t := AfterRead(s, r, ring); !t.phase.Bad? && WorkLeft(t) < WorkLeft(s)
  {
  }

  /** Every step of the worker leaves it less to do, and nothing to hinder it. */
  lemma WorkGoesOn(s: State, step: Step)
    requires Quiet(s) && Works(step) && Enabled(s, step)
    ensures Quiet(Next(s, step)) && WorkLeft(Next(s, step)) < WorkLeft(s)
  {
    StepKeepsInv(s, step);
    if step.Read? {
      DrainStep(s.ring, step.step);
      DrainedWork(s, step.step, Ring.Next(s.ring, step.step));
    }
  }

  lemma ReaderStep(s: Ring.State) returns (r: Ring.Step)
    requires Calm(s) && !s.r.Failed?
    ensures Ring.Enabled(s, r) && !Ring.Writes(r)
  {
    if s.layout.Contents() != [] {
      CalmIsWaiting(s);
      r := Progress.ReaderCanGoOn(s);
    } else {
      r := if s.r.Ready? then Ring.ReadTail else Ring.Peek;
    }
  }

  /** Until it is idle the worker can go on. */
  lemma WorkerCanGoOn(s: State) returns (step: Step)
    requires Quiet(s) && !s.phase.Idle?
    ensures Works(step) && Enabled(s, step)
  {
    match s.phase
    case Clearing => step := Clear;
    case Checking => step := Check;
    case Draining =>
      var r := ReaderStep(s.ring);
      step := Read(r);
  }

  // Nothing is left behind

  /** The tail the reader holds is the present one, so a drain from here on ends with an empty ring. */
  predicate UpToDate(s: State) {
    match s.phase
    case Clearing => true
    case Draining => !s.iohub && (s.ring.r.TailRead? ==> s.ring.r.tail == s.ring.layout.tail)
    case Checking => !s.iohub && Unread(s) == []
    case Idle => !s.iohub && Unread(s) == []
    case Bad => false
  }

  lemma TailIsPresent(s: Ring.State, r: Ring.Step)
    requires Ring.Enabled(s, r) && !Ring.Writes(r)
    ensures var t := Ring.Next(s, r);
            && (t.r.TailRead? ==> t.r.tail == t.layout.tail)
            && (r.Peek? && t.r.Ready? ==> s.r.TailRead? && s.r.tail == s.layout.head && t.layout == s.layout)
  {
  }

  lemma ReadStaysUpToDate(s: State, r: Ring.Step, ring: Ring.State)
    requires s.phase.Draining? && UpToDate(s) && !ring.r.Failed?
    requires s.ring.layout.head == s.ring.layout.tail <==> Unread(s) == []
    requires ring.r.TailRead? ==> ring.r.tail == ring.layout.tail
    requires r.Peek? && ring.r.Ready? ==>
               s.ring.r.TailRead? && s.ring.r.tail == s.ring.layout.head && ring.layout == s.ring.layout
    ensures UpToDate(AfterRead(s, r, ring))
  {
  }

  lemma StaysUpToDate(s: State, step: Step)
    requires Quiet(s) && UpToDate(s) && Works(step) && Enabled(s, step)
    ensures UpToDate(Next(s, step))
  {
    if step.Read? {
      var ring := Ring.Next(s.ring, step.step);
      DrainStep(s.ring, step.step);
      TailIsPresent(s.ring, step.step);
      EmptyIffHeadMeetsTail(s.ring.mem, s.ring.layout);
      ReadStaysUpToDate(s, step.step, ring);
    }
  }

  /**
   The worker comes to its end in the steps it has left. A run that is about to clear the register receives all
   that was published.
   */
  lemma {:induction false} WorkerGoesIdle(s: State) returns (schedule: seq<Step>)
    requires Quiet(s)
    ensures (forall step <- schedule :: Works(step)) && |schedule| <= WorkLeft(s)
    ensures Run(s, schedule).phase.Idle?
    ensures Run(s, schedule).kind == s.kind && Run(s, schedule).queued == s.queued
    ensures UpToDate(s) ==>
              var t := Run(s, schedule); UpToDate(t) && t.ring.received == t.ring.accepted
    decreases WorkLeft(s)
  {
    schedule := [];
    if !s.phase.Idle? {
      var step := WorkerCanGoOn(s);
      WorkGoesOn(s, step);
      if UpToDate(s) {
        StaysUpToDate(s, step);
      }
      var rest := WorkerGoesIdle(Next(s, step));
      schedule := [step] + rest;
      assert schedule[1..] == rest;
    }
  }

  /** A run that is due receives all that was published, and is not followed by another. */
  lemma DueRunReceivesAll(s: State) returns (schedule: seq<Step>)
    requires Quiet(s) && Enabled(s, Start)
    ensures schedule != [] && schedule[0] == Start && (forall step <- schedule[1..] :: Works(step))
    ensures var t := Run(s, schedule); t.phase.Idle? && t.ring.received == t.ring.accepted && !Enabled(t, Start)
  {
    StepKeepsInv(s, Start);
    var rest := WorkerGoesIdle(Next(s, Start));
    schedule := [Start] + rest;
    assert schedule[1..] == rest;
  }
}
