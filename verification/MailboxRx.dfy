/**
 The receiving side of a mailbox channel, run by an interrupt or by the poll daemon, against firmware that
 publishes a message in the ring and only then raises the channel's iohub register. Each step is one access to
 a shared word or register; the ring and both its sides are those of MailboxInterleaving.
 */
module MailboxRx {
  import opened MailboxRing
  import Ring = MailboxInterleaving

  datatype Kind = IrqWorker | PollDaemon

  datatype Phase = Idle | Clearing | Draining | Checking | Bad

  /**
   `queued` is a pending run of the worker. The history decides no step: `signalled` counts the messages whose
   iohub write is done, and `counted` those that were published when the reader last read the tail.
   */
  datatype State = State(kind: Kind, ring: Ring.State, iohub: bool, queued: bool, phase: Phase,
                         signalled: nat, counted: nat)

  datatype Step =
    | Write(step: Ring.Step)      // the firmware puts a message into the ring
    | FwSignal(interrupt: bool)   // and raises iohub; the choice the hardware has about an interrupt
    | Start                       // the worker is run, or the daemon looks at the register
    | Clear
    | Read(step: Ring.Step)
    | ZeroTail                    // the reader waited in vain for a tail other than zero
    | Error                       // a response is refused or its callback fails
    | Check

  function Init(kind: Kind, size: nat, start: nat): State
    requires start < size
  {
    State(kind, Ring.Init(size, start), false, false, Idle, 0, 0)
  }

  predicate Enabled(s: State, step: Step) {
    match step
    case Write(w) => Ring.Writes(w) && Ring.Enabled(s.ring, w)
    case FwSignal(_) => true
    case Start => s.phase.Idle? && if s.kind.IrqWorker? then s.queued else s.iohub
    case Clear => s.phase.Clearing?
    case Read(r) => s.phase.Draining? && !Ring.Writes(r) && Ring.Enabled(s.ring, r)
    case ZeroTail => s.phase.Draining? && s.ring.r.Ready? && s.ring.layout.tail == 0
    case Error => s.phase.Draining?
    case Check => s.phase.Checking?
  }

  /**
   Raising iohub interrupts for certain only when it was clear and the worker is not running; while
   the worker runs the hardware may stay silent.
   */
  function Next(s: State, step: Step): State
    requires Enabled(s, step)
  {
    match step
    case Write(w) => s.(ring := Ring.Next(s.ring, w))
    case FwSignal(interrupt) =>
      s.(signalled := |s.ring.accepted|, iohub := true,
         queued := s.queued || interrupt || (s.phase.Idle? && !s.iohub))
    case Start => s.(phase := Clearing, queued := if s.kind.IrqWorker? then false else s.queued)
    case Clear => s.(iohub := false, phase := Draining)
    case Read(r) => AfterRead(s, r, Ring.Next(s.ring, r))
    case ZeroTail => s.(phase := Bad)
    case Error => s.(phase := Bad)
    case Check => s.(phase := if s.iohub then Clearing else Idle)
  }

  /** A peek that sends the reader back has found head and tail equal: the ring looks empty, and the drain ends. */
  function AfterRead(s: State, r: Ring.Step, ring: Ring.State): State {
    s.(ring := ring,
       counted := if r.ReadTail? then |s.ring.accepted| else s.counted,
       phase := if ring.r.Failed? then Bad
                else if !(r.Peek? && ring.r.Ready?) then s.phase
                else if s.kind.IrqWorker? then Checking else Idle)
  }

  function Run(s: State, schedule: seq<Step>): State
    decreases |schedule|
  {
    if schedule == [] then s
    else Run(if Enabled(s, schedule[0]) then Next(s, schedule[0]) else s, schedule[1..])
  }

  // The invariant

  /** What a tail read by the reader says about the messages published by then. */
  predicate TailTells(s: State) {
    s.ring.r.TailRead? ==>
      && (s.ring.r.tail == s.ring.layout.head ==> s.counted <= |s.ring.received|)
      && (!s.iohub ==> s.signalled <= s.counted)
  }

  predicate PhaseInv(s: State) {
    var consumed := |s.ring.received|;
    && (s.phase.Draining? ==> TailTells(s))
    && (s.phase.Draining? || s.phase.Bad? || s.ring.r.Ready?)
    && (s.phase.Checking? ==> s.kind.IrqWorker? && (!s.iohub ==> s.signalled <= consumed))
    && (s.phase.Idle? && s.kind.IrqWorker? ==> (s.iohub ==> s.queued) && (!s.queued ==> s.signalled <= consumed))
    && (s.kind.PollDaemon? && (s.phase.Idle? || s.phase.Clearing?) && s.signalled > consumed ==> s.iohub)
  }

  ghost predicate Inv(s: State) {
    Ring.Inv(s.ring) && s.signalled <= |s.ring.accepted| && PhaseInv(s)
  }

  /** Writing leaves the reader, its head and what it received alone. */
  predicate WriteFrame(s: Ring.State, t: Ring.State) {
    t.r == s.r && t.layout.head == s.layout.head && t.received == s.received && |s.accepted| <= |t.accepted|
  }

  lemma WriteEffect(s: Ring.State, w: Ring.Step)
    requires Ring.Enabled(s, w) && Ring.Writes(w)
    ensures WriteFrame(s, Ring.Next(s, w))
  {
  }

  /** Reading loses no message; reading the tail of an empty ring meets the head; the peek compares the two. */
  predicate ReadFrame(s: Ring.State, r: Ring.Step, t: Ring.State) {
    && t.accepted == s.accepted && |s.received| <= |t.received|
    && (t.r.TailRead? ==> r.ReadTail? && (t.r.tail == t.layout.head ==> |t.accepted| <= |t.received|))
    && (r.Peek? && t.r.Ready? ==> s.r.TailRead? && s.r.tail == s.layout.head && t.received == s.received)
  }

  lemma ReadEffect(s: Ring.State, r: Ring.Step)
    requires Ring.Inv(s) && Ring.Enabled(s, r) && !Ring.Writes(r)
    ensures ReadFrame(s, r, Ring.Next(s, r))
  {
    EmptyIffHeadMeetsTail(s.mem, s.layout);
  }

  lemma WriteKeepsPhaseInv(s: State, t: State)
    requires PhaseInv(s) && WriteFrame(s.ring, t.ring) && t == s.(ring := t.ring)
    ensures PhaseInv(t)
  {
  }

  lemma ReadKeepsPhaseInv(s: State, r: Ring.Step, ring: Ring.State)
    requires PhaseInv(s) && s.signalled <= |s.ring.accepted| && s.phase.Draining? && ReadFrame(s.ring, r, ring)
    ensures PhaseInv(AfterRead(s, r, ring))
  {
  }

  lemma StepKeepsInv(s: State, step: Step)
    requires Inv(s) && Enabled(s, step)
    ensures Inv(Next(s, step)) && Next(s, step).kind == s.kind
  {
    match step
    case Write(w) =>
      Ring.StepKeepsInv(s.ring, w);
      WriteEffect(s.ring, w);
      WriteKeepsPhaseInv(s, Next(s, step));
    case Read(r) =>
      Ring.StepKeepsInv(s.ring, r);
      ReadEffect(s.ring, r);
      ReadKeepsPhaseInv(s, r, Ring.Next(s.ring, r));
    case _ =>
  }

  lemma {:induction false} RunKeepsInv(s: State, schedule: seq<Step>)
    requires Inv(s)
    ensures Inv(Run(s, schedule)) && Run(s, schedule).kind == s.kind
    decreases |schedule|
  {
    if schedule != [] {
      if Enabled(s, schedule[0]) {
        StepKeepsInv(s, schedule[0]);
      }
      RunKeepsInv(if Enabled(s, schedule[0]) then Next(s, schedule[0]) else s, schedule[1..]);
    }
  }

  // What every schedule gives

  /** The signalled messages were all received, as they were published. */
  ghost predicate AllSignalledReceived(s: State) {
    && s.signalled <= |s.ring.received| && s.signalled <= |s.ring.accepted|
    && s.ring.received[..s.signalled] == s.ring.accepted[..s.signalled]
  }

  lemma ReceivedIsPrefix(s: State)
    requires Inv(s) && s.signalled <= |s.ring.received|
    ensures AllSignalledReceived(s)
  {
  }

  /** When the worker is about to exit without error, every signalled message has been received. */
  lemma WorkerExitLosesNothing(size: nat, start: nat, schedule: seq<Step>)
    requires start < size <= WRAP_WORDS
    ensures var s := Run(Init(IrqWorker, size, start), schedule);
            Enabled(s, Check) && Next(s, Check).phase.Idle? ==> AllSignalledReceived(s)
  {
    RunKeepsInv(Init(IrqWorker, size, start), schedule);
    var s := Run(Init(IrqWorker, size, start), schedule);
    if Enabled(s, Check) && Next(s, Check).phase.Idle? {
      ReceivedIsPrefix(s);
    }
  }

  /** Between runs of the worker, a signalled message not yet received has a run of the worker queued. */
  lemma WaitingMessageHasQueuedWork(size: nat, start: nat, schedule: seq<Step>)
    requires start < size <= WRAP_WORDS
    ensures var s := Run(Init(IrqWorker, size, start), schedule);
            s.phase.Idle? && !s.queued ==> AllSignalledReceived(s)
  {
    RunKeepsInv(Init(IrqWorker, size, start), schedule);
    var s := Run(Init(IrqWorker, size, start), schedule);
    if s.phase.Idle? && !s.queued {
      ReceivedIsPrefix(s);
    }
  }

  /** For the poll daemon, a signalled message not yet received keeps iohub raised unless it is draining. */
  lemma WaitingMessageKeepsIohub(size: nat, start: nat, schedule: seq<Step>)
    requires start < size <= WRAP_WORDS
    ensures var s := Run(Init(PollDaemon, size, start), schedule);
            !s.iohub && !s.phase.Draining? && !s.phase.Bad? ==> AllSignalledReceived(s)
  {
    RunKeepsInv(Init(PollDaemon, size, start), schedule);
    var s := Run(Init(PollDaemon, size, start), schedule);
    if !s.iohub && !s.phase.Draining? && !s.phase.Bad? {
      ReceivedIsPrefix(s);
    }
  }
}
