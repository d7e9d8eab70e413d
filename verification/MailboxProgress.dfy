/**
 The mailbox ring gets its messages through: however the two sides' steps are interleaved, enough steps of one
 side finish what it has begun.
 */
module MailboxProgress {
  import opened MailboxRing
  import opened MailboxInterleaving

  /** How many steps of a schedule are taken by one side, those that are not enabled in their turn left out. */
  function Taken(s: State, schedule: seq<Step>, byWriter: bool): nat
    decreases |schedule|
  {
    if schedule == [] then 0
    else if !Enabled(s, schedule[0]) then Taken(s, schedule[1..], byWriter)
    else Taken(Next(s, schedule[0]), schedule[1..], byWriter) + if Writes(schedule[0]) == byWriter then 1 else 0
  }

  // The reader

  /** From where the reader stands it has no choice. */
  lemma ReaderHasOneWay(s: State, step: Step, other: Step)
    requires Enabled(s, step) && Enabled(s, other) && !Writes(step) && !Writes(other)
    ensures step == other
  {
  }

  lemma FinishReceives(s: State)
    requires Inv(s) && Enabled(s, Finish)
    ensures Next(s, Finish).received == s.received + [s.layout.Contents()[0]]
  {
    assert s.r.got == s.layout.Contents()[0];
  }

  /** The reader comes back only with a message, or having found head and tail equal. */
  lemma ReaderComesBackWithMessage(s: State, step: Step)
    requires Inv(s) && Enabled(s, step) && !s.r.Ready? && !Writes(step) && Next(s, step).r.Ready?
    ensures if step.Finish? then Next(s, step).received == s.received + [s.layout.Contents()[0]]
            else step.Peek? && s.r.tail == s.layout.head
  {
    if step.Finish? {
      FinishReceives(s);
    }
  }

  /** An unread message with a payload comes first. */
  ghost predicate Waiting(s: State) {
    Inv(s) && s.layout.Contents() != [] && |s.layout.Contents()[0]| > HEADER_WORDS
  }

  /** How many steps of the reader are left until the first unread package, of `len` words, is received. */
  function StepsLeft(r: Reader, head: nat, len: nat): nat {
    match r
    case TailRead(t) => if t == head then len + 7 else len + 5
    case Ready => len + 6
    case AtTombstone => len + 4
    case TailReread(_) => len + 3
    case SizeRead(_, _, _) => len + 2
    case Copying(_, n, got) => if |got| <= n then n - |got| + 1 else 0
    case Failed => 0
  }

  ghost function ToReceive(s: State): nat
    requires s.layout.Contents() != []
  {
    StepsLeft(s.r, s.layout.head, |s.layout.Contents()[0]|)
  }

  lemma PeekGoesOn(s: State)
    requires Waiting(s) && s.r.TailRead?
    ensures var t := Next(s, Peek); t == s.(r := t.r) && ToReceive(t) < ToReceive(s)
  {
    EmptyIffHeadMeetsTail(s.mem, s.layout);
    FrontIsWhole(s.mem, s.layout);
    assert s.mem[s.layout.FrontOffset()] == s.layout.Contents()[0][0];
  }

  lemma CheckGoesOn(s: State)
    requires Waiting(s) && s.r.SizeRead?
    ensures var t := Next(s, CheckSize); t == s.(r := t.r) && ToReceive(t) < ToReceive(s)
  {
    FrontIsWhole(s.mem, s.layout);
    WholePackagePasses(|s.mem|, s.r.offset, s.r.tail, s.layout.Contents()[0]);
  }

  lemma ReadTailGoesOn(s: State, step: Step)
    requires Waiting(s) && Enabled(s, step) && (step.ReadTail? || step.RereadTail?)
    ensures var t := Next(s, step); t == s.(r := t.r) && ToReceive(t) < ToReceive(s)
  {
    EmptyIffHeadMeetsTail(s.mem, s.layout);
  }

  /** Each step of the reader brings the message nearer, and the last one receives it. */
  lemma ReaderGoesOn(s: State, step: Step)
    requires Waiting(s) && Enabled(s, step) && !Writes(step)
    ensures var t := Next(s, step);
            if step.Finish? then t.received == s.received + [s.layout.Contents()[0]]
            else t == s.(r := t.r) && ToReceive(t) < ToReceive(s)
  {
    match step
    case Peek => PeekGoesOn(s);
    case CheckSize => CheckGoesOn(s);
    case ReadTail => ReadTailGoesOn(s, step);
    case RereadTail => ReadTailGoesOn(s, step);
    case Finish => FinishReceives(s);
    case _ =>
  }

  lemma WriterLeavesReader(s: State, step: Step)
    requires Enabled(s, step) && Writes(step) && s.layout.Contents() != []
    ensures var t := Next(s, step);
            && t.received == s.received && t.layout.Contents() != [] && t.layout.Contents()[0] == s.layout.Contents()[0]
            && ToReceive(t) == ToReceive(s)
  {
  }

  lemma {:induction false} ReceivedGrows(s: State, schedule: seq<Step>)
    ensures s.received <= Run(s, schedule).received
    decreases |schedule|
  {
    if schedule != [] {
      ReceivedGrows(if Enabled(s, schedule[0]) then Next(s, schedule[0]) else s, schedule[1..]);
    }
  }

  lemma NotThereYet(s: State)
    requires Waiting(s)
    ensures 0 < ToReceive(s) <= |s.layout.Contents()[0]| + 7
  {
  }

  lemma {:induction false} ReaderReceives(s: State, schedule: seq<Step>)
    requires Waiting(s) && Taken(s, schedule, false) >= ToReceive(s)
    ensures s.received + [s.layout.Contents()[0]] <= Run(s, schedule).received
    decreases |schedule|
  {
    NotThereYet(s);
    var rest := schedule[1..];
    if !Enabled(s, schedule[0]) {
      ReaderReceives(s, rest);
    } else {
      var t := Next(s, schedule[0]);
      StepKeepsInv(s, schedule[0]);
      if Writes(schedule[0]) {
        WriterLeavesReader(s, schedule[0]);
        ReaderReceives(t, rest);
      } else {
        ReaderGoesOn(s, schedule[0]);
        if schedule[0].Finish? {
          ReceivedGrows(t, rest);
        } else {
          ReaderReceives(t, rest);
        }
      }
    }
  }

  /**
   In every interleaving, whatever was done before, the next message is received, if it has a payload, by the
   time the reader has taken seven steps more than it has words.
   */
  lemma MessageGetsThrough(size: nat, start: nat, before: seq<Step>, after: seq<Step>)
    requires start < size <= WRAP_WORDS
    ensures var s := Run(Init(size, start), before);
            && |s.received| < |s.accepted| && |s.accepted[|s.received|]| > HEADER_WORDS
            && Taken(s, after, false) >= |s.accepted[|s.received|]| + 7
            ==> s.accepted[..|s.received| + 1] <= Run(s, after).received
  {
    var s := Run(Init(size, start), before);
    RunKeepsInv(Init(size, start), before);
    if |s.received| < |s.accepted| && |s.accepted[|s.received|]| > HEADER_WORDS {
      assert s.accepted[|s.received|] == s.layout.Contents()[0];
      assert s.accepted[..|s.received| + 1] == s.received + [s.layout.Contents()[0]];
      NotThereYet(s);
      if Taken(s, after, false) >= |s.layout.Contents()[0]| + 7 {
        ReaderReceives(s, after);
      }
    }
  }

  lemma ReaderCanGoOn(s: State) returns (step: Step)
    requires Waiting(s)
    ensures Enabled(s, step) && !Writes(step)
  {
    FrontIsWhole(s.mem, s.layout);
    EmptyIffHeadMeetsTail(s.mem, s.layout);
    step := match s.r
      case Ready => ReadTail
      case TailRead(_) => Peek
      case AtTombstone => RereadTail
      case TailReread(_) => PeekZero
      case SizeRead(_, _, _) => CheckSize
      case Copying(_, n, got) => if |got| < n then CopyWord else Finish
      case Failed => ReadTail;
  }

  /** The reader alone receives the first unread message, and needs no more steps than that. */
  lemma {:induction false} ReaderAloneReceives(s: State) returns (schedule: seq<Step>)
    requires Waiting(s)
    ensures (forall step <- schedule :: !Writes(step)) && |schedule| <= |s.layout.Contents()[0]| + 7
    ensures |schedule| <= ToReceive(s) && Run(s, schedule).received == s.received + [s.layout.Contents()[0]]
    decreases ToReceive(s)
  {
    NotThereYet(s);
    var step := ReaderCanGoOn(s);
    StepKeepsInv(s, step);
    ReaderGoesOn(s, step);
    var rest: seq<Step> := [];
    if !step.Finish? {
      rest := ReaderAloneReceives(Next(s, step));
    }
    schedule := [step] + rest;
    assert schedule[1..] == rest;
  }

  // The writer

  /** The writer takes a package up exactly when the head it reads leaves room for it. */
  lemma BeginWritesIff(s: State, pkg: Words)
    requires Enabled(s, Begin(pkg))
    ensures var l, t := s.layout, Next(s, Begin(pkg));
            if (if l.tail < l.head then l.tail + |pkg| < l.head else l.tail + |pkg| < |s.mem| || |pkg| < l.head)
            then t.w.Writing? && t.w.pkg == pkg && t == s.(w := t.w)
            else t == s
  {
  }

  function ToPublish(w: Writer): nat
    requires w.Writing?
  {
    1 + (if w.done <= |w.pkg| then |w.pkg| - w.done else 0)
    + (if w.place.At? && w.place.tombstone && !w.marked then 1 else 0)
  }

  lemma WriterGoesOn(s: State, step: Step)
    requires Inv(s) && s.w.Writing? && Enabled(s, step) && Writes(step)
    ensures var t := Next(s, step);
            if step.Publish? then t.accepted == s.accepted + [s.w.pkg]
            else t.w.Writing? && t.w.pkg == s.w.pkg && t.accepted == s.accepted && ToPublish(t.w) < ToPublish(s.w)
  {
  }

  lemma {:induction false} AcceptedGrows(s: State, schedule: seq<Step>)
    ensures s.accepted <= Run(s, schedule).accepted
    decreases |schedule|
  {
    if schedule != [] {
      AcceptedGrows(if Enabled(s, schedule[0]) then Next(s, schedule[0]) else s, schedule[1..]);
    }
  }

  lemma {:induction false} WriterPublishes(s: State, schedule: seq<Step>)
    requires Inv(s) && s.w.Writing? && Taken(s, schedule, true) >= ToPublish(s.w)
    ensures s.accepted + [s.w.pkg] <= Run(s, schedule).accepted
    decreases |schedule|
  {
    var rest := schedule[1..];
    if !Enabled(s, schedule[0]) {
      WriterPublishes(s, rest);
    } else {
      var t := Next(s, schedule[0]);
      StepKeepsInv(s, schedule[0]);
      if Writes(schedule[0]) {
        WriterGoesOn(s, schedule[0]);
      }
      if schedule[0].Publish? {
        AcceptedGrows(t, rest);
      } else {
        WriterPublishes(t, rest);
      }
    }
  }

  /** In every interleaving a package taken up is published within its length and two of the writer's steps. */
  lemma PackageIsPublished(size: nat, start: nat, before: seq<Step>, after: seq<Step>)
    requires start < size <= WRAP_WORDS
    ensures var s := Run(Init(size, start), before);
            s.w.Writing? && Taken(s, after, true) >= |s.w.pkg| + 2 ==> s.accepted + [s.w.pkg] <= Run(s, after).accepted
  {
    var s := Run(Init(size, start), before);
    RunKeepsInv(Init(size, start), before);
    if s.w.Writing? && Taken(s, after, true) >= |s.w.pkg| + 2 {
      WriterPublishes(s, after);
    }
  }
}
