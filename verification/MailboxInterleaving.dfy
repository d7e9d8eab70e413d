/**
 The mailbox ring with its writer and its reader running at the same time. Each step does at most
 one access to a shared word or register, so a run is any interleaving of the two sides.
 */
module MailboxInterleaving {
  import opened Prelude
  import opened MailboxRing

  // Where the writer stands. It fixed `place` from the head it read when it began.
  datatype Writer = Idle | Writing(pkg: Words, place: Placement, marked: bool, done: nat)

  // Where the reader stands, with the tail it last read.
  datatype Reader =
    | Ready
    | TailRead(tail: nat)
    | AtTombstone
    | TailReread(tail: nat)
    | SizeRead(offset: nat, tail: nat, total: u32)
    | Copying(offset: nat, len: nat, got: Words)
    | Failed

  /**
   The shared words and the two registers `layout.head` and `layout.tail`. The rest of `layout`, and
   the packages accepted and received so far, record the history; no step is decided by them.
   */
  datatype State = State(mem: seq<u32>, layout: Layout, w: Writer, r: Reader,
                         accepted: seq<Words>, received: seq<Words>)

  datatype Step =
    | Begin(pkg: Words) | Mark | WriteWord | Publish
    | ReadTail | Peek | RereadTail | PeekZero | CheckSize | CopyWord | Finish

  predicate Writes(step: Step) {
    step.Begin? || step.Mark? || step.WriteWord? || step.Publish?
  }

  function Init(size: nat, start: nat): State
    requires start < size
  {
    State(seq(size, _ => 0), Layout(start, start, start, [], []), Idle, Ready, [], [])
  }

  predicate Enabled(s: State, step: Step) {
    match step
    case Begin(pkg) => s.w.Idle? && IsPackage(pkg)
    case Mark => s.w.Writing? && s.w.place.At? && s.w.place.tombstone && !s.w.marked
                 && s.layout.tail < |s.mem|
    case WriteWord => s.w.Writing? && s.w.place.At? && (s.w.place.tombstone ==> s.w.marked)
                      && s.w.done < |s.w.pkg| && s.w.place.offset + s.w.done < |s.mem|
    case Publish => s.w.Writing? && s.w.place.At? && s.w.done == |s.w.pkg|
    case ReadTail => s.r.Ready? && s.layout.tail != 0
    case Peek => s.r.TailRead? && 0 < |s.mem| && s.layout.head <= |s.mem|
    case RereadTail => s.r.AtTombstone? && s.layout.tail != 0
    case PeekZero => s.r.TailReread? && 0 < |s.mem|
    case CheckSize => s.r.SizeRead?
    case CopyWord => s.r.Copying? && |s.r.got| < s.r.len && s.r.offset + |s.r.got| < |s.mem|
    case Finish => s.r.Copying? && |s.r.got| == s.r.len && s.layout.Contents() != []
  }

  function Next(s: State, step: Step): State
    requires Enabled(s, step)
  {
    var l, size := s.layout, |s.mem|;
    match step
    case Begin(pkg) =>
      var place := Place(size, l.head, l.tail, |pkg|);
      if place.NoSpace? then s else s.(w := Writing(pkg, place, false, 0))
    case Mark => s.(mem := s.mem[l.tail := TOMBSTONE], w := s.w.(marked := true))
    case WriteWord =>
      s.(mem := s.mem[s.w.place.offset + s.w.done := s.w.pkg[s.w.done]], w := s.w.(done := s.w.done + 1))
    case Publish =>
      s.(layout := l.Push(s.w.place, s.w.pkg), w := Idle, accepted := s.accepted + [s.w.pkg])
    case ReadTail => s.(r := TailRead(l.tail))
    case Peek =>
      var next := match PeekAt(s.mem, l.head, s.r.tail)
        case Empty => Ready
        case BadTail => Failed
        case BadTombstone => Failed
        case FromZero => AtTombstone
        case FromHead(h) => SizeRead(h, s.r.tail, s.mem[h]);
      s.(r := next)
    case RereadTail => s.(r := if l.tail > size then Failed else TailReread(l.tail))
    case PeekZero => s.(r := SizeRead(0, s.r.tail, s.mem[0]))
    case CheckSize =>
      var next := match PackageSize(size, s.r.offset, s.r.tail, s.r.total)
        case None => Failed
        case Some(n) => Copying(s.r.offset, n, []);
      s.(r := next)
    case CopyWord => s.(r := s.r.(got := s.r.got + [s.mem[s.r.offset + |s.r.got|]]))
    case Finish =>
      // The register gets the offset after the package just read; Inv ties it to Pop.
      s.(layout := l.Pop().(head := s.r.offset + s.r.len), r := Ready, received := s.received + [s.r.got])
  }

  // The inductive invariant

  ghost predicate WriterInv(mem: seq<u32>, l: Layout, w: Writer) {
    w.Writing? ==>
      && IsPackage(w.pkg) && l.HasRoom(|mem|, w.place, |w.pkg|) && w.done <= |w.pkg|
      && mem[w.place.offset..w.place.offset + w.done] == w.pkg[..w.done]
      && (w.marked ==> w.place.tombstone && l.tail < |mem| && mem[l.tail] == TOMBSTONE)
      && (w.place.tombstone && w.done > 0 ==> w.marked)
  }

  ghost predicate ReaderInv(size: nat, l: Layout, r: Reader) {
    match r
    case Ready => true
    case TailRead(t) =>
      && t < size
      && (t < l.head ==> l.low != [])
      && (t > l.head ==> l.high != [] && l.head + |l.high[0]| <= t)
    case AtTombstone => l.high == [] && l.low != []
    case TailReread(t) => l.high == [] && l.low != [] && |l.low[0]| <= t < size
    case SizeRead(o, t, total) =>
      && l.Contents() != [] && o == l.FrontOffset() && IsPackage(l.Contents()[0]) && total == l.Contents()[0][0]
      && (t < o || o + |l.Contents()[0]| <= t < size)
    case Copying(o, n, got) =>
      && l.Contents() != [] && o == l.FrontOffset() && n == |l.Contents()[0]|
      && |got| <= n && got == l.Contents()[0][..|got|]
    case Failed => l.Contents() != [] && !HasPayload(l.Contents()[0])
  }

  ghost predicate Inv(s: State) {
    && Laid(s.mem, s.layout)
    && s.accepted == s.received + s.layout.Contents()
    && WriterInv(s.mem, s.layout, s.w)
    && ReaderInv(|s.mem|, s.layout, s.r)
  }

  lemma BeginKeepsInv(s: State, pkg: Words)
    requires Inv(s) && Enabled(s, Begin(pkg))
    ensures Inv(Next(s, Begin(pkg)))
  {
  }

  lemma MarkKeepsInv(s: State)
    requires Inv(s) && Enabled(s, Mark)
    ensures Inv(Next(s, Mark))
  {
    UnreadWordsSuffice(s.mem, Next(s, Mark).mem, s.layout);
  }

  lemma WriteKeepsWriterInv(mem: seq<u32>, l: Layout, w: Writer)
    requires Laid(mem, l) && WriterInv(mem, l, w)
    requires w.Writing? && w.done < |w.pkg| && (w.place.tombstone ==> w.marked)
    ensures WriterInv(mem[w.place.offset + w.done := w.pkg[w.done]], l, w.(done := w.done + 1))
  {
    var at, mem' := w.place.offset, mem[w.place.offset + w.done := w.pkg[w.done]];
    assert mem'[at..at + w.done + 1] == mem[at..at + w.done] + [w.pkg[w.done]];
  }

  lemma WriteKeepsInv(s: State)
    requires Inv(s) && Enabled(s, WriteWord)
    ensures Inv(Next(s, WriteWord))
  {
    WriteKeepsWriterInv(s.mem, s.layout, s.w);
    UnreadWordsSuffice(s.mem, Next(s, WriteWord).mem, s.layout);
  }

  lemma PublishKeepsInv(s: State)
    requires Inv(s) && Enabled(s, Publish)
    ensures Inv(Next(s, Publish))
  {
    PushLaid(s.mem, s.layout, s.w.place, s.w.pkg);
  }

  lemma ReadTailKeepsInv(s: State)
    requires Inv(s) && Enabled(s, ReadTail)
    ensures Inv(Next(s, ReadTail))
  {
    EmptyIffHeadMeetsTail(s.mem, s.layout);
    if s.layout.Contents() != [] {
      FrontIsWhole(s.mem, s.layout);
    }
  }

  lemma PeekKeepsInv(s: State, step: Step)
    requires Inv(s) && Enabled(s, step) && (step.Peek? || step.PeekZero?)
    ensures Inv(Next(s, step))
  {
    if s.layout.Contents() != [] {
      FrontIsWhole(s.mem, s.layout);
      assert s.mem[s.layout.FrontOffset()] == s.layout.Contents()[0][0];
    }
  }

  lemma ReaderKeepsInv(s: State, step: Step)
    requires Inv(s) && Enabled(s, step) && (step.RereadTail? || step.CheckSize? || step.CopyWord?)
    ensures Inv(Next(s, step))
  {
    FrontIsWhole(s.mem, s.layout);
    var p := s.layout.Contents()[0];
    if step.CheckSize? {
      WholePackagePasses(|s.mem|, s.r.offset, s.r.tail, p);
    }
  }

  /** Room found with an older head is still there after the reader moves on. */
  lemma PopKeepsWriterInv(mem: seq<u32>, l: Layout, w: Writer)
    requires Laid(mem, l) && WriterInv(mem, l, w) && l.Contents() != []
    ensures WriterInv(mem, l.Pop(), w)
  {
    ChainBounds(mem, l.head, l.high, l.wrap);
  }

  lemma FinishKeepsInv(s: State)
    requires Inv(s) && Enabled(s, Finish)
    ensures Inv(Next(s, Finish))
  {
    var l, t := s.layout, Next(s, Finish);
    PopLaid(s.mem, l);
    PopKeepsWriterInv(s.mem, l, s.w);
    assert s.r.got == l.Contents()[0];
    assert t.layout == l.Pop();
    assert l.Contents() == [s.r.got] + t.layout.Contents();
    assert t.received + t.layout.Contents() == s.received + l.Contents();
  }

  lemma StepKeepsInv(s: State, step: Step)
    requires Inv(s) && Enabled(s, step)
    ensures Inv(Next(s, step))
  {
    match step
    case Begin(pkg) => BeginKeepsInv(s, pkg);
    case Mark => MarkKeepsInv(s);
    case WriteWord => WriteKeepsInv(s);
    case Publish => PublishKeepsInv(s);
    case ReadTail => ReadTailKeepsInv(s);
    case Peek => PeekKeepsInv(s, step);
    case PeekZero => PeekKeepsInv(s, step);
    case RereadTail => ReaderKeepsInv(s, step);
    case CheckSize => ReaderKeepsInv(s, step);
    case CopyWord => ReaderKeepsInv(s, step);
    case Finish => FinishKeepsInv(s);
  }

  // Runs

  /** The state after a schedule; a step that is not enabled when its turn comes does nothing. */
  function Run(s: State, schedule: seq<Step>): State
    decreases |schedule|
  {
    if schedule == [] then s
    else Run(if Enabled(s, schedule[0]) then Next(s, schedule[0]) else s, schedule[1..])
  }

  lemma {:induction false} RunKeepsInv(s: State, schedule: seq<Step>)
    requires Inv(s)
    ensures Inv(Run(s, schedule))
    decreases |schedule|
  {
    if schedule != [] {
      if Enabled(s, schedule[0]) {
        StepKeepsInv(s, schedule[0]);
      }
      RunKeepsInv(if Enabled(s, schedule[0]) then Next(s, schedule[0]) else s, schedule[1..]);
    }
  }

  /**
   In every interleaving the reader receives exactly the accepted packages, in order and intact;
   the registers meet exactly when nothing is unread; and the reader's error checks fire only on a
   package without payload.
   */
  lemma ReaderGetsWhatWasAccepted(size: nat, start: nat, schedule: seq<Step>)
    requires start < size <= WRAP_WORDS
    ensures var s := Run(Init(size, start), schedule);
            && s.accepted == s.received + s.layout.Contents()
            && (s.layout.head == s.layout.tail <==> s.received == s.accepted)
            && (s.r.Copying? ==> |s.received| < |s.accepted| && s.r.got <= s.accepted[|s.received|])
            && (s.r.Failed? ==> |s.received| < |s.accepted| && !HasPayload(s.accepted[|s.received|]))
  {
    RunKeepsInv(Init(size, start), schedule);
    var s := Run(Init(size, start), schedule);
    EmptyIffHeadMeetsTail(s.mem, s.layout);
  }

  /** In every interleaving, no step changes a word the reader has not yet read. */
  lemma UnreadWordsStay(size: nat, start: nat, schedule: seq<Step>, step: Step, i: nat)
    requires start < size <= WRAP_WORDS
    requires var s := Run(Init(size, start), schedule); Enabled(s, step) && i < |s.mem| && s.layout.Unread(i)
    ensures var s := Run(Init(size, start), schedule);
            |Next(s, step).mem| == |s.mem| && Next(s, step).mem[i] == s.mem[i]
  {
    RunKeepsInv(Init(size, start), schedule);
  }

  lemma InvLetsBothGoOn(s: State)
    requires Inv(s)
    ensures s.w.Writing? ==> Enabled(s, Mark) || Enabled(s, WriteWord) || Enabled(s, Publish)
    ensures s.r.Ready? || s.r.Failed? || Enabled(s, Peek) || Enabled(s, RereadTail) || Enabled(s, PeekZero)
         || Enabled(s, CheckSize) || Enabled(s, CopyWord) || Enabled(s, Finish)
  {
    if s.layout.Contents() != [] {
      FrontIsWhole(s.mem, s.layout);
    }
  }

  /** In every interleaving a side in the middle of its work can go on: no access is out of the ring. */
  lemma NoSideBlocks(size: nat, start: nat, schedule: seq<Step>)
    requires start < size <= WRAP_WORDS
    ensures var s := Run(Init(size, start), schedule);
            && (s.w.Writing? ==> Enabled(s, Mark) || Enabled(s, WriteWord) || Enabled(s, Publish))
            && (s.r.Ready? || s.r.Failed? || Enabled(s, Peek) || Enabled(s, RereadTail) || Enabled(s, PeekZero)
                || Enabled(s, CheckSize) || Enabled(s, CopyWord) || Enabled(s, Finish))
  {
    RunKeepsInv(Init(size, start), schedule);
    InvLetsBothGoOn(Run(Init(size, start), schedule));
  }
}
