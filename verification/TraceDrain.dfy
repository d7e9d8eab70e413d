/** Draining the firmware's trace ring into the kernel's log buffer. */
module TraceDrain {
  import opened Prelude

  type u8 = x: int | 0 <= x < 256

  const BUF_SIZE: nat := 0x2000
  const METADATA_SIZE: nat := 0x40
  const RING_SIZE: nat := BUF_SIZE - METADATA_SIZE

  /** The ring's bytes from h up to t, around its end if t comes first. */
  function Between(ring: seq<u8>, h: nat, t: nat): seq<u8>
    requires |ring| == RING_SIZE && h < RING_SIZE && t < RING_SIZE
  {
    if h <= t then ring[h..t] else ring[h..] + ring[..t]
  }

  /** How far a drain from h to t has come: at the start, past the ring's end, or at t. */
  predicate Reached(ring: seq<u8>, log: seq<u8>, h: nat, t: nat, total: nat, headPtr: nat, pieces: nat) {
    && |ring| == RING_SIZE && h < RING_SIZE && t < RING_SIZE && total <= RING_SIZE <= |log|
    && match pieces
       case 0 => total == 0 && headPtr == h
       case 1 =>
         if h < t then headPtr == t && log[..total] == ring[h..t]
         else t < h && headPtr == 0 && log[..total] == ring[h..]
       case _ => pieces == 2 && t < h && headPtr == t && log[..total] == ring[h..] + ring[..t]
  }

  lemma ReachedNext(ring: seq<u8>, log: seq<u8>, log': seq<u8>, h: nat, t: nat, total: nat, headPtr: nat, pieces: nat,
                    size: nat)
    requires Reached(ring, log, h, t, total, headPtr, pieces) && headPtr != t && (pieces == 0 || headPtr < t)
    requires size == if t > headPtr then t - headPtr else RING_SIZE - headPtr
    requires |log'| == |log| && headPtr + size <= RING_SIZE && total + size <= |log|
    requires log'[..total + size] == log[..total] + ring[headPtr..headPtr + size]
    ensures Reached(ring, log', h, t, total + size, (headPtr + size) % RING_SIZE, pieces + 1)
  {
    if pieces == 0 {
      assert log[..total] == [];
    }
  }

  lemma AllReached(ring: seq<u8>, log: seq<u8>, h: nat, t: nat, total: nat, headPtr: nat, pieces: nat)
    requires Reached(ring, log, h, t, total, headPtr, pieces) && pieces > 0 && headPtr >= t
    ensures total < RING_SIZE && pieces <= 2 && log[..total] == Between(ring, h, t)
  {
  }

  // What the ring holds

  /** The ring holds the last bytes of the stream, as far as it reaches back. */
  predicate Holds(ring: seq<u8>, stream: seq<u8>) {
    && |ring| == RING_SIZE
    && forall p | 0 <= p < |stream| && |stream| - RING_SIZE <= p :: ring[p % RING_SIZE] == stream[p]
  }

  lemma WriteHolds(ring: seq<u8>, stream: seq<u8>, b: u8)
    requires Holds(ring, stream)
    ensures Holds(ring[|stream| % RING_SIZE := b], stream + [b])
  {
    var t := |stream|;
    forall p | 0 <= p < t && t + 1 - RING_SIZE <= p
      ensures p % RING_SIZE != t % RING_SIZE
    {
      Around(p, t);
    }
  }

  /** The distance of two offsets less than a lap apart, from their places in the ring. */
  lemma Around(h: nat, t: nat)
    requires h <= t < h + RING_SIZE
    ensures var a, b := h % RING_SIZE, t % RING_SIZE; t - h == if a <= b then b - a else b + RING_SIZE - a
  {
    var q := h / RING_SIZE;
    assert h == q * RING_SIZE + h % RING_SIZE;
  }

  lemma WindowAt(ring: seq<u8>, stream: seq<u8>, head: nat, k: nat)
    requires Holds(ring, stream) && head + k < |stream| < head + RING_SIZE
    ensures var got := Between(ring, head % RING_SIZE, |stream| % RING_SIZE);
            k < |got| && got[k] == stream[head + k]
  {
    Around(head, |stream|);
    Around(head, head + k);
  }

  lemma WindowIsStream(ring: seq<u8>, stream: seq<u8>, head: nat)
    requires Holds(ring, stream) && head <= |stream| < head + RING_SIZE
    ensures Between(ring, head % RING_SIZE, |stream| % RING_SIZE) == stream[head..]
  {
    var got := Between(ring, head % RING_SIZE, |stream| % RING_SIZE);
    Around(head, |stream|);
    forall k | 0 <= k < |stream| - head
      ensures k < |got| && got[k] == stream[head + k]
    {
      WindowAt(ring, stream, head, k);
    }
  }

  /** The drained bytes are exactly the window from head to tail if and only if it is shorter than the ring. */
  lemma WindowIff(ring: seq<u8>, stream: seq<u8>, head: nat)
    requires Holds(ring, stream) && head <= |stream|
    ensures Between(ring, head % RING_SIZE, |stream| % RING_SIZE) == stream[head..] <==> |stream| - head < RING_SIZE
  {
    var tail := |stream|;
    var got := Between(ring, head % RING_SIZE, tail % RING_SIZE);
    if tail - head < RING_SIZE {
      WindowIsStream(ring, stream, head);
    } else {
      assert |got| < RING_SIZE <= |stream[head..]|;
    }
  }

  /** After exactly one lap the drain finds nothing. */
  lemma WholeLapLooksEmpty(ring: seq<u8>, stream: seq<u8>)
    requires Holds(ring, stream) && |stream| == RING_SIZE
    ensures Between(ring, 0, |stream| % RING_SIZE) == []
  {
  }

  lemma DrainTells(ring: seq<u8>, stream: seq<u8>, head: nat, tail: nat, got: seq<u8>)
    requires |ring| == RING_SIZE && got == Between(ring, head % RING_SIZE, tail % TWO_32 % RING_SIZE)
    ensures Holds(ring, stream) && head <= tail == |stream| < TWO_32 ==>
              (got == stream[head..] <==> tail - head < RING_SIZE)
  {
    if Holds(ring, stream) && head <= tail == |stream| < TWO_32 {
      WindowIff(ring, stream, head);
    }
  }

  class Trace {
    const ring: array<u8>
    const log: array<u8>
    var head: u64
    var tail: u64

    ghost predicate Valid() {
      ring.Length == RING_SIZE && log.Length == BUF_SIZE && ring != log
    }

    method Copy(to: nat, from: nat, size: nat)
      requires Valid() && from + size <= RING_SIZE && to + size <= BUF_SIZE
      modifies log
      ensures log[..to + size] == old(log[..to]) + ring[from..from + size]
      ensures log[to + size..] == old(log[to + size..])
    {
      for i := 0 to size
        invariant log[..to + i] == old(log[..to]) + ring[from..from + i]
        invariant log[to + i..] == old(log[to + i..])
      {
        log[to + i] := ring[from + i];
        assert log[..to + i + 1] == log[..to + i] + [ring[from + i]];
      }
    }

    /** Copy from the head to the tail, or only to the ring's end if that comes first. */
    method CopyPiece(h: nat, t: nat, total: nat, headPtr: nat, ghost pieces: nat) returns (total': nat, headPtr': nat)
      requires Valid() && Reached(ring[..], log[..], h, t, total, headPtr, pieces) && headPtr != t
      requires pieces == 0 || headPtr < t
      modifies log
      ensures Reached(ring[..], log[..], h, t, total', headPtr', pieces + 1)
      ensures total <= total' && log[total'..] == old(log[total'..])
    {
      var size := if t > headPtr then t - headPtr else RING_SIZE - headPtr;
      ghost var before := log[..];
      Copy(total, headPtr, size);
      ReachedNext(ring[..], before, log[..], h, t, total, headPtr, pieces, size);
      total', headPtr' := total + size, (headPtr + size) % RING_SIZE;
    }

    method CopyOut(h: nat, t: nat) returns (total: nat, ghost pieces: nat)
      requires Valid() && h < RING_SIZE && t < RING_SIZE
      modifies log
      ensures total < RING_SIZE && pieces <= 2
      ensures log[..total] == Between(ring[..], h, t) && log[total..] == old(log[total..])
    {
      total, pieces := 0, 0;
      if h == t {
        return;
      }
      var headPtr: nat := h;
      var more := true;
      while more
        invariant Reached(ring[..], log[..], h, t, total, headPtr, pieces)
        invariant log[total..] == old(log[total..])
        invariant if more then headPtr != t && (pieces == 0 || headPtr < t) else pieces > 0 && headPtr >= t
        decreases more, 2 - pieces
      {
        total, headPtr := CopyPiece(h, t, total, headPtr, pieces);
        pieces := pieces + 1;
        more := headPtr < t;
      }
      AllReached(ring[..], log[..], h, t, total, headPtr, pieces);
    }

    /**
     One drain. It copies, in at most two pieces and inside the log buffer, the ring's bytes between the two
     offsets, and moves the head to the tail as read, in 32 bits. If the ring holds the end of a stream and the
     offsets are positions in it, these bytes are the stream from the head on exactly below one lap.
     */
    method Drain(ghost stream: seq<u8>) returns (total: nat, ghost pieces: nat)
      requires Valid()
      modifies this`head, log
      ensures total < RING_SIZE && pieces <= 2
      ensures log[..total] == Between(ring[..], old(head) % RING_SIZE, tail % TWO_32 % RING_SIZE)
      ensures log[total..] == old(log[total..])
      ensures head == tail % TWO_32
      ensures Holds(ring[..], stream) && old(head) <= tail == |stream| < TWO_32 ==>
                (log[..total] == stream[old(head)..] <==> tail - old(head) < RING_SIZE)
    {
      ghost var from := head;
      var headPtr := head % RING_SIZE;
      var tailPtr := tail % TWO_32;
      head := tailPtr;
      total, pieces := CopyOut(headPtr, tailPtr % RING_SIZE);
      DrainTells(ring[..], stream, from, tail, log[..total]);
    }
  }

  // Runs

  datatype Event = Produced(b: u8) | Drained

  /** The firmware's ring and offsets, all bytes produced so far, and all bytes drained so far. */
  datatype State = State(ring: seq<u8>, head: nat, stream: seq<u8>, out: seq<u8>)

  ghost predicate Step(s: State, e: Event, t: State)
    requires |s.ring| == RING_SIZE
  {
    match e
    case Produced(b) =>
      t == s.(ring := s.ring[|s.stream| % RING_SIZE := b], stream := s.stream + [b])
    case Drained =>
      t == s.(head := |s.stream| % TWO_32,
              out := s.out + Between(s.ring, s.head % RING_SIZE, |s.stream| % TWO_32 % RING_SIZE))
  }

  ghost predicate IsRun(states: seq<State>, events: seq<Event>) {
    && |states| == |events| + 1
    && |states[0].ring| == RING_SIZE && states[0] == State(states[0].ring, 0, [], [])
    && forall i | 0 <= i < |events| :: |states[i].ring| == RING_SIZE && Step(states[i], events[i], states[i + 1])
  }

  /** What was drained is the stream up to the head. */
  predicate Faithful(s: State) {
    Holds(s.ring, s.stream) && s.head <= |s.stream| && s.out == s.stream[..s.head]
  }

  lemma ProducedStaysFaithful(s: State, b: u8, t: State)
    requires Faithful(s) && Step(s, Produced(b), t)
    ensures Faithful(t)
  {
    WriteHolds(s.ring, s.stream, b);
  }

  /** A drain keeps the output faithful exactly when less than a whole ring was produced since the last one. */
  lemma DrainedStaysFaithfulIff(s: State, t: State)
    requires Faithful(s) && |s.stream| < TWO_32 && Step(s, Drained, t)
    ensures Faithful(t) <==> |s.stream| - s.head < RING_SIZE
    ensures Faithful(t) ==> t.out == t.stream
  {
    var got := Between(s.ring, s.head % RING_SIZE, |s.stream| % RING_SIZE);
    WindowIff(s.ring, s.stream, s.head);
    assert t.stream == s.stream && t.out == s.out + got && t.head == |s.stream|;
    Cancel(s.stream, s.head, got);
    assert t.stream[..t.head] == t.stream;
  }

  lemma Cancel(stream: seq<u8>, head: nat, got: seq<u8>)
    requires head <= |stream|
    ensures stream[..head] + got == stream <==> got == stream[head..]
  {
    assert stream == stream[..head] + stream[head..];
    assert (stream[..head] + got)[head..] == got;
  }

  /** The window is shorter than the ring, and the tail is below 2^32. */
  predicate KeepsUp(s: State) {
    |s.stream| < TWO_32 && |s.stream| - s.head < RING_SIZE
  }

  /** Over any run whose drains keep up, what was drained is the stream that was produced, up to the head. */
  lemma {:induction false} DrainsGiveTheStream(states: seq<State>, events: seq<Event>, i: nat)
    requires IsRun(states, events) && i < |states|
    requires forall j | 0 <= j < i && events[j] == Drained :: KeepsUp(states[j])
    ensures Faithful(states[i])
  {
    if i > 0 {
      var s, t, e := states[i - 1], states[i], events[i - 1];
      DrainsGiveTheStream(states, events, i - 1);
      assert Step(s, e, t);
      if e == Drained {
        assert KeepsUp(s);
        DrainedStaysFaithfulIff(s, t);
      } else {
        ProducedStaysFaithful(s, e.b, t);
      }
    }
  }
}
