/**
 The ring a mailbox channel keeps in device SRAM, with one writer and one reader.

 Offsets and sizes are counted in 32-bit words. The driver counts bytes, and every
 byte offset it uses is four times the word offset used here.
 */
module MailboxRing {
  import opened Prelude

  const TOMBSTONE: u32 := 0xDEADFACE
  const HEADER_WORDS: nat := 4
  const WORD_BYTES: nat := 4
  // A u32 byte count wraps at 2^32, which is this many words.
  const WRAP_WORDS: nat := 0x4000_0000

  // A package as it lies in the ring: a four-word header, then the payload.
  type Words = seq<u32>

  /** The first header word is the payload size in bytes. */
  predicate IsPackage(p: Words) {
    |p| >= HEADER_WORDS && p[0] == WORD_BYTES * (|p| - HEADER_WORDS)
  }

  predicate HasPayload(p: Words) {
    |p| > HEADER_WORDS
  }

  /** Where the writer puts a package of `len` words, given the head it read and its own tail. */
  datatype Placement = NoSpace | At(offset: nat, tombstone: bool)

  function Place(size: nat, head: nat, tail: nat, len: nat): Placement {
    var end := tail + len;
    if tail < head && end >= head then NoSpace
    else if tail >= head && end > size - 1 && len >= head then NoSpace
    else if tail >= head && end > size - 1 then At(0, true)
    else At(tail, false)
  }

  /** A message of n words fits an empty ring wherever it stands if and only if 2n is below the size. */
  lemma EmptyRingAcceptsIff(size: nat, len: nat)
    requires size > 0 && len > 0
    ensures (forall p: nat | p < size :: Place(size, p, p, len).At?) <==> 2 * len < size
  {
    if 2 * len >= size {
      var p := if len < size then size - len else 0;
      assert p < size && Place(size, p, p, len).NoSpace?;
    }
  }

  // Layout of the unread packages

  /** The packages `ps` lie one after the other from `pos` up to `end`. */
  ghost predicate Chain(mem: seq<u32>, pos: nat, ps: seq<Words>, end: nat)
    requires end <= |mem|
    decreases |ps|
  {
    if ps == [] then pos == end
    else
      && IsPackage(ps[0]) && pos + |ps[0]| <= end
      && mem[pos..pos + |ps[0]|] == ps[0]
      && Chain(mem, pos + |ps[0]|, ps[1..], end)
  }

  lemma {:induction false} ChainBounds(mem: seq<u32>, pos: nat, ps: seq<Words>, end: nat)
    requires end <= |mem| && Chain(mem, pos, ps, end)
    ensures pos <= end && (pos == end <==> ps == [])
    decreases |ps|
  {
    if ps != [] {
      ChainBounds(mem, pos + |ps[0]|, ps[1..], end);
    }
  }

  lemma {:induction false} ChainFrame(mem: seq<u32>, mem': seq<u32>, pos: nat, ps: seq<Words>, end: nat)
    requires end <= |mem| == |mem'| && Chain(mem, pos, ps, end)
    requires forall i | pos <= i < end :: mem'[i] == mem[i]
    ensures Chain(mem', pos, ps, end)
    decreases |ps|
  {
    if ps != [] {
      ChainFrame(mem, mem', pos + |ps[0]|, ps[1..], end);
      assert mem'[pos..pos + |ps[0]|] == mem[pos..pos + |ps[0]|];
    }
  }

  lemma {:induction false} ChainAppend(mem: seq<u32>, pos: nat, ps: seq<Words>, end: nat, p: Words)
    requires end + |p| <= |mem| && Chain(mem, pos, ps, end)
    requires IsPackage(p) && mem[end..end + |p|] == p
    ensures Chain(mem, pos, ps + [p], end + |p|)
    decreases |ps|
  {
    if ps == [] {
      assert (ps + [p])[1..] == [];
    } else {
      ChainAppend(mem, pos + |ps[0]|, ps[1..], end, p);
      assert (ps + [p])[1..] == ps[1..] + [p];
      ChainBounds(mem, pos + |ps[0]|, ps[1..], end);
    }
  }

  /**
   The unread packages are `high + low`: `high` lies from the head up to `wrap`, and `low` lies
   from offset zero up to the tail once the writer has left a tombstone at `wrap`.
   */
  datatype Layout = Layout(head: nat, wrap: nat, tail: nat, high: seq<Words>, low: seq<Words>) {
    function Contents(): seq<Words> {
      high + low
    }

    // Where the first unread package lies.
    function FrontOffset(): nat {
      if high != [] then head else 0
    }

    function Pop(): (l: Layout)
      requires Contents() != []
      ensures l.Contents() == Contents()[1..]
    {
      if high != [] then this.(head := head + |high[0]|, high := high[1..])
      else Layout(|low[0]|, tail, tail, low[1..], [])
    }

    function Push(place: Placement, p: Words): (l: Layout)
      requires place.At?
      ensures l.Contents() == Contents() + [p]
    {
      var end := place.offset + |p|;
      if place.tombstone || low != [] then this.(tail := end, low := low + [p])
      else this.(wrap := end, tail := end, high := high + [p])
    }

    // The words the reader still has to find unchanged, the closing tombstone among them.
    predicate Unread(i: int) {
      head <= i < wrap || (low != [] && (i == wrap || 0 <= i < tail))
    }

    // The room a placement relies on. It stays whatever the reader has read since.
    predicate HasRoom(size: nat, place: Placement, len: nat) {
      && place.At? && place.offset + len < size
      && (if place.tombstone then place.offset == 0 && low == [] && len < head
          else place.offset == tail && (low != [] ==> tail + len < head))
    }
  }

  ghost predicate Laid(mem: seq<u32>, l: Layout) {
    && l.head <= l.wrap < |mem| <= WRAP_WORDS
    && Chain(mem, l.head, l.high, l.wrap)
    && (if l.low == [] then l.tail == l.wrap
        else l.tail < l.head && mem[l.wrap] == TOMBSTONE && Chain(mem, 0, l.low, l.tail))
  }

  /** Head and tail meet exactly when nothing is unread. */
  lemma EmptyIffHeadMeetsTail(mem: seq<u32>, l: Layout)
    requires Laid(mem, l)
    ensures l.head == l.tail <==> l.Contents() == []
  {
    ChainBounds(mem, l.head, l.high, l.wrap);
  }

  lemma FrontIsWhole(mem: seq<u32>, l: Layout)
    requires Laid(mem, l) && l.Contents() != []
    ensures var p, at := l.Contents()[0], l.FrontOffset();
            && IsPackage(p) && at + |p| <= |mem| && mem[at..at + |p|] == p
            && (l.high != [] ==> l.low != [] || at + |p| <= l.tail)
            && (l.high == [] ==> mem[l.head] == TOMBSTONE && |p| <= l.tail < l.head)
  {
  }

  lemma PopHighLaid(mem: seq<u32>, l: Layout)
    requires Laid(mem, l) && l.high != []
    ensures Laid(mem, l.Pop())
  {
    ChainBounds(mem, l.head + |l.high[0]|, l.high[1..], l.wrap);
  }

  lemma PopLowLaid(mem: seq<u32>, l: Layout)
    requires Laid(mem, l) && l.high == [] && l.low != []
    ensures Laid(mem, l.Pop())
  {
    ChainBounds(mem, |l.low[0]|, l.low[1..], l.tail);
  }

  lemma PopLaid(mem: seq<u32>, l: Layout)
    requires Laid(mem, l) && l.Contents() != []
    ensures Laid(mem, l.Pop())
  {
    if l.high != [] {
      PopHighLaid(mem, l);
    } else {
      PopLowLaid(mem, l);
    }
  }

  lemma UnreadWordsSuffice(mem: seq<u32>, mem': seq<u32>, l: Layout)
    requires Laid(mem, l) && |mem'| == |mem|
    requires forall i | 0 <= i < |mem| && l.Unread(i) :: mem'[i] == mem[i]
    ensures Laid(mem', l)
  {
    ChainFrame(mem, mem', l.head, l.high, l.wrap);
    if l.low != [] {
      assert l.Unread(l.wrap);
      ChainFrame(mem, mem', 0, l.low, l.tail);
    }
  }

  lemma PushHighLaid(mem: seq<u32>, l: Layout, p: Words)
    requires Laid(mem, l) && l.low == [] && IsPackage(p) && l.tail + |p| < |mem|
    requires mem[l.tail..l.tail + |p|] == p
    ensures Laid(mem, l.Push(At(l.tail, false), p))
  {
    ChainAppend(mem, l.head, l.high, l.tail, p);
  }

  lemma PushLowLaid(mem: seq<u32>, l: Layout, place: Placement, p: Words)
    requires Laid(mem, l) && IsPackage(p) && l.HasRoom(|mem|, place, |p|) && (place.tombstone || l.low != [])
    requires mem[place.offset..place.offset + |p|] == p && (place.tombstone ==> mem[l.tail] == TOMBSTONE)
    ensures Laid(mem, l.Push(place, p))
  {
    assert place.tombstone ==> Chain(mem, 0, l.low, 0);
    ChainAppend(mem, 0, l.low, place.offset, p);
  }

  /** Publishing the tail adds the package to the unread ones, once its words and tombstone are in place. */
  lemma PushLaid(mem: seq<u32>, l: Layout, place: Placement, p: Words)
    requires Laid(mem, l) && IsPackage(p) && l.HasRoom(|mem|, place, |p|)
    requires mem[place.offset..place.offset + |p|] == p && (place.tombstone ==> mem[l.tail] == TOMBSTONE)
    ensures Laid(mem, l.Push(place, p))
  {
    if place.tombstone || l.low != [] {
      PushLowLaid(mem, l, place, p);
    } else {
      PushHighLaid(mem, l, p);
    }
  }

  function Stored(mem: seq<u32>, at: nat, p: Words): (m: seq<u32>)
    requires at + |p| <= |mem|
  {
    mem[..at] + p + mem[at + |p|..]
  }

  /** Writing a package where it was placed changes no unread word, and publishing it then makes it the newest. */
  lemma SendKeepsLayout(mem: seq<u32>, l: Layout, place: Placement, p: Words, mem': seq<u32>)
    requires Laid(mem, l) && IsPackage(p) && place == Place(|mem|, l.head, l.tail, |p|) && place.At?
    requires mem' == Stored(if place.tombstone then mem[l.tail := TOMBSTONE] else mem, place.offset, p)
    ensures Laid(mem', l.Push(place, p))
    ensures forall i | 0 <= i < |mem| && l.Unread(i) :: mem'[i] == mem[i]
  {
    UnreadWordsSuffice(mem, mem', l);
    PushLaid(mem', l, place, p);
  }

  // Reading

  // What the reader finds from the head it holds, the tail it read and the ring's words.
  datatype Peek = Empty | BadTail | BadTombstone | FromZero | FromHead(offset: nat)

  function PeekAt(mem: seq<u32>, head: nat, tail: nat): Peek
    requires 0 < |mem| && head <= |mem|
  {
    if tail > |mem| then BadTail
    else if head == tail then Empty
    else
      var h := if head == |mem| then 0 else head;
      if mem[h] != TOMBSTONE then FromHead(h)
      else if h < tail then BadTombstone
      else FromZero
  }

  /**
   The size check on a package at `offset` of a ring of `size` words whose first word is `total`:
   its length when it passes. Both the sum and the difference wrap as u32.
   */
  function PackageSize(size: nat, offset: nat, tail: nat, total: u32): (r: Option<nat>)
    ensures r.Some? ==> offset + r.value <= size
  {
    if total == 0 || total % WORD_BYTES != 0 then None
    else
      var words := (HEADER_WORDS * WORD_BYTES + total) % TWO_32 / WORD_BYTES;
      if words > size - offset || words > (tail - offset) % WRAP_WORDS then None
      else Some(words)
  }

  /** A package lying whole at `offset` passes the check exactly when it has a payload, even on a stale tail. */
  lemma WholePackagePasses(size: nat, offset: nat, tail: nat, p: Words)
    requires offset + |p| <= size <= WRAP_WORDS && IsPackage(p)
    requires tail < offset || offset + |p| <= tail < size
    ensures PackageSize(size, offset, tail, p[0]) == if HasPayload(p) then Some(|p|) else None
  {
    assert tail < offset ==> (tail - offset) % WRAP_WORDS == tail - offset + WRAP_WORDS;
  }

  /** The peek goes to the first unread package: a size word is never taken for a tombstone, nor the reverse. */
  lemma PeekFindsFront(mem: seq<u32>, l: Layout)
    requires Laid(mem, l)
    ensures PeekAt(mem, l.head, l.tail)
         == if l.high != [] then FromHead(l.head) else if l.low != [] then FromZero else Empty
  {
    EmptyIffHeadMeetsTail(mem, l);
    if l.Contents() != [] {
      FrontIsWhole(mem, l);
      assert l.high != [] ==> mem[l.head] == l.high[0][0];
    }
  }

  datatype ReadResult = Timeout | NoMessage | Invalid | Message(pkg: Words, next: nat)

  function Read(mem: seq<u32>, head: nat, tail: nat): ReadResult
    requires 0 < |mem| && head <= |mem|
  {
    if tail == 0 then Timeout
    else
      var peek := PeekAt(mem, head, tail);
      if peek == Empty then NoMessage
      else if peek == BadTail || peek == BadTombstone then Invalid
      else
        var offset := if peek.FromHead? then peek.offset else 0;
        match PackageSize(|mem|, offset, tail, mem[offset])
        case None => Invalid
        case Some(n) => Message(mem[offset..offset + n], offset + n)
  }

  /** Reading returns the oldest unread package, and fails exactly when that package has no payload. */
  lemma ReadGetsFront(mem: seq<u32>, l: Layout)
    requires Laid(mem, l)
    ensures l.tail == 0 ==> l.Contents() == []
    ensures Read(mem, l.head, l.tail)
         == if l.tail == 0 then Timeout else if l.Contents() == [] then NoMessage
            else if HasPayload(l.Contents()[0]) then Message(l.Contents()[0], l.Pop().head) else Invalid
  {
    EmptyIffHeadMeetsTail(mem, l);
    PeekFindsFront(mem, l);
    if l.Contents() != [] {
      FrontIsWhole(mem, l);
      WholePackagePasses(|mem|, l.FrontOffset(), l.tail, l.Contents()[0]);
    }
  }

  class Ring {
    const mem: array<u32>
    var head: nat
    var tail: nat
    ghost var layout: Layout

    ghost predicate Valid()
      reads this, mem
    {
      head == layout.head && tail == layout.tail && Laid(mem[..], layout)
    }

    constructor (size: nat, start: nat)
      requires start < size <= WRAP_WORDS
      ensures Valid() && layout.Contents() == [] && head == tail == start && mem.Length == size && fresh(mem)
    {
      mem := new u32[size](_ => 0);
      head, tail := start, start;
      layout := Layout(start, start, start, [], []);
    }

    method Store(at: nat, words: Words)
      requires at + |words| <= mem.Length
      modifies mem
      ensures mem[..] == Stored(old(mem[..]), at, words)
    {
      forall i | 0 <= i < |words| {
        mem[at + i] := words[i];
      }
    }

    method SendMsg(pkg: Words) returns (ok: bool)
      requires Valid() && IsPackage(pkg)
      modifies this`tail, this`layout, mem
      ensures Valid() && head == old(head)
      ensures ok <==> if old(tail) < head then old(tail) + |pkg| < head
                      else old(tail) + |pkg| < mem.Length || |pkg| < head
      ensures layout.Contents() == if ok then old(layout.Contents()) + [pkg] else old(layout.Contents())
      ensures ok ==> tail > 0
      ensures forall i | 0 <= i < mem.Length && (!ok || old(layout).Unread(i)) :: mem[i] == old(mem[i])
    {
      var place := Place(mem.Length, head, tail, |pkg|);
      if place == NoSpace {
        return false;
      }
      ghost var before := mem[..];
      if place.tombstone {
        mem[tail] := TOMBSTONE;
      }
      assert mem[..] == if place.tombstone then before[tail := TOMBSTONE] else before;
      Store(place.offset, pkg);
      ghost var after := mem[..];
      SendKeepsLayout(before, layout, place, pkg, after);
      tail, layout := place.offset + |pkg|, layout.Push(place, pkg);
      assert mem[..] == after;
      return true;
    }

    method GetMsg() returns (r: ReadResult)
      requires Valid()
      modifies this`head, this`layout
      ensures Valid() && tail == old(tail)
      ensures var ps := old(layout.Contents());
              && (tail == 0 ==> ps == [])
              && r == (if tail == 0 then Timeout else if ps == [] then NoMessage
                       else if HasPayload(ps[0]) then Message(ps[0], head) else Invalid)
              && layout.Contents() == if r.Message? then ps[1..] else ps
      ensures !r.Message? ==> head == old(head)
    {
      ReadGetsFront(mem[..], layout);
      r := Read(mem[..], head, tail);
      if r.Message? {
        PopLaid(mem[..], layout);
        head, layout := r.next, layout.Pop();
      }
    }
  }
}
