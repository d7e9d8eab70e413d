/**
 When a user channel's responses come back in the order of its sends, which of them pass the
 contiguity check on message ids.
 */
module MailboxContiguity {
  import opened Prelude
  import opened MailboxChannel

  type Entry = n: nat | n < ID_LIMIT

  // A send that finds room in the ring or not, or the response to the oldest outstanding message.
  datatype Event = Send(fits: bool) | Respond

  /** An outstanding message, and whether its id was zero or one above that of the message accepted before it. */
  datatype Sent = Sent(id: Entry, follows: bool)

  // `last` and `lastSent` are the entries of the message answered last and of the one accepted last.
  datatype State = State(queue: seq<Sent>, next: nat, last: Option<Entry>, lastSent: Option<Entry>, answered: nat)

  const INIT := State([], 0, None, None, 0)

  function MessageId(entry: Entry): u32 {
    MAGIC + entry
  }

  // The last id register is zero until the first response.
  function LastId(last: Option<Entry>): u32 {
    if last.None? then 0 else MessageId(last.value)
  }

  predicate Follows(previous: Option<Entry>, id: Entry) {
    id == 0 || (previous.Some? && id == previous.value + 1)
  }

  lemma CheckIsFollows(last: Option<Entry>, id: Entry)
    ensures ValidId(User, LastId(last), MessageId(id)) <==> Follows(last, id)
  {
  }

  function Ids(queue: seq<Sent>): set<nat> {
    set m <- queue :: m.id
  }

  function Alloc(s: State): (r: Option<Entry>)
  {
    match AllocCyclic(Ids(s.queue), s.next)
    case None => None
    case Some(id) => Some(id)
  }

  function Step(s: State, e: Event): State {
    match e
    case Send(fits) =>
      var id := Alloc(s);
      if id.None? then s
      else if !fits then s.(next := id.value + 1)
      else s.(next := id.value + 1, lastSent := id,
              queue := s.queue + [Sent(id.value, Follows(s.lastSent, id.value))])
    case Respond =>
      if s.queue == [] then s
      else s.(queue := s.queue[1..], last := Some(s.queue[0].id), answered := s.answered + 1)
  }

  function Run(s: State, events: seq<Event>): State
    decreases |events|
  {
    if events == [] then s else Run(Step(s, events[0]), events[1..])
  }

  // The entry of the message accepted before the i-th outstanding one.
  function Previous(s: State, i: nat): Option<Entry>
    requires i <= |s.queue|
  {
    if i > 0 then Some(s.queue[i - 1].id) else s.last
  }

  predicate Inv(s: State) {
    && s.lastSent == Previous(s, |s.queue|)
    && forall i | 0 <= i < |s.queue| :: s.queue[i].follows == Follows(Previous(s, i), s.queue[i].id)
  }

  lemma StepKeepsInv(s: State, e: Event)
    requires Inv(s)
    ensures Inv(Step(s, e))
  {
    var t := Step(s, e);
    if e.Respond? && s.queue != [] {
      assert forall i | 0 <= i <= |t.queue| :: Previous(t, i) == Previous(s, i + 1);
    } else {
      assert forall i | 0 <= i <= |s.queue| :: Previous(t, i) == Previous(s, i);
    }
  }

  lemma {:induction false} RunKeepsInv(s: State, events: seq<Event>)
    requires Inv(s)
    ensures Inv(Run(s, events))
    decreases |events|
  {
    if events != [] {
      StepKeepsInv(s, events[0]);
      RunKeepsInv(Step(s, events[0]), events[1..]);
    }
  }

  /** The oldest outstanding message's response would pass the channel's check. */
  predicate Passes(s: State) {
    s.queue != [] ==> ValidId(User, LastId(s.last), MessageId(s.queue[0].id))
  }

  /**
   In any run, the response to a message passes the check if and only if the message was sent with
   id zero or with the id after that of the message accepted before it.
   */
  lemma PassesIffSentInSequence(events: seq<Event>)
    ensures var s := Run(INIT, events); s.queue != [] ==> (Passes(s) <==> s.queue[0].follows)
  {
    RunKeepsInv(INIT, events);
    var s := Run(INIT, events);
    if s.queue != [] {
      CheckIsFollows(s.last, s.queue[0].id);
    }
  }

  // Runs in which every send finds room

  /** The entry handed out after n others. */
  function Wrapped(n: nat): Entry {
    n % ID_LIMIT
  }

  lemma CloseEntriesDiffer(m: nat, n: nat)
    requires m < n < m + ID_LIMIT
    ensures Wrapped(m) != Wrapped(n)
  {
  }

  /** The outstanding ids are consecutive modulo 256, and the cursor is at the next one. */
  predicate Consecutive(s: State) {
    var sent := s.answered + |s.queue|;
    && |s.queue| <= ID_LIMIT
    && (s.next == Wrapped(sent) || (s.next == ID_LIMIT && Wrapped(sent) == 0))
    && s.lastSent == (if sent == 0 then None else Some(Wrapped(sent - 1)))
    && (forall i | 0 <= i < |s.queue| :: s.queue[i] == Sent(Wrapped(s.answered + i), true))
  }

  lemma NextIdIsFree(s: State)
    requires Consecutive(s) && |s.queue| < ID_LIMIT
    ensures Alloc(s) == Some(Wrapped(s.answered + |s.queue|))
  {
    var n := s.answered + |s.queue|;
    forall i | 0 <= i < |s.queue|
      ensures s.queue[i].id != Wrapped(n)
    {
      CloseEntriesDiffer(s.answered + i, n);
    }
    assert Wrapped(n) !in Ids(s.queue);
  }

  lemma EveryEntryComesRound(n: nat, id: Entry) returns (i: nat)
    ensures i < ID_LIMIT && Wrapped(n + i) == id
  {
    i := (id - n) % ID_LIMIT;
    assert n + i == id - (id - n) / ID_LIMIT * ID_LIMIT;
  }

  lemma FullTableRefuses(s: State)
    requires Consecutive(s) && |s.queue| == ID_LIMIT
    ensures Alloc(s) == None
  {
    forall id | 0 <= id < ID_LIMIT
      ensures id in Ids(s.queue)
    {
      var i := EveryEntryComesRound(s.answered, id);
      assert s.queue[i].id == id;
    }
  }

  lemma NextTurn(k: nat, n: nat)
    requires n > 0
    ensures (k + 1) % n == if k % n + 1 < n then k % n + 1 else 0
  {
    if k % n + 1 < n {
      QuotientIs(k + 1, n, k / n, k % n + 1);
    } else {
      QuotientIs(k + 1, n, k / n + 1, 0);
    }
  }

  lemma InSequence(n: nat)
    ensures Follows(if n == 0 then None else Some(Wrapped(n - 1)), Wrapped(n))
    ensures Wrapped(n) + 1 == Wrapped(n + 1) || (Wrapped(n) + 1 == ID_LIMIT && Wrapped(n + 1) == 0)
  {
    NextTurn(n, ID_LIMIT);
    if n > 0 {
      NextTurn(n - 1, ID_LIMIT);
    }
  }

  lemma SendStaysConsecutive(s: State)
    requires Consecutive(s)
    ensures Consecutive(Step(s, Send(true)))
  {
    var n := s.answered + |s.queue|;
    if |s.queue| < ID_LIMIT {
      NextIdIsFree(s);
      InSequence(n);
    } else {
      FullTableRefuses(s);
    }
  }

  lemma RespondStaysConsecutive(s: State)
    requires Consecutive(s)
    ensures Consecutive(Step(s, Respond))
  {
    var t := Step(s, Respond);
    if s.queue != [] {
      assert forall i | 0 <= i < |t.queue| :: t.queue[i] == s.queue[i + 1];
    }
  }

  lemma {:induction false} RunStaysConsecutive(s: State, events: seq<Event>)
    requires Consecutive(s) && Send(false) !in events
    ensures Consecutive(Run(s, events))
    decreases |events|
  {
    if events != [] {
      if events[0].Send? {
        SendStaysConsecutive(s);
      } else {
        RespondStaysConsecutive(s);
      }
      RunStaysConsecutive(Step(s, events[0]), events[1..]);
    }
  }

  /** While every send finds room, every response passes, however long the run and across every wrap at 256. */
  lemma InOrderResponsesPass(events: seq<Event>)
    requires Send(false) !in events
    ensures Passes(Run(INIT, events))
  {
    RunStaysConsecutive(INIT, events);
    PassesIffSentInSequence(events);
  }

  // Sends that find no room

  /** The states met along sends in a row that find no room. */
  ghost predicate Refusals(trace: seq<State>) {
    trace != [] && forall i | 0 < i < |trace| :: trace[i] == Step(trace[i - 1], Send(false))
  }

  /** The free ids from a up to b, ascending. */
  function FreeFrom(used: set<nat>, a: nat, b: nat): seq<nat>
    decreases b - a
  {
    if a >= b then [] else if a in used then FreeFrom(used, a + 1, b) else [a] + FreeFrom(used, a + 1, b)
  }

  lemma {:induction false} FreeFromHas(used: set<nat>, a: nat, b: nat, id: nat)
    ensures id in FreeFrom(used, a, b) <==> a <= id < b && id !in used
    decreases b - a
  {
    if a < b {
      FreeFromHas(used, a + 1, b, id);
    }
  }

  lemma {:induction false} FreeFromSplits(used: set<nat>, a: nat, b: nat, c: nat)
    requires a <= b <= c
    ensures FreeFrom(used, a, c) == FreeFrom(used, a, b) + FreeFrom(used, b, c)
    decreases b - a
  {
    if a < b {
      FreeFromSplits(used, a + 1, b, c);
    }
  }

  /** After its i-th id a list of free ids goes on with those above it. */
  lemma {:induction false} FreeFromRest(used: set<nat>, a: nat, b: nat, i: nat)
    requires i < |FreeFrom(used, a, b)|
    ensures var l := FreeFrom(used, a, b); a <= l[i] < b && FreeFrom(used, l[i] + 1, b) == l[i + 1..]
    decreases b - a
  {
    var l := FreeFrom(used, a, b);
    if a in used {
      FreeFromRest(used, a + 1, b, i);
    } else if i > 0 {
      FreeFromRest(used, a + 1, b, i - 1);
      assert l[i + 1..] == FreeFrom(used, a + 1, b)[i..];
    }
  }

  lemma {:induction false} FirstFreeIsHead(used: set<nat>, from: nat)
    ensures var l := FreeFrom(used, from, ID_LIMIT);
            FirstFree(used, from) == if l == [] then None else Some(l[0])
    decreases ID_LIMIT - from
  {
    if from < ID_LIMIT && from in used {
      FirstFreeIsHead(used, from + 1);
    }
  }

  /** All free ids, in the order in which a cursor at `next` comes to them. */
  function Around(used: set<nat>, next: nat): seq<nat> {
    FreeFrom(used, next, ID_LIMIT) + FreeFrom(used, 0, next)
  }

  lemma AllocIsHead(used: set<nat>, next: nat)
    requires next <= ID_LIMIT
    ensures var l := Around(used, next); AllocCyclic(used, next) == if l == [] then None else Some(l[0])
  {
    FirstFreeIsHead(used, next);
    FirstFreeIsHead(used, 0);
    FreeFromSplits(used, 0, next, ID_LIMIT);
  }

  /** From behind the i-th id in that order the cursor comes to the next one, and from the last to the first. */
  lemma AllocGoesRound(used: set<nat>, next: nat, i: nat)
    requires next <= ID_LIMIT && i < |Around(used, next)|
    ensures var l := Around(used, next);
            && l[i] < ID_LIMIT
            && AllocCyclic(used, l[i] + 1) == Some(if i + 1 < |l| then l[i + 1] else l[0])
  {
    var high, low := FreeFrom(used, next, ID_LIMIT), FreeFrom(used, 0, next);
    if i < |high| {
      GoesOnHigh(used, next, i);
      AfterHigh(high, low, i);
    } else {
      GoesOnLow(used, next, i - |high|, high, low);
      AfterLow(high, low, i - |high|);
    }
  }

  lemma GoesOnHigh(used: set<nat>, next: nat, i: nat)
    requires next <= ID_LIMIT && i < |FreeFrom(used, next, ID_LIMIT)|
    ensures var high, low := FreeFrom(used, next, ID_LIMIT), FreeFrom(used, 0, next);
            var rest := high[i + 1..];
            && high[i] < ID_LIMIT
            && AllocCyclic(used, high[i] + 1) == Some(if rest != [] then rest[0] else (low + high)[0])
  {
    var high, low := FreeFrom(used, next, ID_LIMIT), FreeFrom(used, 0, next);
    FreeFromSplits(used, 0, next, ID_LIMIT);
    FreeFromRest(used, next, ID_LIMIT, i);
    AllocPicks(used, high[i] + 1, high[i + 1..], low + high);
  }

  lemma AllocPicks(used: set<nat>, next: nat, rest: seq<nat>, whole: seq<nat>)
    requires 0 < next <= ID_LIMIT && rest == FreeFrom(used, next, ID_LIMIT)
    requires whole == FreeFrom(used, 0, ID_LIMIT) != []
    ensures AllocCyclic(used, next) == Some(if rest != [] then rest[0] else whole[0])
  {
    FirstFreeIsHead(used, next);
    FirstFreeIsHead(used, 0);
  }

  /** What the cursor finds behind the j-th low id: the other low ids, and then the high ones. */
  lemma LowRest(used: set<nat>, next: nat, j: nat)
    requires next <= ID_LIMIT && j < |FreeFrom(used, 0, next)|
    ensures var x := FreeFrom(used, 0, next)[j];
            && x < next
            && FreeFrom(used, x + 1, ID_LIMIT) == FreeFrom(used, 0, next)[j + 1..] + FreeFrom(used, next, ID_LIMIT)
  {
    FreeFromRest(used, 0, next, j);
    FreeFromSplits(used, FreeFrom(used, 0, next)[j] + 1, next, ID_LIMIT);
  }

  lemma GoesOnLow(used: set<nat>, next: nat, j: nat, high: seq<nat>, low: seq<nat>)
    requires next <= ID_LIMIT && high == FreeFrom(used, next, ID_LIMIT) && low == FreeFrom(used, 0, next) && j < |low|
    ensures low[j] < ID_LIMIT
    ensures AllocCyclic(used, low[j] + 1)
         == Some(if low[j + 1..] + high != [] then (low[j + 1..] + high)[0] else (low + high)[0])
  {
    LowRest(used, next, j);
    FreeFromSplits(used, 0, next, ID_LIMIT);
    AllocPicks(used, low[j] + 1, low[j + 1..] + high, low + high);
  }

  lemma AfterHigh(high: seq<nat>, low: seq<nat>, i: nat)
    requires i < |high|
    ensures var l, rest := high + low, high[i + 1..];
            l[i] == high[i]
            && (if rest != [] then rest[0] else (low + high)[0]) == if i + 1 < |l| then l[i + 1] else l[0]
  {
  }

  lemma AfterLow(high: seq<nat>, low: seq<nat>, j: nat)
    requires j < |low|
    ensures var l, rest, i := high + low, low[j + 1..] + high, |high| + j;
            l[i] == low[j]
            && (if rest != [] then rest[0] else (low + high)[0]) == if i + 1 < |l| then l[i + 1] else l[0]
  {
  }

  function FreeIds(used: set<nat>, a: nat, b: nat): set<nat> {
    set id | a <= id < b && id !in used
  }

  lemma {:induction false} FreeFromCounts(used: set<nat>, a: nat, b: nat)
    ensures |FreeFrom(used, a, b)| == |FreeIds(used, a, b)|
    decreases b - a
  {
    if a < b {
      FreeFromCounts(used, a + 1, b);
      assert FreeIds(used, a, b) == FreeIds(used, a + 1, b) + if a in used then {} else {a};
    } else {
      assert FreeIds(used, a, b) == {};
    }
  }

  lemma AroundCounts(used: set<nat>, next: nat)
    requires next <= ID_LIMIT
    ensures |Around(used, next)| == |FreeIds(used, 0, ID_LIMIT)|
  {
    FreeFromSplits(used, 0, next, ID_LIMIT);
    FreeFromCounts(used, 0, ID_LIMIT);
  }

  /** How many free ids a cursor at `next` passes before it comes to id p. */
  function Ahead(used: set<nat>, next: nat, p: nat): nat {
    if next <= p then |FreeIds(used, next, p)| else |FreeIds(used, next, ID_LIMIT)| + |FreeIds(used, 0, p)|
  }

  lemma AheadIsItsPlace(used: set<nat>, next: nat, p: nat, i: nat)
    requires next <= ID_LIMIT && p < ID_LIMIT && p !in used && i < |Around(used, next)|
    ensures Around(used, next)[i] == p <==> i == Ahead(used, next, p)
  {
    var from, rest := SplitAt(used, next, p);
    OnlyPlace(from, p, rest, i);
  }

  /** The free ids that a cursor at `next` comes to before p and after it. */
  lemma SplitAt(used: set<nat>, next: nat, p: nat) returns (from: seq<nat>, rest: seq<nat>)
    requires next <= ID_LIMIT && p < ID_LIMIT && p !in used
    ensures Around(used, next) == from + [p] + rest && p !in from && p !in rest && |from| == Ahead(used, next, p)
  {
    PassedOver(used, next, p);
    if next <= p {
      from, rest := FreeFrom(used, next, p), FreeFrom(used, p + 1, ID_LIMIT) + FreeFrom(used, 0, next);
      FreeFromCounts(used, next, p);
      FreeFromSplits(used, next, p, ID_LIMIT);
      FreeFromNext(used, p, ID_LIMIT);
      Regroup(from, p, FreeFrom(used, p + 1, ID_LIMIT), FreeFrom(used, 0, next));
    } else {
      from, rest := FreeFrom(used, next, ID_LIMIT) + FreeFrom(used, 0, p), FreeFrom(used, p + 1, next);
      FreeFromCounts(used, next, ID_LIMIT);
      FreeFromCounts(used, 0, p);
      FreeFromSplits(used, 0, p, next);
      FreeFromNext(used, p, next);
      RegroupLow(FreeFrom(used, next, ID_LIMIT), FreeFrom(used, 0, p), p, rest);
    }
  }

  lemma FreeFromNext(used: set<nat>, p: nat, b: nat)
    requires p < b && p !in used
    ensures FreeFrom(used, p, b) == [p] + FreeFrom(used, p + 1, b)
  {
  }

  lemma Regroup(from: seq<nat>, p: nat, rest: seq<nat>, more: seq<nat>)
    ensures from + ([p] + rest) + more == from + [p] + (rest + more)
  {
  }

  lemma RegroupLow(high: seq<nat>, low: seq<nat>, p: nat, rest: seq<nat>)
    ensures high + (low + ([p] + rest)) == high + low + [p] + rest
  {
  }

  lemma OnlyPlace(from: seq<nat>, p: nat, rest: seq<nat>, i: nat)
    requires p !in from && p !in rest && i < |from + [p] + rest|
    ensures (from + [p] + rest)[i] == p <==> i == |from|
  {
  }

  lemma PassedOver(used: set<nat>, next: nat, p: nat)
    ensures p !in FreeFrom(used, next, p) && p !in FreeFrom(used, 0, p) && p !in FreeFrom(used, p + 1, ID_LIMIT)
    ensures p < next ==> p !in FreeFrom(used, next, ID_LIMIT)
    ensures p !in FreeFrom(used, p + 1, next) && (next <= p ==> p !in FreeFrom(used, 0, next))
  {
    FreeFromHas(used, next, p, p);
    FreeFromHas(used, 0, p, p);
    FreeFromHas(used, p + 1, ID_LIMIT, p);
    FreeFromHas(used, next, ID_LIMIT, p);
    FreeFromHas(used, p + 1, next, p);
    FreeFromHas(used, 0, next, p);
  }

  /** Refused sends hand out the free ids in turn and take them back. */
  lemma {:induction false} RefusalsGoRound(trace: seq<State>, k: nat, l: seq<nat>)
    requires Refusals(trace) && k < |trace| && trace[0].next <= ID_LIMIT
    requires l == Around(Ids(trace[0].queue), trace[0].next) != []
    ensures trace[k] == trace[0].(next := trace[k].next) && trace[k].next <= ID_LIMIT
    ensures Alloc(trace[k]) == Some(l[k % |l|])
  {
    var used := Ids(trace[0].queue);
    if k == 0 {
      QuotientIs(0, |l|, 0, 0);
      AllocIsHead(used, trace[0].next);
    } else {
      RefusalsGoRound(trace, k - 1, l);
      NextTurn(k - 1, |l|);
      AllocGoesRound(used, trace[0].next, (k - 1) % |l|);
    }
  }

  lemma {:induction false} CursorStaysInside(s: State, events: seq<Event>)
    requires s.next <= ID_LIMIT
    ensures Run(s, events).next <= ID_LIMIT
    decreases |events|
  {
    if events != [] {
      CursorStaysInside(Step(s, events[0]), events[1..]);
    }
  }

  /** The id p is free, and t turns of the cursor come to it. */
  predicate ComesTo(s: State, p: nat, t: nat) {
    p < ID_LIMIT && p !in Ids(s.queue) && t == Ahead(Ids(s.queue), s.next, p)
  }

  /** After t turns the cursor is at an id that is in sequence: zero, or the one after the message accepted last. */
  predicate ComesInSequence(s: State, t: nat) {
    ComesTo(s, 0, t) || (s.lastSent.Some? && ComesTo(s, s.lastSent.value + 1, t))
  }

  lemma ReachedIff(s: State, t: nat, p: nat)
    requires s.next <= ID_LIMIT && t < |Around(Ids(s.queue), s.next)| && p <= ID_LIMIT
    requires Around(Ids(s.queue), s.next)[t] < ID_LIMIT && Around(Ids(s.queue), s.next)[t] !in Ids(s.queue)
    ensures Around(Ids(s.queue), s.next)[t] == p <==> ComesTo(s, p, t)
  {
    if p < ID_LIMIT && p !in Ids(s.queue) {
      AheadIsItsPlace(Ids(s.queue), s.next, p, t);
    }
  }

  lemma FollowsIffComesInSequence(s: State, t: nat, id: Entry)
    requires s.next <= ID_LIMIT && t < |Around(Ids(s.queue), s.next)|
    requires id == Around(Ids(s.queue), s.next)[t] && id !in Ids(s.queue)
    ensures Follows(s.lastSent, id) <==> ComesInSequence(s, t)
  {
    ReachedIff(s, t, 0);
    if s.lastSent.Some? {
      ReachedIff(s, t, s.lastSent.value + 1);
    }
  }

  /**
   The boundary, from any state a run can reach: after k sends in a row that found no room, the next one to be
   accepted is in sequence if and only if the cursor, which moves on by one free id with each refusal and goes
   round, has come to zero or to the id after that of the message accepted last. All of this is known before.
   */
  lemma AcceptedAfterRefusalsFollowsIff(events: seq<Event>, trace: seq<State>) returns (id: Entry)
    requires Refusals(trace) && trace[0] == Run(INIT, events)
    requires FreeIds(Ids(trace[0].queue), 0, ID_LIMIT) != {}
    ensures var s, k := trace[0], |trace| - 1;
            var t := k % |FreeIds(Ids(s.queue), 0, ID_LIMIT)|;
            Step(trace[k], Send(true)).queue == s.queue + [Sent(id, ComesInSequence(s, t))]
  {
    var s, k := trace[0], |trace| - 1;
    CursorStaysInside(INIT, events);
    AroundCounts(Ids(s.queue), s.next);
    var l := Around(Ids(s.queue), s.next);
    RefusalsGoRound(trace, k, l);
    id := Alloc(trace[k]).value;
    FollowsIffComesInSequence(s, k % |l|, id);
  }

  /**
   In particular, where the send before the refusals was accepted: the id that is due comes up again after a
   multiple of as many refusals as there are free ids.
   */
  lemma RefusalsAfterAcceptance(events: seq<Event>, trace: seq<State>) returns (id: Entry)
    requires Refusals(trace) && trace[0] == Run(INIT, events)
    requires FreeIds(Ids(trace[0].queue), 0, ID_LIMIT) != {}
    requires trace[0].lastSent.Some? && trace[0].next == trace[0].lastSent.value + 1
    ensures var s, k := trace[0], |trace| - 1;
            var t := k % |FreeIds(Ids(s.queue), 0, ID_LIMIT)|;
            var due := s.next < ID_LIMIT && s.next !in Ids(s.queue) && t == 0;
            Step(trace[k], Send(true)).queue == s.queue + [Sent(id, ComesTo(s, 0, t) || due)]
  {
    id := AcceptedAfterRefusalsFollowsIff(events, trace);
    var s := trace[0];
    assert FreeIds(Ids(s.queue), s.next, s.next) == {};
  }

  /** The shortest run that breaks it: a message, a refused send, and a message whose response fails the check. */
  lemma OneRefusalBreaksSequence()
    ensures var s := Run(INIT, [Send(true), Send(false), Send(true), Respond]); s.queue != [] && !Passes(s)
  {
    var a, b, c, d := RefusalStates();
    var events := [Send(true), Send(false), Send(true), Respond];
    assert events[1..] == [Send(false), Send(true), Respond];
    assert [Send(false), Send(true), Respond][1..] == [Send(true), Respond];
    assert [Send(true), Respond][1..] == [Respond] && [Respond][1..] == [];
    assert Run(c, [Respond]) == d;
    assert Run(b, [Send(true), Respond]) == d;
    assert Run(a, [Send(false), Send(true), Respond]) == d;
  }

  lemma RefusalStates() returns (a: State, b: State, c: State, d: State)
    ensures a == Step(INIT, Send(true)) && b == Step(a, Send(false)) && c == Step(b, Send(true))
    ensures d == Step(c, Respond) && d.queue == [Sent(2, false)] && d.last == Some(0)
  {
    a := Step(INIT, Send(true));
    assert a.queue == [Sent(0, true)] && a.next == 1 && a.lastSent == Some(0);
    b := Step(a, Send(false));
    assert FirstFree(Ids(a.queue), 1) == Some(1) && b == a.(next := 2);
    c := Step(b, Send(true));
    assert FirstFree(Ids(b.queue), 2) == Some(2) && c.queue == [Sent(0, true), Sent(2, false)];
    d := Step(c, Respond);
  }
}
