/** Message ids, the table of outstanding messages and their callbacks, on one mailbox channel. */
module MailboxChannel {
  import opened Prelude

  const ID_LIMIT: nat := 256
  const MAGIC: u32 := 0x1D00_0000
  const ENTRY_LIMIT: nat := 0x100_0000   // the low 24 bits of a message id are the table entry

  // Cyclic id allocation

  function FirstFree(used: set<nat>, from: nat): (r: Option<nat>)
    ensures r.Some? ==> from <= r.value < ID_LIMIT && r.value !in used
    decreases ID_LIMIT - from
  {
    if from >= ID_LIMIT then None
    else if from !in used then Some(from)
    else FirstFree(used, from + 1)
  }

  /** The first free id from `next` upwards, else the first free id from zero. */
  function AllocCyclic(used: set<nat>, next: nat): (r: Option<nat>)
    ensures r.Some? ==> r.value < ID_LIMIT && r.value !in used
  {
    var r := FirstFree(used, next);
    if r.None? && next > 0 then FirstFree(used, 0) else r
  }

  lemma {:induction false} FirstFreeIsFirst(used: set<nat>, from: nat, i: nat)
    requires from <= i < ID_LIMIT && (FirstFree(used, from).Some? ==> i < FirstFree(used, from).value)
    ensures i in used
    decreases ID_LIMIT - from
  {
    if from < i && from in used {
      FirstFreeIsFirst(used, from + 1, i);
    }
  }

  /** Allocation fails only when every id is taken. */
  lemma NoIdLeft(used: set<nat>, next: nat)
    requires AllocCyclic(used, next).None?
    ensures forall i | 0 <= i < ID_LIMIT :: i in used
  {
    forall i | 0 <= i < ID_LIMIT
      ensures i in used
    {
      FirstFreeIsFirst(used, 0, i);
    }
  }

  datatype Kind = Mgmt | User

  /** The check on a response's id against the last id seen; the expected id wraps as u32. */
  predicate ValidId(kind: Kind, last: u32, id: u32) {
    && id / ENTRY_LIMIT * ENTRY_LIMIT == MAGIC
    && (kind.Mgmt? || id % ENTRY_LIMIT == 0 || id == (last + 1) % TWO_32)
  }

  // Callbacks

  /**
   What has become of a message. It waits for room in the ring, or for its response, or it is over: refused, or
   called back. A response that comes before the message is in the ring overtakes its send; the send may still
   be refused after that.
   */
  datatype Fate = Sending(entry: nat) | Outstanding(entry: nat) | Refused | Called | Overtaken | RefusedLate

  predicate WasCalled(fate: Fate) {
    fate.Called? || fate.Overtaken? || fate.RefusedLate?
  }

  /** The fate of a message in the table when its response comes. */
  function Answered(fate: Fate): Fate {
    if fate.Sending? then Overtaken else Called
  }

  /** The fate of a message when its send ends, with the message still in the table or overtaken. */
  function Completed(waiting: bool, entry: nat, fits: bool): Fate {
    if waiting then if fits then Outstanding(entry) else Refused
    else if fits then Called else RefusedLate
  }

  /** A message that has an id and is not yet written to the ring. */
  datatype Pending = Pending(entry: nat, message: nat)

  /** The message of an unfinished send is in the table under its id, unless a response has overtaken it. */
  predicate SendingOk(table: map<nat, nat>, p: Pending, fates: map<nat, Fate>) {
    && p.message in fates
    && if p.entry in table then table[p.entry] == p.message else fates[p.message] == Overtaken
  }

  /** Table and fates agree, ids are in range, and a callback ran once for the messages that were called. */
  ghost predicate Consistent(table: map<nat, nat>, sending: Option<Pending>, calls: multiset<nat>,
                             fates: map<nat, Fate>) {
    && (sending.Some? ==> SendingOk(table, sending.value, fates))
    && (forall id <- table :: id < ID_LIMIT && table[id] in fates
          && fates[table[id]] == if sending == Some(Pending(id, table[id])) then Sending(id) else Outstanding(id))
    && (forall m <- fates :: fates[m].Sending? || fates[m].Outstanding? ==>
          fates[m].entry in table && table[fates[m].entry] == m)
    && (forall m <- fates :: fates[m].Overtaken? ==> sending.Some? && sending.value.message == m)
    && (forall m :: calls[m] == if m in fates && WasCalled(fates[m]) then 1 else 0)
  }

  lemma RefusedStaysConsistent(table: map<nat, nat>, calls: multiset<nat>, fates: map<nat, Fate>, m: nat)
    requires Consistent(table, None, calls, fates) && m !in fates
    ensures Consistent(table, None, calls, fates[m := Refused])
  {
  }

  lemma SendingStaysConsistent(table: map<nat, nat>, calls: multiset<nat>, fates: map<nat, Fate>, id: nat, m: nat)
    requires Consistent(table, None, calls, fates) && m !in fates && id !in table && id < ID_LIMIT
    ensures Consistent(table[id := m], Some(Pending(id, m)), calls, fates[m := Sending(id)])
  {
  }

  lemma CompletedStaysConsistent(table: map<nat, nat>, p: Pending, calls: multiset<nat>, fates: map<nat, Fate>,
                                 fits: bool)
    requires Consistent(table, Some(p), calls, fates)
    ensures Consistent(if fits then table else table - {p.entry}, None, calls,
                       fates[p.message := Completed(p.entry in table, p.entry, fits)])
  {
    if fits {
      AcceptedStaysConsistent(table, p, calls, fates);
    } else {
      GivenBackStaysConsistent(table, p, calls, fates);
    }
  }

  lemma AcceptedStaysConsistent(table: map<nat, nat>, p: Pending, calls: multiset<nat>, fates: map<nat, Fate>)
    requires Consistent(table, Some(p), calls, fates)
    ensures Consistent(table, None, calls, fates[p.message := Completed(p.entry in table, p.entry, true)])
  {
    assert forall id <- table :: id == p.entry || table[id] != p.message;
  }

  lemma GivenBackStaysConsistent(table: map<nat, nat>, p: Pending, calls: multiset<nat>, fates: map<nat, Fate>)
    requires Consistent(table, Some(p), calls, fates)
    ensures Consistent(table - {p.entry}, None, calls,
                       fates[p.message := Completed(p.entry in table, p.entry, false)])
  {
    assert forall id <- table :: id == p.entry || table[id] != p.message;
  }

  lemma EveryoneCalled(table: map<nat, nat>, calls: multiset<nat>, fates: map<nat, Fate>)
    requires Consistent(table, None, calls, fates) && forall id <- table :: id >= ID_LIMIT
    ensures table == map[] && forall m <- fates :: calls[m] == if fates[m].Refused? then 0 else 1
  {
    assert forall id <- table :: false;
    assert table.Keys == {};
  }

  class Channel {
    const kind: Kind
    var table: map<nat, nat>        // entry -> message
    var next: nat
    var last: u32
    var bad: bool
    var calls: multiset<nat>        // how often each message's callback ran
    var sending: Option<Pending>
    ghost var fates: map<nat, Fate>

    ghost predicate Valid()
      reads this
    {
      next <= ID_LIMIT && Consistent(table, sending, calls, fates)
    }

    constructor (kind: Kind)
      ensures Valid() && table == map[] && fates == map[] && !bad && sending == None
      ensures this.kind == kind && next == 0 && last == 0
    {
      this.kind := kind;
      table, next, last, bad, calls, sending := map[], 0, 0, false, multiset{}, None;
      fates := map[];
    }

    /** The first half of a send: the new message takes an id before it is written to the ring. */
    method Acquire(message: nat) returns (r: Option<nat>)
      requires Valid() && sending == None && message !in fates
      modifies this`table, this`next, this`sending, this`fates
      ensures Valid() && sending == if r.None? then None else Some(Pending(r.value, message))
      ensures r == if bad then None else AllocCyclic(old(table).Keys, old(next))
      ensures r.None? <==> bad || forall id | 0 <= id < ID_LIMIT :: id in old(table)
      ensures r.None? ==> table == old(table) && next == old(next) && fates == old(fates)[message := Refused]
      ensures r.Some? ==> r.value !in old(table) && table == old(table)[r.value := message]
                          && next == r.value + 1 && fates == old(fates)[message := Sending(r.value)]
    {
      r := if bad then None else AllocCyclic(table.Keys, next);
      if r.None? {
        if !bad {
          NoIdLeft(table.Keys, next);
        }
        RefusedStaysConsistent(table, calls, fates, message);
        fates := fates[message := Refused];
        return;
      }
      SendingStaysConsistent(table, calls, fates, r.value, message);
      table, next, sending := table[r.value := message], r.value + 1, Some(Pending(r.value, message));
      fates := fates[message := Sending(r.value)];
    }

    /** The second half of a send: the message is in the ring, or the ring was full and its id goes back. */
    method Complete(fits: bool)
      requires Valid() && sending.Some?
      modifies this`table, this`sending, this`fates
      ensures Valid() && sending == None
      ensures var id, m := old(sending).value.entry, old(sending).value.message;
              && table == (if fits then old(table) else old(table) - {id})
              && fates == old(fates)[m := Completed(id in old(table), id, fits)]
    {
      CompletedStaysConsistent(table, sending.value, calls, fates, fits);
      var id, m := sending.value.entry, sending.value.message;
      if fits {
        fates := fates[m := Completed(id in table, id, true)];
      } else {
        fates := fates[m := Completed(id in table, id, false)];
        table := table - {id};
      }
      sending := None;
    }

    /** A response, to a message in the ring or not. */
    method Respond(id: u32, callbackFails: bool) returns (ok: bool)
      requires Valid() && !bad
      modifies this`table, this`calls, this`last, this`bad, this`fates
      ensures Valid() && bad == !ok
      ensures var entry, valid := id % ENTRY_LIMIT, ValidId(kind, old(last), id);
              && last == (if valid then id else old(last))
              && (ok <==> valid && entry in old(table) && !callbackFails)
              && (if valid && entry in old(table)
                  then table == old(table) - {entry}
                       && fates == old(fates)[old(table)[entry] := Answered(old(fates)[old(table)[entry]])]
                  else table == old(table) && fates == old(fates))
      ensures id / 0x100_0000 != 0x1D ==> !ok && bad && table == old(table) && calls == old(calls)
      ensures id / 0x100_0000 == 0x1D && id % 0x100_0000 in old(table)
              && (kind.Mgmt? || id % 0x100_0000 == 0 || id == (old(last) + 1) % TWO_32)
              ==> calls == old(calls) + multiset{old(table)[id % 0x100_0000]} && ok == !callbackFails
      ensures kind.User? && id % 0x100_0000 != 0 && id != (old(last) + 1) % TWO_32
              ==> !ok && bad && table == old(table) && calls == old(calls)
    {
      var entry := id % ENTRY_LIMIT;
      if !ValidId(kind, last, id) {
        bad := true;
        return false;
      }
      last := id;
      if entry !in table {
        bad := true;
        return false;
      }
      Call(entry);
      bad := callbackFails;
      return !bad;
    }

    /** Taking a message out of the table and running its callback. */
    method Call(entry: nat)
      requires Valid() && entry in table
      modifies this`table, this`calls, this`fates
      ensures Valid() && table == old(table) - {entry}
      ensures fates == old(fates)[old(table)[entry] := Answered(old(fates)[old(table)[entry]])]
      ensures calls == old(calls) + multiset{old(table)[entry]}
    {
      var m := table[entry];
      calls, table, fates := calls + multiset{m}, table - {entry}, fates[m := Answered(fates[m])];
    }

    /**
     Releasing the channel at the end of its life: the callback of every message that a send accepted has then
     run exactly once, and that of a refused message never, unless a response had overtaken its send.
     */
    method Release()
      requires Valid() && sending == None
      modifies this`table, this`calls, this`fates
      ensures Valid() && table == map[] && fates.Keys == old(fates).Keys
      ensures forall m <- old(fates) :: calls[m] == if old(fates)[m].Refused? then 0 else 1
    {
      var id := 0;
      while id < ID_LIMIT
        invariant 0 <= id <= ID_LIMIT && Valid() && fates.Keys == old(fates).Keys
        invariant forall i <- table :: id <= i
        invariant forall m <- fates :: fates[m].Refused? <==> old(fates)[m].Refused?
      {
        if id in table {
          Call(id);
        }
        id := id + 1;
      }
      EveryoneCalled(table, calls, fates);
    }
  }

  lemma AnyOrder(entry: nat, last: u32)
    requires entry < ID_LIMIT
    ensures ValidId(Mgmt, last, MAGIC + entry) && (MAGIC + entry) % ENTRY_LIMIT == entry
  {
  }

  method Overtake(channel: Channel, entry: nat, message: nat)
    requires channel.Valid() && channel.kind == Mgmt && !channel.bad
    requires channel.sending == Some(Pending(entry, message)) && entry in channel.table
    modifies channel`table, channel`calls, channel`last, channel`bad, channel`fates
    ensures channel.Valid() && !channel.bad && entry !in channel.table
    ensures message in channel.fates && channel.fates[message] == Overtaken
  {
    AnyOrder(entry, channel.last);
    var ok := channel.Respond(MAGIC + entry, false);
  }

  /**
   A response that names the id of a message not yet in the ring, on a channel that takes any order: its callback
   runs, and the send is refused after that.
   */
  method AnsweredThenRefused(message: nat) returns (channel: Channel)
    ensures fresh(channel) && channel.Valid() && channel.sending == None && !channel.bad
    ensures message in channel.fates && channel.fates[message] == RefusedLate && channel.calls[message] == 1
  {
    channel := new Channel(Mgmt);
    assert 0 !in channel.table;
    var id := channel.Acquire(message);
    Overtake(channel, id.value, message);
    channel.Complete(false);
  }
}
