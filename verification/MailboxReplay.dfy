/** The runs of MailboxContiguity, played on a channel: the two agree, and so the sequence results hold of it. */
module MailboxReplay {
  import opened Prelude
  import opened MailboxChannel
  import opened MailboxContiguity

  /** A user channel whose ids, cursor and last id are those of s. */
  ghost predicate Agrees(channel: Channel, s: State)
    reads channel
  {
    && channel.Valid() && channel.kind.User? && !channel.bad && channel.sending == None
    && channel.table.Keys == Ids(s.queue) && channel.next == s.next && channel.last == LastId(s.last)
  }

  predicate Distinct(s: State) {
    s.next <= ID_LIMIT && forall i, j | 0 <= i < j < |s.queue| :: s.queue[i].id != s.queue[j].id
  }

  lemma SendKeepsDistinct(s: State, fits: bool)
    requires Distinct(s)
    ensures Distinct(Step(s, Send(fits)))
  {
    var id := Alloc(s);
    assert id.Some? ==> forall i | 0 <= i < |s.queue| :: s.queue[i].id in Ids(s.queue);
  }

  lemma SendEffect(s: State, fits: bool)
    ensures var t, id := Step(s, Send(fits)), Alloc(s);
            && t.last == s.last && t.next == (if id.None? then s.next else id.value + 1)
            && (if id.Some? && fits
                then Ids(t.queue) == Ids(s.queue) + {id.value} && Entries(t.queue) == Entries(s.queue) + [id.value]
                else t.queue == s.queue)
  {
    var id := Alloc(s);
    if id.Some? && fits {
      var m := Sent(id.value, Follows(s.lastSent, id.value));
      assert m in s.queue + [m];
      assert forall x :: x in s.queue + [m] <==> x in s.queue || x == m;
    }
  }

  function Entries(queue: seq<Sent>): (r: seq<Entry>)
    ensures |r| == |queue|
  {
    seq(|queue|, i requires 0 <= i < |queue| => queue[i].id)
  }

  lemma AnswerRemovesId(s: State)
    requires Distinct(s) && s.queue != []
    ensures s.queue[0].id in Ids(s.queue) && Ids(s.queue[1..]) == Ids(s.queue) - {s.queue[0].id}
    ensures Distinct(Step(s, Respond))
  {
    assert s.queue[0] in s.queue;
    assert s.queue == [s.queue[0]] + s.queue[1..];
  }

  /** A send on the channel is the step of the run; it returns the id of an accepted message. */
  method SendOn(channel: Channel, message: nat, fits: bool, ghost s: State) returns (sent: seq<Entry>)
    requires Agrees(channel, s) && message !in channel.fates
    modifies channel
    ensures Agrees(channel, Step(s, Send(fits))) && Entries(Step(s, Send(fits)).queue) == Entries(s.queue) + sent
    ensures channel.fates.Keys == old(channel.fates.Keys) + {message}
  {
    SendEffect(s, fits);
    var id := channel.Acquire(message);
    sent := [];
    if id.Some? {
      AllocatedEntry(s, id.value);
      channel.Complete(fits);
      sent := if fits then [id.value] else [];
    }
  }

  lemma AllocatedEntry(s: State, id: nat)
    requires AllocCyclic(Ids(s.queue), s.next) == Some(id)
    ensures id < ID_LIMIT && id !in Ids(s.queue) && Alloc(s) == Some(id)
  {
  }

  /** The response to the oldest message is taken exactly if it passes the check, and is then the step of the run. */
  method RespondOn(channel: Channel, ghost s: State, id: u32) returns (ok: bool)
    requires Agrees(channel, s) && Distinct(s) && s.queue != [] && id == MessageId(s.queue[0].id)
    modifies channel
    ensures (ok <==> Passes(s)) && (!ok ==> channel.bad)
    ensures ok ==> Agrees(channel, Step(s, Respond)) && Distinct(Step(s, Respond))
    ensures channel.fates.Keys == old(channel.fates.Keys)
  {
    AnswerRemovesId(s);
    EntryOf(s.queue[0].id);
    ok := channel.Respond(id, false);
  }

  lemma EntryOf(entry: Entry)
    ensures MessageId(entry) % ENTRY_LIMIT == entry
  {
  }

  lemma {:induction false} RunOneMore(s: State, events: seq<Event>, i: nat)
    requires i < |events|
    ensures Run(s, events[..i + 1]) == Step(Run(s, events[..i]), events[i])
    decreases i
  {
    if i == 0 {
      assert events[..1][1..] == [];
    } else {
      RunOneMore(Step(s, events[0]), events[1..], i - 1);
      assert events[..i + 1][1..] == events[1..][..i] && events[..i][1..] == events[1..][..i - 1];
    }
  }

  /** A new channel that has taken the first n events as the run does. */
  ghost predicate Taken(channel: Channel, events: seq<Event>, n: nat, ids: seq<Entry>)
    requires n <= |events|
    reads channel
  {
    var s := Run(INIT, events[..n]);
    && Agrees(channel, s) && Distinct(s) && ids == Entries(s.queue) && (forall m <- channel.fates :: m < n)
  }

  method TakeOne(channel: Channel, events: seq<Event>, n: nat, ids: seq<Entry>) returns (ok: bool, ids': seq<Entry>)
    requires n < |events| && Taken(channel, events, n, ids)
    modifies channel
    ensures ok ==> Taken(channel, events, n + 1, ids')
    ensures !ok ==> channel.bad && events[n].Respond? && !Passes(Run(INIT, events[..n]))
  {
    ghost var s := Run(INIT, events[..n]);
    RunOneMore(INIT, events, n);
    ok, ids' := true, ids;
    match events[n] {
      case Send(fits) =>
        SendKeepsDistinct(s, fits);
        var sent := SendOn(channel, n, fits, s);
        ids' := ids + sent;
      case Respond =>
        if ids != [] {
          ok := RespondOn(channel, s, MessageId(ids[0]));
          ids' := ids[1..];
          assert ids[1..] == Entries(s.queue[1..]);
        }
    }
  }

  /**
   A new user channel is sent messages and given in-order responses. It fails only at a response to a message
   that was sent out of sequence, and never if every send found room.
   */
  method Replay(events: seq<Event>) returns (channel: Channel, n: nat)
    ensures n <= |events|
    ensures if n == |events| then Agrees(channel, Run(INIT, events))
            else var s := Run(INIT, events[..n]);
                 channel.bad && events[n].Respond? && s.queue != [] && !s.queue[0].follows
    ensures Send(false) !in events ==> n == |events|
  {
    channel := new Channel(User);
    n := 0;
    var ids := [];
    var ok := true;
    while n < |events|
      invariant n <= |events| && Taken(channel, events, n, ids)
    {
      ok, ids := TakeOne(channel, events, n, ids);
      if !ok {
        PassesIffSentInSequence(events[..n]);
        if Send(false) !in events {
          InOrderResponsesPass(events[..n]);
        }
        return;
      }
      n := n + 1;
    }
    assert events[..n] == events;
  }
}
