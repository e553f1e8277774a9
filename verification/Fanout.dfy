/** Subscriber channels of a topic, as atomic steps that may interleave in any
    order: a subscription is allocated before the lock and registered under it,
    and closing one first flips its flag and only later detaches it. */
module Fanout {
  import opened Messages
  import opened Ordering
  import opened TopicRuntimes

  /** A channel and its history: messages accepted from log position `since` up
      to `end` (where it was closed) were either `sent` or `lost`; each loss
      records the backlog it met. */
  datatype Chan = Chan(backlog: seq<Message>, taken: seq<Message>, closed: bool,
                       since: nat, end: nat, sent: seq<nat>, lost: map<nat, nat>)

  datatype Hub = Hub(closed: bool, log: seq<Message>, chans: map<nat, Chan>, subscribers: set<nat>,
                     unregistered: set<nat>, flagged: set<nat>, detaching: set<nat>,
                     closeReturnedNil: seq<nat>, nextSubID: nat, panicked: bool)

  const NEW_HUB: Hub := Hub(false, [], map[], {}, {}, {}, {}, [], 0, false)

  datatype Event =
    | Allocate              // subscribe: take an ID and make the channel
    | Register(id: nat)     // subscribe: the locked part
    | Accept(m: Message)    // an acceptance, announced to every subscriber
    | Flag(id: nat)         // Subscription.Close: compare-and-swap of its flag
    | Detach(id: nat)       // Subscription.Close: unsubscribe
    | Shut                  // the topic closes
    | Receive(id: nat)      // the subscriber takes a message

  /** Closing a channel; closing it again would panic. */
  function CloseChan(h: Hub, id: nat): Hub
    requires id in h.chans
  {
    var ch := h.chans[id];
    if ch.closed then h.(panicked := true)
    else h.(chans := h.chans[id := ch.(closed := true, end := |h.log|)])
  }

  /** A non-blocking send at log position `at`. */
  function TrySend(capacity: nat, ch: Chan, m: Message, at: nat): Chan {
    if |ch.backlog| < capacity
    then ch.(backlog := Offer(capacity, ch.backlog, m), sent := ch.sent + [at])
    else ch.(lost := ch.lost[at := |ch.backlog|])
  }

  function Broadcast(capacity: nat, h: Hub, m: Message): Hub {
    h.(log := h.log + [m],
       chans := map id | id in h.chans ::
                  if id in h.subscribers && !h.chans[id].closed
                  then TrySend(capacity, h.chans[id], m, |h.log|) else h.chans[id],
       panicked := h.panicked || exists id :: id in h.subscribers && id in h.chans && h.chans[id].closed)
  }

  function CloseAll(h: Hub): Hub {
    h.(closed := true, subscribers := {},
       chans := map id | id in h.chans ::
                  if id in h.subscribers then h.chans[id].(closed := true, end := |h.log|) else h.chans[id],
       panicked := h.panicked || exists id :: id in h.subscribers && id in h.chans && h.chans[id].closed)
  }

  function Step(capacity: nat, h: Hub, e: Event): Hub {
    match e
    case Allocate =>
      var id := h.nextSubID + 1;
      h.(nextSubID := id, unregistered := h.unregistered + {id},
         chans := h.chans[id := Chan([], [], false, 0, 0, [], map[])])
    case Register(id) =>
      if id !in h.unregistered || id !in h.chans then h
      else
        var r := h.(unregistered := h.unregistered - {id},
                    chans := h.chans[id := h.chans[id].(since := |h.log|)]);
        if h.closed then CloseChan(r.(flagged := r.flagged + {id}), id)
        else r.(subscribers := r.subscribers + {id})
    case Accept(m) => if h.closed then h else Broadcast(capacity, h, m)
    case Flag(id) =>
      if id in h.chans && id !in h.unregistered && id !in h.flagged
      then h.(flagged := h.flagged + {id}, detaching := h.detaching + {id},
              closeReturnedNil := h.closeReturnedNil + [id])
      else h
    case Detach(id) =>
      if id !in h.detaching then h
      else
        var r := h.(detaching := h.detaching - {id});
        if id in h.subscribers && id in h.chans
        then CloseChan(r.(subscribers := r.subscribers - {id}), id) else r
    case Shut => if h.closed then h else CloseAll(h)
    case Receive(id) =>
      if id in h.chans && h.chans[id].backlog != []
      then
        var ch := h.chans[id];
        h.(chans := h.chans[id := ch.(backlog := ch.backlog[1..], taken := ch.taken + [ch.backlog[0]])])
      else h
  }

  function Run(capacity: nat, es: seq<Event>): Hub {
    if es == [] then NEW_HUB else Step(capacity, Run(capacity, es[..|es| - 1]), es[|es| - 1])
  }

  // ---------------------------------------------------------------- invariant

  /** Every acceptance in the window was sent or lost, not both, in order; it was
      lost only on a full buffer; and what the subscriber took, followed by the
      backlog, is exactly what was sent. */
  ghost predicate Faithful(capacity: nat, ch: Chan, log: seq<Message>, end: nat) {
    && ch.since <= end <= |log|
    && Increasing(ch.sent)
    && (forall p :: p in ch.sent ==> ch.since <= p < end && p !in ch.lost)
    && (forall p :: p in ch.lost ==> ch.since <= p < end && ch.lost[p] == capacity)
    && (forall p :: ch.since <= p < end ==> p in ch.sent || p in ch.lost)
    && |ch.backlog| <= capacity
    && |ch.taken| + |ch.backlog| == |ch.sent|
    && (forall i :: 0 <= i < |ch.sent| ==> ch.sent[i] < |log| && (ch.taken + ch.backlog)[i] == log[ch.sent[i]])
  }

  function Window(h: Hub, ch: Chan): nat {
    if ch.closed then ch.end else |h.log|
  }

  /** The subscriber map holds exactly the open channels that are registered. */
  ghost predicate MapExact(h: Hub) {
    && (forall id :: id in h.subscribers || id in h.unregistered ==> id in h.chans && !h.chans[id].closed)
    && (forall id :: id in h.chans && !h.chans[id].closed ==> id in h.subscribers || id in h.unregistered)
    && h.subscribers !! h.unregistered
    && (h.closed ==> h.subscribers == {})
    && (forall id :: id in h.chans ==> id <= h.nextSubID)
  }

  ghost predicate Streams(capacity: nat, h: Hub) {
    forall id :: id in h.chans ==>
      if id in h.unregistered then h.chans[id] == Chan([], [], false, 0, 0, [], map[])
      else Faithful(capacity, h.chans[id], h.log, Window(h, h.chans[id]))
  }

  /** Closing a subscription succeeds at most once; later calls find the flag set. */
  ghost predicate ClosedOnce(h: Hub) {
    && (forall i :: 0 <= i < |h.closeReturnedNil| ==> h.closeReturnedNil[i] in h.flagged)
    && (forall i, j :: 0 <= i < j < |h.closeReturnedNil| ==> h.closeReturnedNil[i] != h.closeReturnedNil[j])
  }

  ghost predicate HubInv(capacity: nat, h: Hub) {
    !h.panicked && MapExact(h) && Streams(capacity, h) && ClosedOnce(h)
  }

  lemma SendFaithful(capacity: nat, ch: Chan, log: seq<Message>, m: Message)
    requires Faithful(capacity, ch, log, |log|)
    ensures Faithful(capacity, TrySend(capacity, ch, m, |log|), log + [m], |log| + 1)
  {
    var ch' := TrySend(capacity, ch, m, |log|);
    if |ch.backlog| < capacity {
      assert ch'.taken + ch'.backlog == (ch.taken + ch.backlog) + [m];
      assert |log| in ch'.sent by { assert ch'.sent[|ch.sent|] == |log|; }
      forall p | p in ch'.sent ensures ch.since <= p < |log| + 1 && p !in ch'.lost {
        if p != |log| {
          assert p in ch.sent;
        }
      }
    }
  }

  lemma OldFaithful(capacity: nat, ch: Chan, log: seq<Message>, m: Message, end: nat)
    requires Faithful(capacity, ch, log, end)
    ensures Faithful(capacity, ch, log + [m], end)
  {
  }

  lemma ReceiveFaithful(capacity: nat, ch: Chan, log: seq<Message>, end: nat)
    requires Faithful(capacity, ch, log, end) && ch.backlog != []
    ensures Faithful(capacity, ch.(backlog := ch.backlog[1..], taken := ch.taken + [ch.backlog[0]]), log, end)
  {
    assert (ch.taken + [ch.backlog[0]]) + ch.backlog[1..] == ch.taken + ch.backlog;
  }

  lemma AcceptKeepsStreams(capacity: nat, h: Hub, m: Message)
    requires HubInv(capacity, h) && !h.closed
    ensures HubInv(capacity, Broadcast(capacity, h, m))
  {
    var h' := Broadcast(capacity, h, m);
    forall id | id in h'.chans && id !in h.unregistered
      ensures Faithful(capacity, h'.chans[id], h'.log, Window(h', h'.chans[id]))
    {
      if id in h.subscribers {
        SendFaithful(capacity, h.chans[id], h.log, m);
      } else {
        OldFaithful(capacity, h.chans[id], h.log, m, Window(h, h.chans[id]));
      }
    }
  }

  lemma ReceiveKeepsHubInv(capacity: nat, h: Hub, id: nat)
    requires HubInv(capacity, h)
    ensures HubInv(capacity, Step(capacity, h, Receive(id)))
  {
    if id in h.chans && h.chans[id].backlog != [] {
      ReceiveKeepsStreams(capacity, h, id);
    }
  }

  lemma ReceiveKeepsStreams(capacity: nat, h: Hub, id: nat)
    requires Streams(capacity, h) && id in h.chans && h.chans[id].backlog != []
    ensures Streams(capacity, Step(capacity, h, Receive(id)))
  {
    assert id !in h.unregistered;
    ReceiveFaithful(capacity, h.chans[id], h.log, Window(h, h.chans[id]));
  }

  lemma RegisterKeepsHubInv(capacity: nat, h: Hub, id: nat)
    requires HubInv(capacity, h)
    ensures HubInv(capacity, Step(capacity, h, Register(id)))
  {
    if id in h.unregistered {
      var ch := Step(capacity, h, Register(id)).chans[id];
      assert Faithful(capacity, ch, h.log, |h.log|);
    }
  }

  /** A stream that ends now was faithful so far, and stays so. */
  lemma EndFaithful(capacity: nat, ch: Chan, log: seq<Message>)
    requires Faithful(capacity, ch, log, |log|)
    ensures Faithful(capacity, ch.(closed := true, end := |log|), log, |log|)
  {
  }

  lemma DetachKeepsHubInv(capacity: nat, h: Hub, id: nat)
    requires HubInv(capacity, h)
    ensures HubInv(capacity, Step(capacity, h, Detach(id)))
  {
    if id in h.detaching && id in h.subscribers {
      EndFaithful(capacity, h.chans[id], h.log);
      var h' := Step(capacity, h, Detach(id));
      assert h'.chans == h.chans[id := h.chans[id].(closed := true, end := |h.log|)];
    }
  }

  lemma ShutKeepsHubInv(capacity: nat, h: Hub)
    requires HubInv(capacity, h)
    ensures HubInv(capacity, Step(capacity, h, Shut))
  {
    ShutKeepsStreams(capacity, h);
  }

  lemma ShutKeepsStreams(capacity: nat, h: Hub)
    requires HubInv(capacity, h)
    ensures Streams(capacity, Step(capacity, h, Shut))
  {
    var h' := Step(capacity, h, Shut);
    forall id | id in h'.chans && id !in h'.unregistered
      ensures Faithful(capacity, h'.chans[id], h'.log, Window(h', h'.chans[id]))
    {
      if id in h.subscribers {
        EndFaithful(capacity, h.chans[id], h.log);
      }
    }
  }

  lemma StepKeepsHubInv(capacity: nat, h: Hub, e: Event)
    requires HubInv(capacity, h)
    ensures HubInv(capacity, Step(capacity, h, e))
  {
    match e
    case Accept(m) =>
      if !h.closed {
        AcceptKeepsStreams(capacity, h, m);
      }
    case Receive(id) => ReceiveKeepsHubInv(capacity, h, id);
    case Register(id) => RegisterKeepsHubInv(capacity, h, id);
    case Detach(id) => DetachKeepsHubInv(capacity, h, id);
    case Shut => ShutKeepsHubInv(capacity, h);
    case Allocate =>
    case Flag(id) =>
  }

  /** Over every interleaving: nothing panics, the subscriber map is exact, every
      stream is faithful to the acceptances of its window, and no subscription is
      closed successfully twice. */
  lemma {:induction false} ChannelsSafe(capacity: nat, es: seq<Event>)
    ensures HubInv(capacity, Run(capacity, es))
  {
    if es != [] {
      ChannelsSafe(capacity, es[..|es| - 1]);
      StepKeepsHubInv(capacity, Run(capacity, es[..|es| - 1]), es[|es| - 1]);
    }
  }

  /** Closing and accepting: a topic is closed from the moment it is shut, with every
      channel that was registered; the log grows by what an open topic accepts; and a
      subscription to a closed topic is closed on arrival, so that nobody closes it again.
      A new subscription gets a new channel, and a backlog can be drained, closed or not. */
  lemma StepOnTopic(capacity: nat, h: Hub, e: Event, id: nat)
    requires HubInv(capacity, h)
    ensures var h' := Step(capacity, h, e);
            && (h'.closed <==> h.closed || e == Shut)
            && h'.log == (if e.Accept? && !h.closed then h.log + [e.m] else h.log)
            && (e == Shut && id in h.subscribers ==> id in h'.chans && h'.chans[id].closed && id !in h'.subscribers)
            && (e == Register(id) && id in h.unregistered ==>
                  if h.closed then h'.chans[id].closed && id in h'.flagged else id in h'.subscribers)
            && (e == Allocate && id == h.nextSubID + 1 ==>
                  id !in h.chans && id in h'.chans && !h'.chans[id].closed && id in h'.unregistered)
            && (e == Receive(id) && id in h.chans && h.chans[id].backlog != [] ==>
                  h'.chans[id].taken == h.chans[id].taken + [h.chans[id].backlog[0]])
  {
  }

  /** Closing a subscription reports success exactly to the first caller, unless the
      topic was closed before the subscription could register. */
  lemma FirstCloseSucceeds(capacity: nat, h: Hub, id: nat)
    ensures var h' := Step(capacity, h, Flag(id));
            && (id in h'.closeReturnedNil <==>
                  id in h.closeReturnedNil || (id in h.chans && id !in h.unregistered && id !in h.flagged))
            && (id in h.chans && id !in h.unregistered ==> id in h'.flagged)
            && (id in h.flagged ==> h' == h)
  {
    var h' := Step(capacity, h, Flag(id));
    assert h'.closeReturnedNil != h.closeReturnedNil ==> h'.closeReturnedNil[|h.closeReturnedNil|] == id;
  }

  /** Detached, or about to be. */
  predicate Leaving(h: Hub, id: nat) {
    id in h.chans && id !in h.unregistered && (h.chans[id].closed || id in h.detaching)
  }

  lemma LeavingStays(capacity: nat, h: Hub, e: Event, id: nat)
    requires !h.panicked && MapExact(h) && Leaving(h, id)
    ensures Leaving(Step(capacity, h, e), id)
    ensures e == Detach(id) || h.chans[id].closed ==> Step(capacity, h, e).chans[id].closed
  {
  }

  lemma {:induction false} LeavingRun(capacity: nat, es: seq<Event>, more: seq<Event>, id: nat)
    requires Leaving(Run(capacity, es), id)
    ensures Leaving(Run(capacity, es + more), id)
    ensures Detach(id) in more ==> Run(capacity, es + more).chans[id].closed
  {
    if more == [] {
      assert es + more == es;
    } else {
      var n := |more| - 1;
      assert (es + more)[..|es| + n] == es + more[..n];
      LeavingRun(capacity, es, more[..n], id);
      RunIsExact(capacity, es + more[..n]);
      var h := Run(capacity, es + more[..n]);
      LeavingStays(capacity, h, more[n], id);
      assert Run(capacity, es + more) == Step(capacity, h, more[n]);
      assert Detach(id) in more ==> Detach(id) in more[..n] || more[n] == Detach(id);
    }
  }

  /** Close succeeds: once a subscriber's Close won the flag, whatever happens
      before and after its unsubscribing step, the channel is closed and gone from
      the map at the end. */
  lemma CloseDetaches(capacity: nat, es: seq<Event>, more: seq<Event>, id: nat)
    requires var h := Run(capacity, es); id in h.chans && id !in h.unregistered && id !in h.flagged
    requires Detach(id) in more
    ensures var h' := Run(capacity, es + [Flag(id)] + more); id in h'.chans && h'.chans[id].closed && id !in h'.subscribers
  {
    var h := Run(capacity, es);
    assert (es + [Flag(id)])[..|es|] == es;
    assert Run(capacity, es + [Flag(id)]) == Step(capacity, h, Flag(id));
    assert Leaving(Run(capacity, es + [Flag(id)]), id);
    LeavingRun(capacity, es + [Flag(id)], more, id);
    RunIsExact(capacity, es + [Flag(id)] + more);
  }

  /** The backlogs of the registered subscribers. */
  function Registered(h: Hub): map<nat, seq<Message>> {
    map id | id in h.subscribers && id in h.chans :: h.chans[id].backlog
  }

  /** The same change as the corresponding method of the topic object makes. */
  function OnRegistered(capacity: nat, h: Hub, e: Event): map<nat, seq<Message>> {
    var before := Registered(h);
    match e
    case Allocate => before
    case Flag(_) => before
    case Register(id) => if id in h.unregistered && !h.closed then before[id := []] else before
    case Accept(m) => if h.closed then before else FanOut(capacity, before, m)
    case Detach(id) => if id in h.detaching then before - {id} else before
    case Shut => map[]
    case Receive(id) => if id in before && before[id] != [] then before[id := before[id][1..]] else before
  }

  /** What each step does to the registered backlogs. */
  lemma StepOnRegistered(capacity: nat, h: Hub, e: Event)
    requires HubInv(capacity, h)
    ensures Registered(Step(capacity, h, e)) == OnRegistered(capacity, h, e)
  {
    match e
    case Allocate => QuietOnRegistered(capacity, h, e);
    case Flag(_) => QuietOnRegistered(capacity, h, e);
    case Shut => QuietOnRegistered(capacity, h, e);
    case Register(id) => RegisterOnRegistered(capacity, h, id);
    case Accept(m) => AcceptOnRegistered(capacity, h, m);
    case Detach(id) => DetachOnRegistered(capacity, h, id);
    case Receive(id) => ReceiveOnRegistered(capacity, h, id);
  }

  lemma QuietOnRegistered(capacity: nat, h: Hub, e: Event)
    requires MapExact(h) && (e.Allocate? || e.Flag? || e.Shut?)
    ensures Registered(Step(capacity, h, e)) == OnRegistered(capacity, h, e)
  {
  }

  lemma RegisterOnRegistered(capacity: nat, h: Hub, id: nat)
    requires MapExact(h) && Streams(capacity, h)
    ensures Registered(Step(capacity, h, Register(id))) == OnRegistered(capacity, h, Register(id))
  {
    if id in h.unregistered {
      assert h.chans[id].backlog == [];
    }
  }

  lemma AcceptOnRegistered(capacity: nat, h: Hub, m: Message)
    requires MapExact(h)
    ensures Registered(Step(capacity, h, Accept(m))) == OnRegistered(capacity, h, Accept(m))
  {
  }

  lemma DetachOnRegistered(capacity: nat, h: Hub, id: nat)
    requires MapExact(h)
    ensures Registered(Step(capacity, h, Detach(id))) == OnRegistered(capacity, h, Detach(id))
  {
  }

  lemma ReceiveOnRegistered(capacity: nat, h: Hub, id: nat)
    requires MapExact(h)
    ensures Registered(Step(capacity, h, Receive(id))) == OnRegistered(capacity, h, Receive(id))
  {
  }

  /** From `h` to `h'`, what the registered subscriber `id` was sent is settled. */
  ghost predicate Settled(h: Hub, h': Hub, id: nat) {
    id in h.chans && id !in h.unregistered ==>
      && id in h'.chans && id !in h'.unregistered
      && h'.chans[id].closed && h'.chans[id].sent == h.chans[id].sent && h'.chans[id].lost == h.chans[id].lost
  }

  lemma ClosedStepSettles(capacity: nat, h: Hub, e: Event, id: nat)
    requires !h.panicked && MapExact(h) && h.closed
    ensures Settled(h, Step(capacity, h, e), id)
    ensures Step(capacity, h, e).closed && Step(capacity, h, e).log == h.log
  {
  }

  /** Nothing is accepted once the topic is closed, and what every subscriber was
      sent or lost is settled. */
  lemma {:induction false} NothingAfterClose(capacity: nat, es: seq<Event>, more: seq<Event>, id: nat)
    requires Run(capacity, es).closed
    ensures var h, h' := Run(capacity, es), Run(capacity, es + more);
            h'.closed && h'.log == h.log && Settled(h, h', id)
  {
    if more == [] {
      assert es + more == es;
      RunIsExact(capacity, es);
    } else {
      var n := |more| - 1;
      assert (es + more)[..|es| + n] == es + more[..n];
      NothingAfterClose(capacity, es, more[..n], id);
      RunIsExact(capacity, es + more[..n]);
      var h, h' := Run(capacity, es + more[..n]), Run(capacity, es + more);
      ClosedStepSettles(capacity, h, more[n], id);
      SettledCompose(Run(capacity, es), h, h', id);
    }
  }

  lemma RunIsExact(capacity: nat, es: seq<Event>)
    ensures !Run(capacity, es).panicked && MapExact(Run(capacity, es))
  {
    ChannelsSafe(capacity, es);
  }

  lemma SettledCompose(h: Hub, h': Hub, h'': Hub, id: nat)
    requires Settled(h, h', id) && Settled(h', h'', id)
    ensures Settled(h, h'', id)
  {
  }
}
