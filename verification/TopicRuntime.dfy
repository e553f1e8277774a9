/** The topic runtime object: a fixed backing array compacted in place, the
    duplicate index, and the subscriber channels, all guarded by one lock. */
module TopicRuntimes {
  import opened Messages
  import opened Topics

  /** What a non-blocking send does to a channel's backlog. */
  function Offer<T>(capacity: nat, backlog: seq<T>, m: T): seq<T> {
    if |backlog| < capacity then backlog + [m] else backlog
  }

  /** What an acceptance does to the backlogs of the registered subscribers. */
  function FanOut(capacity: nat, registered: map<nat, seq<Message>>, m: Message): map<nat, seq<Message>> {
    map id | id in registered :: Offer(capacity, registered[id], m)
  }

  /** A buffered channel. Closing it twice or sending on it after closing would
      panic, so both are preconditions. */
  class Channel {
    const capacity: nat
    var backlog: seq<Message>
    var closed: bool

    constructor (capacity: nat)
      ensures this.capacity == capacity && backlog == [] && !closed
    {
      this.capacity := capacity;
      backlog, closed := [], false;
    }

    method TrySend(m: Message)
      requires !closed
      modifies this`backlog
      ensures backlog == Offer(capacity, old(backlog), m)
    {
      if |backlog| < capacity {
        backlog := backlog + [m];
      }
    }

    method Close()
      requires !closed
      modifies this`closed
      ensures closed
    {
      closed := true;
    }
  }

  class TopicRuntime {
    const cfg: Config
    const buf: array<Message>
    var closed: bool
    var len: nat
    var seen: map<MessageID, Time>
    var subscribers: map<nat, Channel>
    var nextSubID: nat

    ghost predicate ChannelsValid()
      reads this, subscribers.Values
    {
      && (forall id :: id in subscribers ==>
            id <= nextSubID && !subscribers[id].closed && subscribers[id].capacity == cfg.subscriberBuffer)
      && (forall id, id' :: id in subscribers && id' in subscribers && id != id' ==> subscribers[id] != subscribers[id'])
      && (closed ==> subscribers == map[])
    }

    /** The backlogs of the registered subscribers. */
    ghost function Registered(): map<nat, seq<Message>>
      reads this, subscribers.Values
    {
      map id | id in subscribers :: subscribers[id].backlog
    }

    /** No message lingers in the backing array past the end of the queue. */
    ghost predicate QueueValid()
      reads this, buf
    {
      && len <= buf.Length == cfg.maxMessages
      && (forall i :: len <= i < buf.Length ==> buf[i] == ZERO_MESSAGE)
    }

    ghost predicate Valid()
      reads this, buf, subscribers.Values
    {
      QueueValid() && ChannelsValid()
    }

    ghost function Abs(): Topic
      requires len <= buf.Length
      reads this, buf
    {
      Topic(closed, buf[..len], seen)
    }

    constructor (cfg: Config)
      requires cfg.maxMessages > 0
      ensures Valid() && this.cfg == cfg && Abs() == EMPTY && subscribers == map[]
      ensures fresh(buf)
    {
      this.cfg := cfg;
      buf := new Message[cfg.maxMessages](_ => ZERO_MESSAGE);
      closed, len, seen := false, 0, map[];
      subscribers, nextSubID := map[], 0;
    }

    /** In-place compaction: the survivors slide to the front of the backing
        array in order, and the vacated tail is cleared. */
    method PruneQueueLocked(now: Time)
      requires QueueValid()
      modifies this`len, buf
      ensures QueueValid() && Abs() == PruneQueue(cfg, old(Abs()), now)
    {
      var filtered := Compact(now);
      ghost var survivors := buf[..filtered];
      var k := filtered;
      while k < len
        invariant len == old(len) && filtered <= k <= len
        invariant buf[..filtered] == survivors
        invariant forall j :: filtered <= j < k || len <= j < buf.Length ==> buf[j] == ZERO_MESSAGE
      {
        buf[k] := ZERO_MESSAGE;
        k := k + 1;
      }
      len := filtered;
    }

    method Compact(now: Time) returns (filtered: nat)
      requires len <= buf.Length
      modifies buf
      ensures filtered <= len && buf[..filtered] == AliveAt(cfg.ttl, old(buf[..len]), now)
      ensures forall k :: len <= k < buf.Length ==> buf[k] == old(buf[k])
    {
      filtered := 0;
      ghost var was := buf[..];
      for i := 0 to len
        invariant filtered <= i
        invariant buf[..filtered] == AliveAt(cfg.ttl, was[..i], now)
        invariant forall k :: i <= k < buf.Length ==> buf[k] == was[k]
      {
        assert was[..i + 1] == was[..i] + [was[i]];
        AliveAtSnoc(cfg.ttl, was[..i], was[i], now);
        if Alive(cfg.ttl, buf[i], now) {
          buf[filtered] := buf[i];
          filtered := filtered + 1;
        }
      }
    }

    method PruneSeenLocked(now: Time)
      modifies this`seen
      ensures seen == PruneSeen(cfg, old(seen), now)
    {
      if cfg.duplicateTTL <= 0 {
        return;
      }
      var todo := seen.Keys;
      while todo != {}
        invariant todo <= seen.Keys <= old(seen).Keys
        invariant forall id :: id in seen ==> seen[id] == old(seen)[id]
        invariant forall id :: id in old(seen) && id !in todo ==> (id in seen <==> InWindow(cfg, old(seen)[id], now))
      {
        var id :| id in todo;
        if now - seen[id] > cfg.duplicateTTL {
          seen := seen - {id};
        }
        todo := todo - {id};
      }
    }

    /** Offers `m` to every subscriber, in whatever order the map yields them. */
    method Broadcast(m: Message)
      requires ChannelsValid()
      modifies subscribers.Values
      ensures ChannelsValid() && Registered() == FanOut(cfg.subscriberBuffer, old(Registered()), m)
    {
      var todo := subscribers.Keys;
      while todo != {}
        invariant todo <= subscribers.Keys
        invariant ChannelsValid()
        invariant forall id :: id in todo ==> subscribers[id].backlog == old(subscribers[id].backlog)
        invariant forall id :: id in subscribers && id !in todo ==>
                    subscribers[id].backlog == Offer(cfg.subscriberBuffer, old(subscribers[id].backlog), m)
      {
        var id :| id in todo;
        subscribers[id].TrySend(m);
        todo := todo - {id};
      }
    }

    method AppendLocked(m: Message, now: Time)
      requires QueueValid() && len < cfg.maxMessages
      modifies this`len, this`seen, buf
      ensures QueueValid()
      ensures Abs() == old(Abs()).(seen := old(seen)[ID(m) := now], queue := old(Abs()).queue + [m])
    {
      seen := seen[ID(m) := now];
      buf[len] := m;
      len := len + 1;
    }

    /** The locked section up to the duplicate check. */
    method PruneLocked(now: Time)
      requires Valid()
      modifies this`len, this`seen, buf
      ensures Valid() && Abs() == PruneQueue(cfg, old(Abs()).(seen := PruneSeen(cfg, old(seen), now)), now)
      ensures Registered() == old(Registered())
    {
      PruneSeenLocked(now);
      PruneQueueLocked(now);
    }

    /** The acceptance itself: append, then tell the subscribers. */
    method AcceptLocked(m: Message, now: Time)
      requires Valid() && len < cfg.maxMessages
      modifies this`len, this`seen, buf, subscribers.Values
      ensures Valid() && subscribers == old(subscribers)
      ensures Abs() == old(Abs()).(seen := old(seen)[ID(m) := now], queue := old(Abs()).queue + [m])
      ensures Registered() == FanOut(cfg.subscriberBuffer, old(Registered()), m)
    {
      AppendLocked(m, now);
      assert Registered() == old(Registered());
      Broadcast(m);
    }

    method SubmitSigned(m: Message, authentic: bool, validatedAt: Time, now: Time) returns (outcome: Outcome)
      requires Valid()
      modifies this`len, this`seen, buf, subscribers.Values
      ensures Valid() && subscribers == old(subscribers)
      ensures (Abs(), outcome) == Submit(cfg, old(Abs()), m, authentic, validatedAt, now)
      ensures Registered() == if outcome == Accepted
                              then FanOut(cfg.subscriberBuffer, old(Registered()), Normalize(m).value)
                              else old(Registered())
    {
      var admitted := Admissible(cfg, m, authentic, validatedAt);
      if admitted.Err? {
        return Rejected(admitted.error);
      }
      if closed {
        return Rejected(TopicClosed);
      }
      PruneLocked(now);
      var key := ID(m);
      if key in seen {
        return Rejected(AlreadyReceived);
      }
      if len >= cfg.maxMessages {
        return Rejected(QueueFull);
      }
      AcceptLocked(admitted.value, now);
      outcome := Accepted;
    }

    lemma AllAlive(was: seq<Message>, now: Time)
      ensures forall i :: 0 <= i < |AliveAt(cfg.ttl, was, now)| ==> Alive(cfg.ttl, AliveAt(cfg.ttl, was, now)[i], now)
    {
      forall i | 0 <= i < |AliveAt(cfg.ttl, was, now)| ensures Alive(cfg.ttl, AliveAt(cfg.ttl, was, now)[i], now) {
        AliveAtMember(cfg.ttl, was, now, AliveAt(cfg.ttl, was, now)[i]);
      }
    }

    /** The IDs of the live queue, or its first `max` when `max` is positive. */
    method MessageIDs(max: int, now: Time) returns (ids: seq<MessageID>)
      requires QueueValid()
      modifies this`len, buf
      ensures QueueValid() && Abs() == PruneQueue(cfg, old(Abs()), now)
      ensures var all := IDs(Abs().queue);
              ids == if 0 < max <= |all| then all[..max] else all
    {
      PruneQueueLocked(now);
      AllAlive(old(buf[..len]), now);
      ids := ListIDs(max, now);
    }

    method ListIDs(max: int, now: Time) returns (ids: seq<MessageID>)
      requires QueueValid() && forall i :: 0 <= i < len ==> Alive(cfg.ttl, buf[i], now)
      ensures var all := IDs(Abs().queue);
              ids == if 0 < max <= |all| then all[..max] else all
    {
      ids := [];
      var i := 0;
      while i < len
        invariant |ids| == i <= len
        invariant forall k :: 0 <= k < i ==> ids[k] == ID(buf[k])
        invariant 0 < max ==> i < max
      {
        if Alive(cfg.ttl, buf[i], now) {
          ids := ids + [ID(buf[i])];
        }
        i := i + 1;
        if max > 0 && |ids| >= max {
          break;
        }
      }
    }

    method HasSeen(id: MessageID) returns (known: bool)
      ensures known <==> id in seen
    {
      known := id in seen;
    }

    method MessagesByIDs(ids: seq<MessageID>, now: Time) returns (messages: seq<Message>)
      requires QueueValid()
      modifies this`len, buf
      ensures QueueValid() && Abs() == PruneQueue(cfg, old(Abs()), now)
      ensures messages == WithIDs(Abs().queue, set id | id in ids)
    {
      PruneQueueLocked(now);
      AllAlive(old(buf[..len]), now);
      var wanted := set id | id in ids;
      messages := [];
      var i := 0;
      ghost var queue := Abs().queue;
      while i < len
        invariant Abs().queue == queue && QueueValid()
        invariant i <= len && messages == WithIDs(queue[..i], wanted)
      {
        assert queue[..i + 1][..i] == queue[..i];
        if ID(buf[i]) in wanted && Alive(cfg.ttl, buf[i], now) {
          messages := messages + [buf[i]];
        }
        i := i + 1;
      }
      assert queue[..i] == queue;
    }

    method Subscribe() returns (id: nat, ch: Channel)
      requires Valid()
      modifies this`nextSubID, this`subscribers
      ensures Valid() && fresh(ch) && ch.capacity == cfg.subscriberBuffer && ch.backlog == []
      ensures id == nextSubID == old(nextSubID) + 1 && ch.closed == closed
      ensures subscribers == if closed then map[] else old(subscribers)[id := ch]
      ensures Registered() == if closed then map[] else old(Registered())[id := []]
    {
      nextSubID := nextSubID + 1;
      id := nextSubID;
      ch := new Channel(cfg.subscriberBuffer);
      if closed {
        ch.Close();
      } else {
        subscribers := subscribers[id := ch];
      }
    }

    method Unsubscribe(id: nat)
      requires Valid()
      modifies this`subscribers, subscribers.Values`closed
      ensures Valid() && subscribers == old(subscribers) - {id}
      ensures id in old(subscribers) ==> old(subscribers)[id].closed
      ensures Registered() == old(Registered()) - {id}
    {
      if id in subscribers {
        var ch := subscribers[id];
        subscribers := subscribers - {id};
        ch.Close();
      }
    }

    method CloseTopic()
      requires Valid()
      modifies this`closed, this`subscribers, subscribers.Values`closed
      ensures Valid() && closed && subscribers == map[] && Registered() == map[]
      ensures forall id :: id in old(subscribers) ==> old(subscribers)[id].closed
      ensures closed == old(closed) ==> subscribers == old(subscribers)
    {
      if closed {
        return;
      }
      var todo := subscribers.Keys;
      while todo != {}
        invariant todo == subscribers.Keys <= old(subscribers).Keys
        invariant forall id :: id in subscribers ==> subscribers[id] == old(subscribers)[id] && !subscribers[id].closed
        invariant forall id :: id in old(subscribers) && id !in todo ==> old(subscribers)[id].closed
      {
        var id :| id in todo;
        subscribers[id].Close();
        subscribers := subscribers - {id};
        todo := todo - {id};
      }
      closed := true;
    }
  }
}
