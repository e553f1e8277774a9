/** A serving and a pulling node joined by one connection: every queued message
    is delivered, once, in order, within a known number of rounds, exactly when the
    puller's duplicate index outlasts the run. */
module Delivery {
  import opened Messages
  import opened Arithmetic
  import opened Topics
  import opened Announcements
  import opened Pulling
  import opened SubmissionFlows

  /** What is on the wire between the two nodes. */
  datatype Packet =
    | AskIDs(ack: uint16, count: uint16)
    | TellIDs(ids: seq<MessageID>)
    | AskMessages(wanted: seq<MessageID>)
    | TellMessages(messages: seq<Message>)

  datatype Net = Net(server: Topic, announced: set<MessageID>,
                     puller: History, outstanding: uint16,
                     packet: Packet, rounds: nat)

  /** The clock readings one step may use. */
  datatype Tick = Tick(validatedAt: Time, now: Time)

  /** Both configurations, and the messages the puller's authenticator vouches for. */
  datatype Params = Params(serverCfg: Config, pullerCfg: Config, vouched: iset<Message>, requestCount: uint16) {
    function Count(): (c: nat)
      ensures c > 0
    {
      EffectiveCount(requestCount) as nat
    }
  }

  function Send(n: Net, next: (uint16, Request)): Net {
    n.(outstanding := next.0,
       packet := match next.1
                 case RequestIDs(ack, count) => AskIDs(ack, count)
                 case RequestMessages(wanted) => AskMessages(wanted))
  }

  /** One step of the connection. A blocking ID request that finds nothing new
      stays held; received messages are submitted one at a time. */
  function NetStep(ps: Params, n: Net, tick: Tick): Net {
    match n.packet
    case AskIDs(_, count) =>
      var server := PruneQueue(ps.serverCfg, n.server, tick.now);
      var queued := IDs(server.queue);
      var ids := Fresh(n.announced, queued, count as nat);
      var n' := n.(server := server, announced := Remembered(n.announced, queued, ids));
      if ids == [] then n' else n'.(packet := TellIDs(ids), rounds := n.rounds + 1)
    case TellIDs(ids) =>
      Send(n, OnIDs(ps.requestCount, ids, n.puller.topic.seen.Keys))
    case AskMessages(wanted) =>
      var server := PruneQueue(ps.serverCfg, n.server, tick.now);
      n.(server := server, packet := TellMessages(WithIDs(server.queue, ToSet(wanted))))
    case TellMessages(messages) =>
      if messages == [] then Send(n, Ask(ps.requestCount, n.outstanding))
      else n.(puller := Take(ps, n.puller, messages[0], tick), packet := TellMessages(messages[1..]))
  }

  function Take(ps: Params, puller: History, m: Message, tick: Tick): History {
    Step(ps.pullerCfg, puller, SubmitMessage(m, m in ps.vouched, tick.validatedAt, tick.now))
  }

  function Connect(ps: Params, server: Topic, puller: History): Net {
    Send(Net(server, {}, puller, 0, TellIDs([]), 0), Ask(ps.requestCount, 0))
  }

  function NetRun(ps: Params, start: Net, ticks: seq<Tick>): Net {
    if ticks == [] then start
    else NetStep(ps, NetRun(ps, start, ticks[..|ticks| - 1]), ticks[|ticks| - 1])
  }

  /** The request a packet carries from the puller. */
  function Carried(packet: Packet): Option<Request> {
    match packet
    case AskIDs(ack, count) => Some(RequestIDs(ack, count))
    case AskMessages(wanted) => Some(RequestMessages(wanted))
    case TellIDs(_) => None
    case TellMessages(_) => None
  }

  /** The puller of the connection sends what the puller of `Pulling` sends: to an
      ID reply its reaction, after a finished message reply the next ID request,
      which acknowledges what is outstanding; and nothing else changes the counter. */
  lemma ConnectionReacts(ps: Params, n: Net, tick: Tick)
    ensures var n' := NetStep(ps, n, tick);
            match n.packet
            case TellIDs(ids) =>
              var p := React(ps.requestCount, Puller(n.outstanding, [], []), IDReply(ids, n.puller.topic.seen.Keys));
              n'.outstanding == p.outstanding && Carried(n'.packet) == Some(p.sent[0])
            case TellMessages(messages) =>
              var p := React(ps.requestCount, Puller(n.outstanding, [], []), MessageReply);
              if messages == [] then n'.outstanding == p.outstanding && Carried(n'.packet) == Some(p.sent[0])
              else n'.outstanding == n.outstanding && Carried(n'.packet) == None
            case _ => n'.outstanding == n.outstanding
  {
  }

  /** The messages the puller lacks at the start. */
  function Missing(s: seq<Message>, seen: set<MessageID>): (r: seq<Message>)
    ensures |r| <= |s|
  {
    if s == [] then []
    else
      var m := s[|s| - 1];
      Missing(s[..|s| - 1], seen) + if ID(m) in seen then [] else [m]
  }

  /** The received messages with what their submissions will read. */
  function Arriving(ps: Params, messages: seq<Message>, ticks: seq<Tick>): (r: seq<Arrival>)
    requires |ticks| <= |messages|
    ensures |r| == |ticks|
    ensures forall i :: 0 <= i < |r| ==>
              r[i] == Arrival(messages[i], messages[i] in ps.vouched, ticks[i].validatedAt, ticks[i].now)
  {
    seq(|ticks|, i requires 0 <= i < |ticks| =>
      Arrival(messages[i], messages[i] in ps.vouched, ticks[i].validatedAt, ticks[i].now))
  }

  /** Step by step, the connection submits a reply as the handler does in one go. */
  lemma {:induction false} StepsSubmitAll(ps: Params, n: Net, ticks: seq<Tick>)
    requires n.packet.TellMessages? && |ticks| <= |n.packet.messages|
    ensures var n' := NetRun(ps, n, ticks);
            && n'.packet == TellMessages(n.packet.messages[|ticks|..])
            && n'.puller.topic == SubmitAll(ps.pullerCfg, n.puller.topic, Arriving(ps, n.packet.messages, ticks))
  {
    if ticks != [] {
      var k := |ticks| - 1;
      StepsSubmitAll(ps, n, ticks[..k]);
      assert Arriving(ps, n.packet.messages, ticks)[..k] == Arriving(ps, n.packet.messages, ticks[..k]);
      TakeSubmits(ps, NetRun(ps, n, ticks[..k]), ticks[k]);
    }
  }

  lemma TakeSubmits(ps: Params, n: Net, tick: Tick)
    requires n.packet.TellMessages? && n.packet.messages != []
    ensures var n', m := NetStep(ps, n, tick), n.packet.messages[0];
            && n'.packet == TellMessages(n.packet.messages[1..])
            && n'.puller.topic == Submit(ps.pullerCfg, n.puller.topic, m, m in ps.vouched, tick.validatedAt, tick.now).0
  {
  }

  // ---------------------------------------------------------------- hypotheses

  /** The setting: unique, well-formed, authentic queued messages that stay alive
      from `from` to `until`, and an open puller with the same TTL policy and room
      for what it lacks. */
  ghost predicate Setting(ps: Params, server: Topic, puller: History, from: Time, until: Time) {
    && ps.serverCfg.ttl == ps.pullerCfg.ttl
    && DistinctIDs(server.queue)
    && (forall m :: m in server.queue ==>
          Normalized(m) && Alive(ps.serverCfg.ttl, m, from) && Alive(ps.serverCfg.ttl, m, until))
    && (forall m :: m in server.queue && ps.pullerCfg.authRequired ==> m in ps.vouched)
    && !puller.topic.closed
    && |puller.topic.queue| + |Missing(server.queue, puller.topic.seen.Keys)| <= ps.pullerCfg.maxMessages
  }

  /** The puller's duplicate index outlasts the run: while something is missing,
      no queued ID it already knows falls out of the window by `until`; and with
      two messages missing the window covers the run itself. */
  ghost predicate Remembers(cfg: Config, queue: seq<Message>, seen: map<MessageID, Time>, from: Time, until: Time) {
    var missing := Missing(queue, seen.Keys);
    && (missing != [] ==> forall m :: m in queue && ID(m) in seen ==> InWindow(cfg, seen[ID(m)], until))
    && (|missing| >= 2 ==> InWindow(cfg, from, until))
  }

  ghost predicate Assured(ps: Params, server: Topic, puller: History, from: Time, until: Time) {
    && Setting(ps, server, puller, from, until)
    && Remembers(ps.pullerCfg, server.queue, puller.topic.seen, from, until)
  }

  predicate Scheduled(ticks: seq<Tick>, from: Time, until: Time) {
    && (forall i :: 0 <= i < |ticks| ==> from <= ticks[i].validatedAt <= ticks[i].now <= until)
    && (forall i, j :: 0 <= i < j < |ticks| ==> ticks[i].now <= ticks[j].now)
  }

  // ---------------------------------------------------------------- invariant

  /** How far the run got: `told` IDs announced, the current batch starting at
      `base`, and `taken` of its missing messages accepted. */
  datatype Progress = Progress(told: nat, base: nat, taken: nat)

  datatype World = World(ps: Params, queue: seq<Message>, puller: History, from: Time, until: Time) {
    function Seen(): set<MessageID> { puller.topic.seen.Keys }

    function Lacking(): seq<Message> { Missing(queue, Seen()) }

    predicate During(tick: Tick) { from <= tick.validatedAt <= tick.now <= until }

    predicate Within(g: Progress) {
      g.base <= g.told <= |queue| && g.taken <= |Batch(g.base, g.told)|
    }

    function Batch(base: nat, told: nat): seq<Message> {
      if base <= told <= |queue| then Missing(queue[base..told], Seen()) else []
    }

    /** What the puller has accepted so far. */
    function Accepted(g: Progress): seq<Message>
      requires Within(g)
    {
      Missing(queue[..g.base], Seen()) + Batch(g.base, g.told)[..g.taken]
    }

    /** How much more it is going to accept. */
    function Due(g: Progress): nat
      requires Within(g)
    {
      |Batch(g.base, g.told)| - g.taken + |Missing(queue[g.told..], Seen())|
    }

    ghost predicate Lively(now: Time) {
      forall m {:trigger Alive(ps.pullerCfg.ttl, m, now)} {:trigger Normalized(m)} ::
        m in queue ==> Normalized(m) && Alive(ps.pullerCfg.ttl, m, now)
    }
  }

  ghost predicate PacketFits(w: World, packet: Packet, g: Progress)
    requires w.Within(g)
  {
    match packet
    case AskIDs(_, count) => g.base == g.told && count as nat == w.ps.Count()
    case TellIDs(ids) => ids == IDs(w.queue[g.base..g.told]) && g.taken == 0
    case AskMessages(wanted) => wanted == IDs(w.Batch(g.base, g.told)) && g.taken == 0
    case TellMessages(ms) => ms == w.Batch(g.base, g.told)[g.taken..]
  }

  /** How many of `size` IDs are announced after so many rounds of `count`. */
  function Reach(rounds: nat, count: nat, size: nat): (told: nat)
    ensures told <= size
  {
    if rounds == 0 then 0 else Min(Reach(rounds - 1, count, size) + count, size)
  }

  ghost predicate ServerFits(w: World, n: Net, told: nat) {
    && n.server.queue == w.queue
    && told <= |w.queue| && n.announced == ToSet(IDs(w.queue)[..told])
    && told == Reach(n.rounds, w.ps.Count(), |w.queue|)
    && (n.rounds > 0 ==> Reach(n.rounds - 1, w.ps.Count(), |w.queue|) < |w.queue|)
  }

  /** The duplicate index knows the accepted IDs and has forgotten no queued one. */
  ghost predicate Knows(w: World, p: Topic, accepted: seq<Message>) {
    forall m {:trigger KnownRightly(w, p, accepted, m)} :: m in w.queue ==> KnownRightly(w, p, accepted, m)
  }

  ghost predicate KnownRightly(w: World, p: Topic, accepted: seq<Message>, m: Message) {
    && (ID(m) in p.seen <==> ID(m) in w.Seen() || m in accepted)
    && (ID(m) in p.seen && Endangered(w, m) ==> InWindow(w.ps.pullerCfg, p.seen[ID(m)], w.until))
  }

  /** Some submission of the run prunes the index while it holds this ID. */
  ghost predicate Endangered(w: World, m: Message) {
    |w.Lacking()| >= if ID(m) in w.Seen() then 1 else 2
  }

  /** The puller's log grew by exactly what was accepted, and there is room for the rest. */
  ghost predicate PullerFits(w: World, p: History, accepted: seq<Message>, due: nat) {
    && !p.topic.closed
    && Logged(p.log) == Logged(w.puller.log) + accepted
    && Knows(w, p.topic, accepted)
    && |p.topic.queue| + due <= w.ps.pullerCfg.maxMessages
  }

  ghost predicate Fits(w: World, n: Net, g: Progress) {
    && w.Within(g)
    && PacketFits(w, n.packet, g) && ServerFits(w, n, g.told) && PullerFits(w, n.puller, w.Accepted(g), w.Due(g))
  }

  // ---------------------------------------------------------------- about Missing

  lemma {:induction false} MissingMember(s: seq<Message>, seen: set<MessageID>, m: Message)
    ensures m in Missing(s, seen) <==> m in s && ID(m) !in seen
  {
    if s != [] {
      var n := |s| - 1;
      MissingMember(s[..n], seen, m);
      assert s == s[..n] + [s[n]];
    }
  }

  lemma {:induction false} MissingConcat(a: seq<Message>, b: seq<Message>, seen: set<MessageID>)
    ensures Missing(a + b, seen) == Missing(a, seen) + Missing(b, seen)
  {
    if b == [] {
      assert a + b == a;
    } else {
      var n := |b| - 1;
      assert (a + b)[..|a| + n] == a + b[..n];
      MissingConcat(a, b[..n], seen);
    }
  }

  lemma {:induction false} WithIDsConcat(a: seq<Message>, b: seq<Message>, wanted: set<MessageID>)
    ensures WithIDs(a + b, wanted) == WithIDs(a, wanted) + WithIDs(b, wanted)
  {
    if b == [] {
      assert a + b == a;
    } else {
      var n := |b| - 1;
      assert (a + b)[..|a| + n] == a + b[..n];
      WithIDsConcat(a, b[..n], wanted);
    }
  }

  lemma {:induction false} WithIDsIsMissing(s: seq<Message>, wanted: set<MessageID>, seen: set<MessageID>)
    requires forall m :: m in s ==> (ID(m) in wanted <==> ID(m) !in seen)
    ensures WithIDs(s, wanted) == Missing(s, seen)
  {
    if s != [] {
      WithIDsIsMissing(s[..|s| - 1], wanted, seen);
    }
  }

  lemma {:induction false} UnseenIsMissing(s: seq<Message>, seen: set<MessageID>, seen0: set<MessageID>)
    requires forall m :: m in s ==> (ID(m) in seen <==> ID(m) in seen0)
    ensures Unseen(IDs(s), seen) == IDs(Missing(s, seen0))
  {
    if s != [] {
      var n := |s| - 1;
      UnseenIsMissing(s[..n], seen, seen0);
      assert IDs(s)[..n] == IDs(s[..n]);
      assert s[n] in s;
    }
  }

  /** Only the slice matters when nothing outside it is wanted. */
  lemma WithIDsSlice(q: seq<Message>, base: nat, told: nat, wanted: set<MessageID>)
    requires base <= told <= |q|
    requires forall i :: 0 <= i < base || told <= i < |q| ==> ID(q[i]) !in wanted
    ensures WithIDs(q, wanted) == WithIDs(q[base..told], wanted)
  {
    var a, b, c := q[..base], q[base..told], q[told..];
    assert q == a + (b + c);
    WithIDsConcat(a, b + c, wanted);
    WithIDsConcat(b, c, wanted);
    NoneWanted(a, wanted);
    NoneWanted(c, wanted);
  }

  /** With unique IDs, asking the whole queue for the batch returns the batch. */
  lemma ServerReturnsBatch(w: World, base: nat, told: nat)
    requires DistinctIDs(w.queue) && base <= told <= |w.queue|
    ensures WithIDs(w.queue, ToSet(IDs(w.Batch(base, told)))) == w.Batch(base, told)
  {
    var q := w.queue;
    var wanted := ToSet(IDs(w.Batch(base, told)));
    forall i | 0 <= i < |q| ensures ID(q[i]) in wanted <==> base <= i < told && ID(q[i]) !in w.Seen() {
      WantedExactly(w, base, told, i);
    }
    WithIDsSlice(q, base, told, wanted);
    WithIDsIsMissing(q[base..told], wanted, w.Seen());
  }

  lemma WantedExactly(w: World, base: nat, told: nat, i: nat)
    requires DistinctIDs(w.queue) && base <= told <= |w.queue| && i < |w.queue|
    ensures ID(w.queue[i]) in ToSet(IDs(w.Batch(base, told))) <==> base <= i < told && ID(w.queue[i]) !in w.Seen()
  {
    var q, batch := w.queue, w.Batch(base, told);
    if base <= i < told && ID(q[i]) !in w.Seen() {
      assert q[base..told][i - base] == q[i];
      MissingMember(q[base..told], w.Seen(), q[i]);
      var k :| 0 <= k < |batch| && batch[k] == q[i];
      assert IDs(batch)[k] == ID(q[i]);
    }
    if ID(q[i]) in ToSet(IDs(batch)) {
      var k :| 0 <= k < |batch| && IDs(batch)[k] == ID(q[i]);
      MissingOrigin(q, base, told, w.Seen(), batch[k], i);
    }
  }

  /** A missing message of the slice with the ID of `q[i]` is `q[i]` itself. */
  lemma MissingOrigin(q: seq<Message>, base: nat, told: nat, seen: set<MessageID>, m: Message, i: nat)
    requires DistinctIDs(q) && base <= told <= |q| && i < |q|
    requires m in Missing(q[base..told], seen) && ID(m) == ID(q[i])
    ensures base <= i < told && ID(m) !in seen
  {
    MissingMember(q[base..told], seen, m);
    var j :| 0 <= j < told - base && q[base..told][j] == m;
    SameIDSameIndex(q, base + j, i);
  }

  lemma {:induction false} NoneWanted(s: seq<Message>, wanted: set<MessageID>)
    requires forall m :: m in s ==> ID(m) !in wanted
    ensures WithIDs(s, wanted) == []
  {
    if s != [] {
      NoneWanted(s[..|s| - 1], wanted);
      assert s[|s| - 1] in s;
    }
  }

  // ---------------------------------------------------------------- the four kinds of step

  lemma StaysAlive(policy: TTLPolicy, m: Message, from: Time, now: Time, until: Time)
    requires from <= now <= until && Alive(policy, m, from) && Alive(policy, m, until)
    ensures Alive(policy, m, now)
  {
  }

  lemma AnnouncedExactly(q: seq<Message>, announced: set<MessageID>, told: nat)
    requires DistinctIDs(q) && told <= |q| && announced == ToSet(IDs(q)[..told])
    ensures forall j :: 0 <= j < |q| ==> (IDs(q)[j] in announced <==> j < told)
  {
    forall j | 0 <= j < |q| ensures IDs(q)[j] in announced <==> j < told {
      if j < told {
        assert IDs(q)[..told][j] == IDs(q)[j];
      }
      if IDs(q)[j] in announced {
        var k :| 0 <= k < told && IDs(q)[..told][k] == IDs(q)[j];
        SameIDSameIndex(q, k, j);
      }
    }
  }

  lemma PruneIsIdle(w: World, t: Topic, now: Time)
    requires t.queue == w.queue && w.Lively(now) && w.ps.serverCfg.ttl == w.ps.pullerCfg.ttl
    ensures PruneQueue(w.ps.serverCfg, t, now) == t
  {
    AliveAtWhole(w.ps.serverCfg.ttl, w.queue, now);
  }

  /** Nothing new: the blocking request is held. */
  lemma HeldStep(w: World, n: Net, tick: Tick)
    requires n.packet.AskIDs? && w.Lively(tick.now) && ServerFits(w, n, |w.queue|)
    requires DistinctIDs(w.queue) && w.ps.serverCfg.ttl == w.ps.pullerCfg.ttl
    ensures NetStep(w.ps, n, tick) == n
  {
    PruneIsIdle(w, n.server, tick.now);
    AnnouncedExactly(w.queue, n.announced, |w.queue|);
    FreshIsNextSlice(n.announced, IDs(w.queue), |w.queue|, n.packet.count as nat);
  }

  lemma NetStepAnnounces(ps: Params, n: Net, tick: Tick, ids: seq<MessageID>, announced: set<MessageID>)
    requires n.packet.AskIDs? && PruneQueue(ps.serverCfg, n.server, tick.now) == n.server
    requires ids == Fresh(n.announced, IDs(n.server.queue), n.packet.count as nat) && ids != []
    requires announced == Remembered(n.announced, IDs(n.server.queue), ids)
    ensures NetStep(ps, n, tick) == n.(announced := announced, packet := TellIDs(ids), rounds := n.rounds + 1)
  {
  }

  lemma NextSlice(w: World, announced: set<MessageID>, told: nat) returns (r: nat)
    requires told < |w.queue| && DistinctIDs(w.queue) && announced == ToSet(IDs(w.queue)[..told])
    ensures told < r == Min(told + w.ps.Count(), |w.queue|)
    ensures var ids := Fresh(announced, IDs(w.queue), w.ps.Count());
            && ids == IDs(w.queue)[told..r] != []
            && Remembered(announced, IDs(w.queue), ids) == ToSet(IDs(w.queue)[..r])
  {
    r := Min(told + w.ps.Count(), |w.queue|);
    AnnouncedExactly(w.queue, announced, told);
    FreshIsNextSlice(announced, IDs(w.queue), told, w.ps.Count());
    assert |IDs(w.queue)[told..r]| == r - told;
  }

  /** Otherwise the next `count` IDs go out. */
  lemma AnnounceStep(w: World, n: Net, g: Progress, tick: Tick) returns (g': Progress)
    requires Fits(w, n, g) && n.packet.AskIDs? && g.told < |w.queue|
    requires w.Lively(tick.now) && DistinctIDs(w.queue) && w.ps.serverCfg.ttl == w.ps.pullerCfg.ttl
    ensures Fits(w, NetStep(w.ps, n, tick), g') && g'.told > g.told && NetStep(w.ps, n, tick).packet.TellIDs?
  {
    PruneIsIdle(w, n.server, tick.now);
    var r := NextSlice(w, n.announced, g.told);
    NetStepAnnounces(w.ps, n, tick, IDs(w.queue)[g.told..r], ToSet(IDs(w.queue)[..r]));
    g' := OpenBatch(w, n, NetStep(w.ps, n, tick), g, r);
  }

  lemma OpenBatch(w: World, n: Net, n': Net, g: Progress, r: nat) returns (g': Progress)
    requires Fits(w, n, g) && n.packet.AskIDs? && g.told < r <= |w.queue|
    requires r == Reach(n.rounds + 1, w.ps.Count(), |w.queue|)
    requires n' == n.(announced := ToSet(IDs(w.queue)[..r]), packet := TellIDs(IDs(w.queue)[g.told..r]), rounds := n.rounds + 1)
    ensures g' == Progress(r, g.told, 0) && Fits(w, n', g')
  {
    g' := Progress(r, g.told, 0);
    assert IDs(w.queue)[g.told..r] == IDs(w.queue[g.told..r]);
    AcceptedAtBoundary(w, g, g');
  }

  /** Opening the next batch changes nothing about what was and will be accepted. */
  lemma AcceptedAtBoundary(w: World, g: Progress, g': Progress)
    requires w.Within(g) && g.base == g.told
    requires g'.base == g.told <= g'.told <= |w.queue| && g'.taken == 0
    ensures w.Within(g') && w.Accepted(g') == w.Accepted(g) && w.Due(g') == w.Due(g)
  {
    assert w.queue[g.told..] == w.queue[g.told..g'.told] + w.queue[g'.told..];
    MissingConcat(w.queue[g.told..g'.told], w.queue[g'.told..], w.Seen());
    assert w.queue[g.base..g.told] == [];
  }

  /** Finishing a batch moves its base to its end. */
  lemma AcceptedAtEnd(w: World, g: Progress, g': Progress)
    requires w.Within(g) && g.taken == |w.Batch(g.base, g.told)| && g' == Progress(g.told, g.told, 0)
    ensures w.Within(g') && w.Accepted(g') == w.Accepted(g) && w.Due(g') == w.Due(g)
  {
    assert w.queue[..g.told] == w.queue[..g.base] + w.queue[g.base..g.told];
    MissingConcat(w.queue[..g.base], w.queue[g.base..g.told], w.Seen());
    assert w.queue[g.told..g.told] == [];
  }

  lemma PrefixMember(q: seq<Message>, i: nat, k: nat)
    requires DistinctIDs(q) && i < |q| && k <= |q|
    ensures q[i] in q[..k] <==> i < k
  {
    if q[i] in q[..k] {
      var j :| 0 <= j < k && q[..k][j] == q[i];
      SameIDSameIndex(q, j, i);
    }
    if i < k {
      assert q[..k][i] == q[i];
    }
  }

  /** The puller tells apart exactly what it lacks. */
  lemma ReplyIsSorted(w: World, n: Net, g: Progress)
    requires w.Within(g) && g.taken == 0 && DistinctIDs(w.queue)
    requires Knows(w, n.puller.topic, w.Accepted(g))
    ensures Unseen(IDs(w.queue[g.base..g.told]), n.puller.topic.seen.Keys) == IDs(w.Batch(g.base, g.told))
  {
    var slice := w.queue[g.base..g.told];
    forall m | m in slice ensures ID(m) in n.puller.topic.seen.Keys <==> ID(m) in w.Seen() {
      var i :| 0 <= i < g.told - g.base && slice[i] == m;
      assert w.queue[g.base + i] == m;
      MissingMember(w.queue[..g.base], w.Seen(), m);
      PrefixMember(w.queue, g.base + i, g.base);
      assert KnownRightly(w, n.puller.topic, w.Accepted(g), m);
    }
    UnseenIsMissing(slice, n.puller.topic.seen.Keys, w.Seen());
  }

  lemma TellIDsStep(w: World, n: Net, g: Progress, tick: Tick) returns (g': Progress)
    requires Fits(w, n, g) && n.packet.TellIDs? && DistinctIDs(w.queue)
    ensures Fits(w, NetStep(w.ps, n, tick), g') && g'.told == g.told
    ensures var packet := NetStep(w.ps, n, tick).packet; packet.AskIDs? || packet.AskMessages?
  {
    ReplyIsSorted(w, n, g);
    if w.Batch(g.base, g.told) == [] {
      g' := Progress(g.told, g.told, 0);
      AcceptedAtEnd(w, g, g');
    } else {
      g' := g;
    }
  }

  lemma FetchedBatch(w: World, n: Net, base: nat, told: nat, tick: Tick)
    requires n.packet == AskMessages(IDs(w.Batch(base, told))) && base <= told <= |w.queue| && n.server.queue == w.queue
    requires w.Lively(tick.now) && DistinctIDs(w.queue) && w.ps.serverCfg.ttl == w.ps.pullerCfg.ttl
    ensures NetStep(w.ps, n, tick) == n.(packet := TellMessages(w.Batch(base, told)))
  {
    PruneIsIdle(w, n.server, tick.now);
    ServerReturnsBatch(w, base, told);
  }

  lemma AskMessagesStep(w: World, n: Net, g: Progress, tick: Tick)
    requires Fits(w, n, g) && n.packet.AskMessages?
    requires w.Lively(tick.now) && DistinctIDs(w.queue) && w.ps.serverCfg.ttl == w.ps.pullerCfg.ttl
    ensures Fits(w, NetStep(w.ps, n, tick), g)
    ensures NetStep(w.ps, n, tick).packet == TellMessages(w.Batch(g.base, g.told))
  {
    FetchedBatch(w, n, g.base, g.told, tick);
    var batch := w.Batch(g.base, g.told);
    assert batch[0..] == batch;
  }

  /** An unseen live message is accepted when there is room. */
  lemma FreshIsAccepted(cfg: Config, h: History, m: Message, authentic: bool, validatedAt: Time, now: Time)
    requires (cfg.authRequired ==> authentic) && !h.topic.closed && Normalized(m) && Alive(cfg.ttl, m, validatedAt)
    requires ID(m) !in h.topic.seen && |h.topic.queue| < cfg.maxMessages
    ensures var h' := Step(cfg, h, SubmitMessage(m, authentic, validatedAt, now));
            && h' == Admit(Pruned(cfg, h, now), m, validatedAt, now)
            && |h'.topic.queue| <= |h.topic.queue| + 1
            && Logged(h'.log) == Logged(h.log) + [m]
  {
    SubmitUnfolds(cfg, h, m, authentic, validatedAt, now);
  }

  lemma NextIsUnseen(w: World, p: Topic, g: Progress, m: Message)
    requires DistinctIDs(w.queue) && w.Within(g) && Knows(w, p, w.Accepted(g))
    requires g.taken < |w.Batch(g.base, g.told)| && m == w.Batch(g.base, g.told)[g.taken]
    ensures m in w.queue && ID(m) !in p.seen
  {
    var batch := w.Batch(g.base, g.told);
    var slice := w.queue[g.base..g.told];
    assert m in batch;
    MissingMember(slice, w.Seen(), m);
    var i :| 0 <= i < g.told - g.base && slice[i] == m;
    assert w.queue[g.base + i] == m;
    SliceIsDistinct(w.queue, g.base, g.told);
    BatchIsDistinct(slice, w.Seen());
    PrefixMember(batch, g.taken, g.taken);
    MissingMember(w.queue[..g.base], w.Seen(), m);
    PrefixMember(w.queue, g.base + i, g.base);
    assert KnownRightly(w, p, w.Accepted(g), m);
  }

  lemma SliceIsDistinct(s: seq<Message>, a: nat, b: nat)
    requires DistinctIDs(s) && a <= b <= |s|
    ensures DistinctIDs(s[a..b])
  {
    forall i, j | 0 <= i < j < b - a ensures Apart(s[a..b], i, j) {
      assert Apart(s, a + i, a + j);
    }
  }

  lemma {:induction false} BatchIsDistinct(s: seq<Message>, seen: set<MessageID>)
    requires DistinctIDs(s)
    ensures DistinctIDs(Missing(s, seen))
  {
    if s != [] {
      var n := |s| - 1;
      DistinctInit(s);
      BatchIsDistinct(s[..n], seen);
      forall m | m in Missing(s[..n], seen) ensures ID(m) != ID(s[n]) {
        MissingMember(s[..n], seen, m);
      }
      if ID(s[n]) !in seen {
        DistinctSnoc(Missing(s[..n], seen), s[n]);
      } else {
        assert Missing(s, seen) == Missing(s[..n], seen);
      }
    }
  }

  lemma SameIDSameMessage(s: seq<Message>, x: Message, y: Message)
    requires DistinctIDs(s) && x in s && y in s
    ensures ID(x) == ID(y) <==> x == y
  {
    var i :| 0 <= i < |s| && s[i] == x;
    var j :| 0 <= j < |s| && s[j] == y;
    if ID(x) == ID(y) {
      SameIDSameIndex(s, i, j);
    }
  }

  /** After accepting `m`, the duplicate index knows one more queued ID. */
  lemma AcceptKeepsKnows(w: World, h: History, accepted: seq<Message>, m: Message, tick: Tick)
    requires Good(w) && w.During(tick) && m in w.queue && ID(m) !in h.topic.seen
    requires Knows(w, h.topic, accepted) && |accepted| < |w.Lacking()|
    ensures Knows(w, Admit(Pruned(w.ps.pullerCfg, h, tick.now), m, tick.validatedAt, tick.now).topic, accepted + [m])
  {
    var h' := Admit(Pruned(w.ps.pullerCfg, h, tick.now), m, tick.validatedAt, tick.now);
    assert KnownRightly(w, h.topic, accepted, m);
    forall x | x in w.queue ensures KnownRightly(w, h'.topic, accepted + [m], x) {
      assert KnownRightly(w, h.topic, accepted, x);
      SameIDSameMessage(w.queue, x, m);
    }
  }

  lemma SubmitFits(w: World, p: History, accepted: seq<Message>, due: nat, m: Message, tick: Tick)
    requires PullerFits(w, p, accepted, due) && due > 0 && m in w.queue && ID(m) !in p.topic.seen
    requires Good(w) && w.During(tick) && w.Lively(tick.validatedAt) && |accepted| < |w.Lacking()|
    ensures PullerFits(w, Take(w.ps, p, m, tick), accepted + [m], due - 1)
  {
    FreshIsAccepted(w.ps.pullerCfg, p, m, m in w.ps.vouched, tick.validatedAt, tick.now);
    AcceptKeepsKnows(w, p, accepted, m, tick);
  }

  lemma TakeNext(w: World, g: Progress)
    requires w.Within(g) && g.taken < |w.Batch(g.base, g.told)|
    ensures var g' := g.(taken := g.taken + 1);
            && w.Within(g') && w.Due(g') == w.Due(g) - 1
            && w.Accepted(g') == w.Accepted(g) + [w.Batch(g.base, g.told)[g.taken]]
  {
    var batch := w.Batch(g.base, g.told);
    assert batch[..g.taken + 1] == batch[..g.taken] + [batch[g.taken]];
  }

  /** The puller's half of taking the next message. */
  lemma PullerTakes(w: World, n: Net, g: Progress, tick: Tick)
    requires Fits(w, n, g) && n.packet.TellMessages? && n.packet.messages != []
    requires Good(w) && w.During(tick) && w.Lively(tick.validatedAt)
    ensures w.Due(g) > 0
    ensures var m := n.packet.messages[0];
            PullerFits(w, Take(w.ps, n.puller, m, tick), w.Accepted(g) + [m], w.Due(g) - 1)
  {
    var m := n.packet.messages[0];
    NextIsUnseen(w, n.puller.topic, g, m);
    TakeNext(w, g);
    MissingSplits(w, g.(taken := g.taken + 1));
    SubmitFits(w, n.puller, w.Accepted(g), w.Due(g), m, tick);
  }

  lemma SubmitStep(w: World, n: Net, n': Net, g: Progress) returns (g': Progress)
    requires Fits(w, n, g) && n.packet.TellMessages? && n.packet.messages != [] && w.Due(g) > 0
    requires n' == n.(puller := n'.puller, packet := TellMessages(n.packet.messages[1..]))
    requires PullerFits(w, n'.puller, w.Accepted(g) + [n.packet.messages[0]], w.Due(g) - 1)
    ensures Fits(w, n', g') && g'.told == g.told
  {
    TakeNext(w, g);
    g' := g.(taken := g.taken + 1);
  }

  lemma BatchDoneStep(w: World, n: Net, g: Progress, tick: Tick) returns (g': Progress)
    requires Fits(w, n, g) && n.packet == TellMessages([])
    ensures Fits(w, NetStep(w.ps, n, tick), g') && g'.told == g.told
    ensures NetStep(w.ps, n, tick).packet.AskIDs?
  {
    g' := Progress(g.told, g.told, 0);
    AcceptedAtEnd(w, g, g');
  }

  // ---------------------------------------------------------------- whole runs

  /** left * unit, unfolded one unit at a time. */
  function Weight(left: nat, unit: nat): (r: nat)
    ensures left > 0 ==> r >= unit
  {
    if left == 0 then 0 else Weight(left - 1, unit) + unit
  }

  lemma {:induction false} WeightGrows(a: nat, b: nat, unit: nat)
    requires a < b
    ensures Weight(a, unit) + unit <= Weight(b, unit)
  {
    if a < b - 1 {
      WeightGrows(a, b - 1, unit);
    }
  }

  lemma {:induction false} WeightIsProduct(left: nat, unit: nat)
    ensures Weight(left, unit) == left * unit
  {
    if left > 0 {
      WeightIsProduct(left - 1, unit);
    }
  }

  /** Work left: unannounced IDs first, then what the current batch still needs. */
  function Rank(size: nat, told: nat, packet: Packet): nat
    requires told <= size
  {
    Weight(size - told, size + 4) +
    match packet
    case AskIDs(_, _) => 0
    case TellIDs(_) => size + 3
    case AskMessages(_) => size + 2
    case TellMessages(ms) => |ms| + 1
  }

  /** The order in which packets follow one another. */
  predicate Advances(size: nat, told: nat, p: Packet, told': nat, p': Packet) {
    match p
    case AskIDs(_, _) => told < told' <= size && p'.TellIDs?
    case TellIDs(_) => told' == told && (p'.AskIDs? || p'.AskMessages?)
    case AskMessages(_) => told' == told && p'.TellMessages? && |p'.messages| <= size
    case TellMessages(ms) => told' == told && if ms == [] then p'.AskIDs? else p' == TellMessages(ms[1..])
  }

  lemma AdvancingLowersRank(size: nat, told: nat, p: Packet, told': nat, p': Packet)
    requires told <= size && told' <= size && Advances(size, told, p, told', p')
    ensures Rank(size, told', p') < Rank(size, told, p)
  {
    if p.AskIDs? {
      WeightGrows(size - told', size - told, size + 4);
    }
  }

  ghost predicate Good(w: World) {
    && w.ps.serverCfg.ttl == w.ps.pullerCfg.ttl
    && DistinctIDs(w.queue) && w.Lively(w.from) && w.Lively(w.until)
    && (forall m :: m in w.queue && w.ps.pullerCfg.authRequired ==> m in w.ps.vouched)
    && Remembers(w.ps.pullerCfg, w.queue, w.puller.topic.seen, w.from, w.until)
  }

  lemma StepFits(w: World, n: Net, g: Progress, tick: Tick) returns (g': Progress)
    requires Fits(w, n, g) && Good(w) && w.During(tick)
    ensures Fits(w, NetStep(w.ps, n, tick), g')
    ensures var n' := NetStep(w.ps, n, tick);
            if g.told == |w.queue| && n.packet.AskIDs? then n' == n && g' == g
            else Advances(|w.queue|, g.told, n.packet, g'.told, n'.packet)
  {
    StaysLively(w, tick.now);
    StaysLively(w, tick.validatedAt);
    match n.packet
    case AskIDs(_, _) =>
      if g.told < |w.queue| {
        g' := AnnounceStep(w, n, g, tick);
      } else {
        g' := g;
        HeldStep(w, n, tick);
      }
    case TellIDs(_) =>
      g' := TellIDsStep(w, n, g, tick);
    case AskMessages(_) =>
      g' := g;
      AskMessagesStep(w, n, g, tick);
    case TellMessages(ms) =>
      if ms == [] {
        g' := BatchDoneStep(w, n, g, tick);
      } else {
        PullerTakes(w, n, g, tick);
        g' := SubmitStep(w, n, NetStep(w.ps, n, tick), g);
      }
  }

  lemma ConnectFits(ps: Params, server: Topic, puller: History, from: Time, until: Time)
    requires Assured(ps, server, puller, from, until)
    ensures var w := World(ps, server.queue, puller, from, until);
            Good(w) && Fits(w, Connect(ps, server, puller), Progress(0, 0, 0))
  {
    var w := World(ps, server.queue, puller, from, until);
    assert w.queue[0..] == w.queue && w.queue[..0] == [];
    assert w.Accepted(Progress(0, 0, 0)) == [];
    assert Logged(puller.log) + [] == Logged(puller.log);
  }

  function Larger(a: int, b: int): int {
    if a < b then b else a
  }

  lemma SchedulePrefix(ticks: seq<Tick>, from: Time, until: Time)
    requires Scheduled(ticks, from, until) && ticks != []
    ensures Scheduled(ticks[..|ticks| - 1], from, until)
  {
  }

  lemma StaysLively(w: World, now: Time)
    requires w.Lively(w.from) && w.Lively(w.until) && w.from <= now <= w.until
    ensures w.Lively(now)
  {
    forall m | m in w.queue ensures Alive(w.ps.pullerCfg.ttl, m, now) {
      assert Normalized(m);
      StaysAlive(w.ps.pullerCfg.ttl, m, w.from, now, w.until);
    }
  }

  lemma RunFits(w: World, start: Net, ticks: seq<Tick>) returns (g: Progress)
    requires Good(w) && Fits(w, start, Progress(0, 0, 0))
    requires Scheduled(ticks, w.from, w.until)
    ensures Fits(w, NetRun(w.ps, start, ticks), g)
  {
    g := Progress(0, 0, 0);
    for k := 0 to |ticks|
      invariant Fits(w, NetRun(w.ps, start, ticks[..k]), g)
    {
      assert ticks[..k + 1][..k] == ticks[..k];
      g := ExtendRun(w, start, ticks[..k + 1], g);
    }
    assert ticks[..|ticks|] == ticks;
  }

  /** The rank of a state; how much is announced follows from the rounds. */
  function NetRank(w: World, n: Net): nat {
    Rank(|w.queue|, Reach(n.rounds, w.ps.Count(), |w.queue|), n.packet)
  }

  lemma RunRank(w: World, start: Net, ticks: seq<Tick>)
    requires Good(w) && Fits(w, start, Progress(0, 0, 0)) && Scheduled(ticks, w.from, w.until)
    ensures NetRank(w, NetRun(w.ps, start, ticks)) <= Larger(0, NetRank(w, start) - |ticks|)
  {
    RunRankFrom(w, start, ticks, NetRank(w, start));
  }

  lemma {:induction false} RunRankFrom(w: World, start: Net, ticks: seq<Tick>, rank: int)
    requires Good(w) && Fits(w, start, Progress(0, 0, 0)) && Scheduled(ticks, w.from, w.until)
    requires NetRank(w, start) == rank
    ensures NetRank(w, NetRun(w.ps, start, ticks)) <= Larger(0, rank - |ticks|)
  {
    if ticks != [] {
      SchedulePrefix(ticks, w.from, w.until);
      RunRankFrom(w, start, ticks[..|ticks| - 1], rank);
      RunRankStep(w, start, ticks, Larger(0, rank - (|ticks| - 1)));
    }
  }

  lemma RunRankStep(w: World, start: Net, ticks: seq<Tick>, rank: int)
    requires Good(w) && Fits(w, start, Progress(0, 0, 0)) && ticks != []
    requires Scheduled(ticks, w.from, w.until)
    requires NetRank(w, NetRun(w.ps, start, ticks[..|ticks| - 1])) <= rank
    ensures NetRank(w, NetRun(w.ps, start, ticks)) <= Larger(0, rank - 1)
  {
    var k := |ticks| - 1;
    SchedulePrefix(ticks, w.from, w.until);
    var g := RunFits(w, start, ticks[..k]);
    StepRank(w, NetRun(w.ps, start, ticks[..k]), g, ticks[k]);
  }

  lemma ExtendRun(w: World, start: Net, ticks: seq<Tick>, g: Progress) returns (g': Progress)
    requires Good(w) && Scheduled(ticks, w.from, w.until) && ticks != []
    requires Fits(w, NetRun(w.ps, start, ticks[..|ticks| - 1]), g)
    ensures Fits(w, NetRun(w.ps, start, ticks), g')
  {
    var k := |ticks| - 1;
    g' := StepFits(w, NetRun(w.ps, start, ticks[..k]), g, ticks[k]);
  }

  lemma StepRank(w: World, n: Net, g: Progress, tick: Tick)
    requires Fits(w, n, g) && Good(w) && w.During(tick)
    ensures NetRank(w, NetStep(w.ps, n, tick)) <= Larger(0, NetRank(w, n) - 1)
  {
    var g' := StepFits(w, n, g, tick);
    if g.told != |w.queue| || !n.packet.AskIDs? {
      AdvancingLowersRank(|w.queue|, g.told, n.packet, g'.told, NetStep(w.ps, n, tick).packet);
    }
  }

  /** What the invariant says about the outcome, without the invariant. */
  ghost predicate Facts(w: World, n: Net, g: Progress) {
    && w.Within(g) && ServerFits(w, n, g.told)
    && Logged(n.puller.log) == Logged(w.puller.log) + w.Accepted(g)
    && Knows(w, n.puller.topic, w.Accepted(g))
    && (n.packet.AskIDs? ==> g.base == g.told)
  }

  lemma RunFacts(ps: Params, server: Topic, puller: History, from: Time, until: Time, ticks: seq<Tick>)
      returns (g: Progress)
    requires Assured(ps, server, puller, from, until) && Scheduled(ticks, from, until)
    ensures var w := World(ps, server.queue, puller, from, until);
            var n := NetRun(ps, Connect(ps, server, puller), ticks);
            Facts(w, n, g)
  {
    var w := World(ps, server.queue, puller, from, until);
    ConnectFits(ps, server, puller, from, until);
    g := RunFits(w, Connect(ps, server, puller), ticks);
  }

  lemma RunFinishes(ps: Params, server: Topic, puller: History, from: Time, until: Time, ticks: seq<Tick>)
    requires Assured(ps, server, puller, from, until) && Scheduled(ticks, from, until)
    requires |ticks| >= |server.queue| * (|server.queue| + 4)
    ensures NetRank(World(ps, server.queue, puller, from, until), NetRun(ps, Connect(ps, server, puller), ticks)) == 0
  {
    ConnectFits(ps, server, puller, from, until);
    WeightIsProduct(|server.queue|, |server.queue| + 4);
    RunRank(World(ps, server.queue, puller, from, until), Connect(ps, server, puller), ticks);
  }

  function CeilDiv(n: nat, d: nat): nat
    requires d > 0
  {
    (n + d - 1) / d
  }

  lemma {:induction false} ReachIsProduct(rounds: nat, count: nat, size: nat)
    ensures Reach(rounds, count, size) == Min(rounds * count, size)
  {
    if rounds > 0 {
      ReachIsProduct(rounds - 1, count, size);
      assert rounds * count == (rounds - 1) * count + count;
    }
  }

  lemma RoundsBound(rounds: nat, count: nat, size: nat)
    requires count > 0 && (rounds > 0 ==> Reach(rounds - 1, count, size) < size)
    ensures rounds <= CeilDiv(size, count)
    ensures Reach(rounds, count, size) == size ==> rounds == CeilDiv(size, count)
  {
    ReachIsProduct(rounds, count, size);
    if rounds > 0 {
      ReachIsProduct(rounds - 1, count, size);
    }
    CeilDivBounds(size, count);
    MulMono(CeilDiv(size, count), Larger(CeilDiv(size, count), rounds - 1), count);
    MulMono(rounds + 1, Larger(rounds + 1, CeilDiv(size, count)), count);
  }

  lemma CeilDivBounds(size: nat, count: nat)
    requires count > 0
    ensures size <= CeilDiv(size, count) * count < size + count
  {
  }

  lemma MissingSplits(w: World, g: Progress)
    requires w.Within(g)
    ensures w.Accepted(g) <= Missing(w.queue, w.Seen())
  {
    var a, b, c := w.queue[..g.base], w.queue[g.base..g.told], w.queue[g.told..];
    assert w.queue == a + (b + c);
    MissingConcat(a, b + c, w.Seen());
    MissingConcat(b, c, w.Seen());
  }

  /** The rounds so far, and the initial part of the missing messages accepted so far. */
  lemma FactsAboutOrder(w: World, n: Net, g: Progress)
    requires Facts(w, n, g)
    ensures n.rounds <= CeilDiv(|w.queue|, w.ps.Count())
    ensures w.Accepted(g) <= Missing(w.queue, w.Seen())
  {
    RoundsBound(n.rounds, w.ps.Count(), |w.queue|);
    MissingSplits(w, g);
  }

  lemma FactsAtTheEnd(w: World, n: Net, g: Progress)
    requires Facts(w, n, g) && NetRank(w, n) == 0
    ensures n.packet.AskIDs? && n.rounds == CeilDiv(|w.queue|, w.ps.Count()) && n.announced == ToSet(IDs(w.queue))
    ensures forall m :: m in w.queue ==> ID(m) in n.puller.topic.seen
    ensures Logged(n.puller.log) == Logged(w.puller.log) + Missing(w.queue, w.Seen())
  {
    RoundsBound(n.rounds, w.ps.Count(), |w.queue|);
    assert IDs(w.queue)[..g.told] == IDs(w.queue);
    AllAccepted(w, g);
    forall m | m in w.queue ensures ID(m) in n.puller.topic.seen {
      MissingMember(w.queue, w.Seen(), m);
      assert KnownRightly(w, n.puller.topic, w.Accepted(g), m);
    }
  }

  lemma AllAccepted(w: World, g: Progress)
    requires w.Within(g) && g.base == |w.queue|
    ensures w.Accepted(g) == Missing(w.queue, w.Seen())
  {
    assert w.queue[..g.base] == w.queue;
    assert w.queue[g.base..g.told] == [];
  }

  /** At every moment the puller has accepted an initial part of what it lacked,
      in queue order, in at most ceil(n/count) ID rounds. */
  lemma DeliveredInOrder(ps: Params, server: Topic, puller: History, from: Time, until: Time, ticks: seq<Tick>)
      returns (accepted: seq<Message>)
    requires Assured(ps, server, puller, from, until) && Scheduled(ticks, from, until)
    ensures var n := NetRun(ps, Connect(ps, server, puller), ticks);
            && n.rounds <= CeilDiv(|server.queue|, ps.Count())
            && accepted <= Missing(server.queue, puller.topic.seen.Keys)
            && Logged(n.puller.log) == Logged(puller.log) + accepted
  {
    var w := World(ps, server.queue, puller, from, until);
    var g := RunFacts(ps, server, puller, from, until, ticks);
    FactsAboutOrder(w, NetRun(ps, Connect(ps, server, puller), ticks), g);
    accepted := w.Accepted(g);
  }

  /** What delivery promises about the state `n`: everything is announced after
      exactly ceil(n/count) rounds, every queued ID is in the puller's duplicate
      index, and the puller accepted exactly the messages it lacked, each once,
      in queue order. */
  ghost predicate Delivered(ps: Params, server: Topic, puller: History, n: Net) {
    && n.packet.AskIDs? && n.rounds == CeilDiv(|server.queue|, ps.Count())
    && n.announced == ToSet(IDs(server.queue))
    && (forall m :: m in server.queue ==> ID(m) in n.puller.topic.seen)
    && Logged(n.puller.log) == Logged(puller.log) + Missing(server.queue, puller.topic.seen.Keys)
  }

  /** Every schedule that is long enough delivers. */
  ghost predicate AlwaysDelivers(ps: Params, server: Topic, puller: History, from: Time, until: Time) {
    forall ticks :: Scheduled(ticks, from, until) && |ticks| >= Enough(server) ==>
      Delivered(ps, server, puller, NetRun(ps, Connect(ps, server, puller), ticks))
  }

  function Enough(server: Topic): nat {
    |server.queue| * (|server.queue| + 4)
  }

  lemma DeliveryCompletes(ps: Params, server: Topic, puller: History, from: Time, until: Time, ticks: seq<Tick>)
    requires Assured(ps, server, puller, from, until) && Scheduled(ticks, from, until)
    requires |ticks| >= Enough(server)
    ensures Delivered(ps, server, puller, NetRun(ps, Connect(ps, server, puller), ticks))
  {
    var w := World(ps, server.queue, puller, from, until);
    RunFinishes(ps, server, puller, from, until, ticks);
    var g := RunFacts(ps, server, puller, from, until, ticks);
    FactsAtTheEnd(w, NetRun(ps, Connect(ps, server, puller), ticks), g);
  }

  // ---------------------------------------------------------------- the condition is exact

  /** The clock at the end of a schedule. */
  function End(ticks: seq<Tick>, from: Time): Time {
    if ticks == [] then from else ticks[|ticks| - 1].now
  }

  lemma {:induction false} RunKeepsPuller(ps: Params, start: Net, from: Time, until: Time, ticks: seq<Tick>)
    requires Inv(ps.pullerCfg, start.puller) && start.puller.clock <= from && Scheduled(ticks, from, until)
    ensures var p := NetRun(ps, start, ticks).puller; Inv(ps.pullerCfg, p) && p.clock <= End(ticks, from)
  {
    if ticks != [] {
      var k := |ticks| - 1;
      RunKeepsPuller(ps, start, from, until, ticks[..k]);
      StepKeepsPuller(ps, NetRun(ps, start, ticks[..k]), ticks[k]);
    }
  }

  lemma StepKeepsPuller(ps: Params, n: Net, tick: Tick)
    requires Inv(ps.pullerCfg, n.puller) && n.puller.clock <= tick.now && tick.validatedAt <= tick.now
    ensures var p := NetStep(ps, n, tick).puller; Inv(ps.pullerCfg, p) && p.clock <= tick.now
  {
    if n.packet.TellMessages? && n.packet.messages != [] {
      SubmitKeepsInv(ps.pullerCfg, n.puller, n.packet.messages[0], n.packet.messages[0] in ps.vouched, tick.validatedAt, tick.now);
    }
  }

  /** `n` ticks with the clock standing still. */
  function Still(now: Time, n: nat): (ticks: seq<Tick>)
    ensures |ticks| == n && forall i :: 0 <= i < n ==> ticks[i] == Tick(now, now)
  {
    seq(n, _ => Tick(now, now))
  }

  lemma StillPrefix(now: Time, n: nat)
    ensures Still(now, n + 1)[..n] == Still(now, n)
  {
  }

  /** The log grew, by entries dated `at`. */
  ghost predicate Appended(log: seq<Acceptance>, log': seq<Acceptance>, at: Time) {
    log <= log' && forall i :: |log| <= i < |log'| ==> log'[i].at == at
  }

  ghost predicate Swept(cfg: Config, t: Topic, now: Time) {
    forall id :: id in t.seen ==> InWindow(cfg, t.seen[id], now)
  }

  /** Acceptances sweep the duplicate index; a swept index stays swept. */
  ghost predicate Sweeping(cfg: Config, p: History, p': History, now: Time) {
    && Appended(p.log, p'.log, now)
    && (p'.log != p.log || Swept(cfg, p.topic, now) ==> Swept(cfg, p'.topic, now))
  }

  lemma SweepingCompose(cfg: Config, p: History, p': History, p'': History, now: Time)
    requires Sweeping(cfg, p, p', now) && Sweeping(cfg, p', p'', now)
    ensures Sweeping(cfg, p, p'', now)
  {
  }

  lemma StepSweeps(ps: Params, n: Net, now: Time)
    ensures var p, p' := n.puller, NetStep(ps, n, Tick(now, now)).puller;
            Sweeping(ps.pullerCfg, p, p', now) && |p'.log| <= |p.log| + 1
  {
    if n.packet.TellMessages? && n.packet.messages != [] {
      var m := n.packet.messages[0];
      SubmitUnfolds(ps.pullerCfg, n.puller, m, m in ps.vouched, now, now);
    }
  }

  /** From step `j` of a run on, with the clock standing still. */
  lemma {:induction false} RunSweeps(ps: Params, start: Net, ticks: seq<Tick>, j: nat, now: Time)
    requires j <= |ticks| && forall i :: j <= i < |ticks| ==> ticks[i] == Tick(now, now)
    ensures Sweeping(ps.pullerCfg, NetRun(ps, start, ticks[..j]).puller, NetRun(ps, start, ticks).puller, now)
  {
    if j == |ticks| {
      assert ticks[..j] == ticks;
    } else {
      var k := |ticks| - 1;
      assert ticks[..k][..j] == ticks[..j];
      RunSweeps(ps, start, ticks[..k], j, now);
      var n := NetRun(ps, start, ticks[..k]);
      StepSweeps(ps, n, now);
      SweepingCompose(ps.pullerCfg, NetRun(ps, start, ticks[..j]).puller, n.puller, NetStep(ps, n, ticks[k]).puller, now);
    }
  }

  /** A log that grows by several entries passes through growing by one. */
  lemma {:induction false} FirstAcceptance(ps: Params, start: Net, now: Time, n: nat) returns (k: nat)
    requires |NetRun(ps, start, Still(now, n)).puller.log| > |start.puller.log|
    ensures k <= n && |NetRun(ps, start, Still(now, k)).puller.log| == |start.puller.log| + 1
  {
    if |NetRun(ps, start, Still(now, n)).puller.log| == |start.puller.log| + 1 {
      k := n;
    } else {
      StillPrefix(now, n - 1);
      StepSweeps(ps, NetRun(ps, start, Still(now, n - 1)), now);
      k := FirstAcceptance(ps, start, now, n - 1);
    }
  }

  /** An ID that survives a sweep had an acceptance in the window. */
  lemma SurvivorInWindow(cfg: Config, h: History, id: MessageID, latest: Time, now: Time)
    requires SeenSound(cfg, h) && Swept(cfg, h.topic, now) && id in h.topic.seen
    requires forall i :: 0 <= i < |h.log| && ID(h.log[i].msg) == id ==> h.log[i].at <= latest
    ensures InWindow(cfg, latest, now)
  {
    var i: nat :| i < |h.log| && ID(h.log[i].msg) == id && h.log[i].at == h.topic.seen[id];
  }

  lemma StillIsScheduled(from: Time, until: Time, k: nat, n: nat)
    requires from <= until
    ensures Scheduled(Still(from, k) + Still(until, n), from, until)
    ensures Scheduled(Still(from, k), from, until) && Scheduled(Still(until, n), from, until)
  {
  }

  /** The acceptances of the run are those of the missing messages. */
  lemma NewAcceptance(puller: History, p: History, missing: seq<Message>, i: nat)
    requires puller.log <= p.log && Logged(p.log) == Logged(puller.log) + missing && |puller.log| <= i < |p.log|
    ensures i - |puller.log| < |missing| && p.log[i].msg == missing[i - |puller.log|]
  {
    assert Logged(p.log)[i] == p.log[i].msg;
  }

  /** First half: a known ID that leaves the window is lost. */
  lemma KnownMustStay(ps: Params, server: Topic, puller: History, from: Time, until: Time, x: Message)
    requires Inv(ps.pullerCfg, puller) && puller.clock <= from <= until
    requires AlwaysDelivers(ps, server, puller, from, until)
    requires Missing(server.queue, puller.topic.seen.Keys) != [] && x in server.queue && ID(x) in puller.topic.seen
    ensures InWindow(ps.pullerCfg, puller.topic.seen[ID(x)], until)
  {
    var start, n := Connect(ps, server, puller), Enough(server);
    var p := NetRun(ps, start, Still(until, n)).puller;
    StillIsScheduled(from, until, 0, n);
    RunSweeps(ps, start, Still(until, n), 0, until);
    RunKeepsPuller(ps, start, from, until, Still(until, n));
    KnownStayed(ps.pullerCfg, server.queue, puller, p, until, x);
  }

  lemma KnownStayed(cfg: Config, queue: seq<Message>, puller: History, p: History, until: Time, x: Message)
    requires SeenSound(cfg, puller) && SeenSound(cfg, p) && Swept(cfg, p.topic, until)
    requires puller.log <= p.log && Logged(p.log) == Logged(puller.log) + Missing(queue, puller.topic.seen.Keys)
    requires ID(x) in puller.topic.seen && ID(x) in p.topic.seen
    ensures InWindow(cfg, puller.topic.seen[ID(x)], until)
  {
    var missing := Missing(queue, puller.topic.seen.Keys);
    forall i | 0 <= i < |p.log| && ID(p.log[i].msg) == ID(x) ensures p.log[i].at <= puller.topic.seen[ID(x)] {
      if i < |puller.log| {
        assert p.log[i] == puller.log[i];
      } else {
        NewAcceptance(puller, p, missing, i);
        MissingMember(queue, puller.topic.seen.Keys, missing[i - |puller.log|]);
      }
    }
    SurvivorInWindow(cfg, p, ID(x), puller.topic.seen[ID(x)], until);
  }

  /** `k` steps early and the rest late. */
  lemma EarlyThenLate(ps: Params, start: Net, from: Time, until: Time, k: nat, n: nat)
    requires from <= until
    ensures var ticks := Still(from, k) + Still(until, n);
            var mid, p := NetRun(ps, start, Still(from, k)).puller, NetRun(ps, start, ticks).puller;
            && Scheduled(ticks, from, until)
            && Appended(start.puller.log, mid.log, from) && mid.log <= p.log
            && (p.log != mid.log ==> Swept(ps.pullerCfg, p.topic, until))
  {
    var ticks := Still(from, k) + Still(until, n);
    StillIsScheduled(from, until, k, n);
    assert ticks[..k] == Still(from, k) && Still(from, k)[..0] == [];
    RunSweeps(ps, start, Still(from, k), 0, from);
    RunSweeps(ps, start, ticks, k, until);
  }

  /** Second half: with two messages missing, the first one accepted early and the
      second late, the window must cover the time between. */
  lemma FirstMustStay(ps: Params, server: Topic, puller: History, from: Time, until: Time)
    requires Inv(ps.pullerCfg, puller) && puller.clock <= from <= until && DistinctIDs(server.queue)
    requires AlwaysDelivers(ps, server, puller, from, until)
    requires |Missing(server.queue, puller.topic.seen.Keys)| >= 2
    ensures InWindow(ps.pullerCfg, from, until)
  {
    var start, n := Connect(ps, server, puller), Enough(server);
    var k := FirstTaken(ps, server, puller, from, until);
    var ticks := Still(from, k) + Still(until, n);
    EarlyThenLate(ps, start, from, until, k, n);
    RunKeepsPuller(ps, start, from, until, ticks);
    var missing := Missing(server.queue, puller.topic.seen.Keys);
    BatchIsDistinct(server.queue, puller.topic.seen.Keys);
    MissingMember(server.queue, puller.topic.seen.Keys, missing[0]);
    var n' := NetRun(ps, start, ticks);
    assert Delivered(ps, server, puller, n');
    FirstStayed(ps.pullerCfg, missing, puller, NetRun(ps, start, Still(from, k)).puller, n'.puller, from, until);
  }

  lemma FirstTaken(ps: Params, server: Topic, puller: History, from: Time, until: Time) returns (k: nat)
    requires from <= until && AlwaysDelivers(ps, server, puller, from, until)
    requires Missing(server.queue, puller.topic.seen.Keys) != []
    ensures |NetRun(ps, Connect(ps, server, puller), Still(from, k)).puller.log| == |puller.log| + 1
  {
    var start, n := Connect(ps, server, puller), Enough(server);
    StillIsScheduled(from, until, n, 0);
    assert Delivered(ps, server, puller, NetRun(ps, start, Still(from, n)));
    k := FirstAcceptance(ps, start, from, n);
  }

  lemma FirstStayed(cfg: Config, missing: seq<Message>, puller: History, mid: History, p: History, from: Time, until: Time)
    requires LogSound(cfg, puller.log, puller.clock) && puller.clock <= from
    requires SeenSound(cfg, p) && Swept(cfg, p.topic, until)
    requires Appended(puller.log, mid.log, from) && |mid.log| == |puller.log| + 1 && mid.log <= p.log
    requires DistinctIDs(missing) && missing != [] && ID(missing[0]) in p.topic.seen
    requires Logged(p.log) == Logged(puller.log) + missing
    ensures InWindow(cfg, from, until)
  {
    forall i | 0 <= i < |p.log| && ID(p.log[i].msg) == ID(missing[0]) ensures p.log[i].at <= from {
      if i < |mid.log| {
        assert p.log[i] == mid.log[i];
      } else {
        NewAcceptance(puller, p, missing, i);
        SameIDSameIndex(missing, 0, i - |puller.log|);
      }
    }
    SurvivorInWindow(cfg, p, ID(missing[0]), from, until);
  }

  /** Delivery holds on every schedule exactly when the puller's duplicate index
      outlasts the run. */
  lemma DeliveryExactlyWhen(ps: Params, server: Topic, puller: History, from: Time, until: Time)
    requires Setting(ps, server, puller, from, until)
    requires Inv(ps.pullerCfg, puller) && puller.clock <= from <= until
    ensures Remembers(ps.pullerCfg, server.queue, puller.topic.seen, from, until)
       <==> AlwaysDelivers(ps, server, puller, from, until)
  {
    if Remembers(ps.pullerCfg, server.queue, puller.topic.seen, from, until) {
      forall ticks | Scheduled(ticks, from, until) && |ticks| >= Enough(server)
        ensures Delivered(ps, server, puller, NetRun(ps, Connect(ps, server, puller), ticks))
      {
        DeliveryCompletes(ps, server, puller, from, until, ticks);
      }
    }
    if AlwaysDelivers(ps, server, puller, from, until) {
      var missing := Missing(server.queue, puller.topic.seen.Keys);
      forall m | missing != [] && m in server.queue && ID(m) in puller.topic.seen
        ensures InWindow(ps.pullerCfg, puller.topic.seen[ID(m)], until)
      {
        KnownMustStay(ps, server, puller, from, until, m);
      }
      if |missing| >= 2 {
        FirstMustStay(ps, server, puller, from, until);
      }
    }
  }

  // ---------------------------------------------------------------- reachable nodes

  /** Messages queued by a reachable topic are well formed and, after a read, alive. */
  lemma ReachableQueue(cfg: Config, es: seq<Event>, now: Time)
    requires cfg.maxMessages > 0 && WellTimed(cfg, es)
    ensures forall m :: m in Step(cfg, Run(cfg, es), Read(now)).topic.queue ==> Normalized(m) && Alive(cfg.ttl, m, now)
  {
    var h := Run(cfg, es);
    RunKeepsInv(cfg, es);
    forall m | m in AliveAt(cfg.ttl, h.topic.queue, now) ensures Normalized(m) && Alive(cfg.ttl, m, now) {
      AliveAtMember(cfg.ttl, h.topic.queue, now, m);
      var i :| 0 <= i < |h.log| && h.log[i].msg == m;
    }
  }

  /** What a caller of `DeliveryBetweenReachableNodes` can check of the two nodes. */
  ghost predicate Compatible(ps: Params, queue: seq<Message>, puller: Topic, until: Time) {
    && ps.serverCfg.ttl == ps.pullerCfg.ttl && DistinctIDs(queue)
    && (forall m :: m in queue ==> Alive(ps.serverCfg.ttl, m, until))
    && (forall m :: m in queue && ps.pullerCfg.authRequired ==> m in ps.vouched)
    && !puller.closed && |puller.queue| + |Missing(queue, puller.seen.Keys)| <= ps.pullerCfg.maxMessages
  }

  /** Between any two reachable nodes whose live queue has unique IDs, expires
      nothing before `until`, is authentic and fits into the open puller: delivery
      on every schedule, exactly when the puller's duplicate index outlasts the run. */
  lemma DeliveryBetweenReachableNodes(ps: Params, before: seq<Event>, before': seq<Event>, from: Time, until: Time)
    requires ps.serverCfg.maxMessages > 0 && WellTimed(ps.serverCfg, before)
    requires ps.pullerCfg.maxMessages > 0 && WellTimed(ps.pullerCfg, before') && Run(ps.pullerCfg, before').clock <= from <= until
    requires var server := Step(ps.serverCfg, Run(ps.serverCfg, before), Read(from)).topic;
             Compatible(ps, server.queue, Run(ps.pullerCfg, before').topic, until)
    ensures var server := Step(ps.serverCfg, Run(ps.serverCfg, before), Read(from)).topic;
            var puller := Run(ps.pullerCfg, before');
            Remembers(ps.pullerCfg, server.queue, puller.topic.seen, from, until)
            <==> AlwaysDelivers(ps, server, puller, from, until)
  {
    var server := Step(ps.serverCfg, Run(ps.serverCfg, before), Read(from)).topic;
    ReachableQueue(ps.serverCfg, before, from);
    RunKeepsInv(ps.pullerCfg, before');
    DeliveryExactlyWhen(ps, server, Run(ps.pullerCfg, before'), from, until);
  }

  /** A window that outlives the TTL is always enough. */
  lemma OutlivingWindowRemembers(ps: Params, server: Topic, puller: History, from: Time, until: Time)
    requires Setting(ps, server, puller, from, until) && Inv(ps.pullerCfg, puller)
    requires WindowOutlivesTTL(ps.pullerCfg)
    ensures Remembers(ps.pullerCfg, server.queue, puller.topic.seen, from, until)
  {
    var cfg, missing := ps.pullerCfg, Missing(server.queue, puller.topic.seen.Keys);
    forall m | m in server.queue && ID(m) in puller.topic.seen
      ensures InWindow(cfg, puller.topic.seen[ID(m)], until)
    {
      var i: nat :| i < |puller.log| && ID(puller.log[i].msg) == ID(m) && puller.log[i].at == puller.topic.seen[ID(m)];
      assert Alive(cfg.ttl, puller.log[i].msg, until);
      LiveIsInWindow(cfg, puller, i, until);
    }
    if |missing| >= 2 {
      MissingMember(server.queue, puller.topic.seen.Keys, missing[0]);
    }
  }

  // ---------------------------------------------------------------- what is lost stays lost

  predicate Carries(packet: Packet, id: MessageID) {
    match packet
    case AskIDs(_, _) => false
    case TellIDs(ids) => id in ids
    case AskMessages(wanted) => id in wanted
    case TellMessages(ms) => exists i :: 0 <= i < |ms| && ID(ms[i]) == id
  }

  /** The puller does not know the ID, nothing under way brings it, and the server
      will not announce it. */
  predicate Lost(n: Net, id: MessageID) {
    && id !in n.puller.topic.seen && !Carries(n.packet, id)
    && (id in n.announced || forall i :: 0 <= i < |n.server.queue| ==> ID(n.server.queue[i]) != id)
  }

  lemma {:induction false} FreshMember(announced: set<MessageID>, queued: seq<MessageID>, max: nat, id: MessageID)
    ensures id in Fresh(announced, queued, max) ==> id in queued && id !in announced
  {
    if queued != [] {
      FreshMember(announced, queued[..|queued| - 1], max, id);
    }
  }

  lemma {:induction false} UnseenMember(ids: seq<MessageID>, seen: set<MessageID>, id: MessageID)
    ensures id in Unseen(ids, seen) ==> id in ids
  {
    if ids != [] {
      UnseenMember(ids[..|ids| - 1], seen, id);
    }
  }

  lemma {:induction false} WithIDsMember(s: seq<Message>, wanted: set<MessageID>, m: Message)
    ensures m in WithIDs(s, wanted) ==> m in s && ID(m) in wanted
  {
    if s != [] {
      WithIDsMember(s[..|s| - 1], wanted, m);
    }
  }

  lemma PruneLoses(ps: Params, n: Net, id: MessageID, now: Time)
    requires Lost(n, id)
    ensures var queue := PruneQueue(ps.serverCfg, n.server, now).queue;
            id in n.announced || forall i :: 0 <= i < |queue| ==> ID(queue[i]) != id
  {
    var queue := PruneQueue(ps.serverCfg, n.server, now).queue;
    forall i | 0 <= i < |queue| ensures queue[i] in n.server.queue {
      AliveAtMember(ps.serverCfg.ttl, n.server.queue, now, queue[i]);
    }
  }

  lemma StepLoses(ps: Params, n: Net, id: MessageID, tick: Tick)
    requires Lost(n, id)
    ensures Lost(NetStep(ps, n, tick), id)
  {
    PruneLoses(ps, n, id, tick.now);
    var server := PruneQueue(ps.serverCfg, n.server, tick.now);
    match n.packet
    case AskIDs(_, count) =>
      FreshMember(n.announced, IDs(server.queue), count as nat, id);
    case TellIDs(ids) =>
      UnseenMember(ids, n.puller.topic.seen.Keys, id);
    case AskMessages(wanted) =>
      var ms := WithIDs(server.queue, ToSet(wanted));
      forall i | 0 <= i < |ms| ensures ID(ms[i]) != id {
        WithIDsMember(server.queue, ToSet(wanted), ms[i]);
      }
    case TellMessages(ms) =>
      if ms != [] {
        SubmitUnfolds(ps.pullerCfg, n.puller, ms[0], ms[0] in ps.vouched, tick.validatedAt, tick.now);
      }
  }

  /** A lost ID never reaches the puller over this connection, whatever the clock does. */
  lemma {:induction false} LostForGood(ps: Params, n: Net, id: MessageID, ticks: seq<Tick>)
    requires Lost(n, id)
    ensures Lost(NetRun(ps, n, ticks), id)
  {
    if ticks != [] {
      LostForGood(ps, n, id, ticks[..|ticks| - 1]);
      StepLoses(ps, NetRun(ps, n, ticks[..|ticks| - 1]), id, ticks[|ticks| - 1]);
    }
  }

  lemma OneMore(ps: Params, start: Net, now: Time, k: nat)
    ensures NetRun(ps, start, Still(now, k + 1)) == NetStep(ps, NetRun(ps, start, Still(now, k)), Tick(now, now))
  {
    StillPrefix(now, k);
  }

  /** The first step, with all IDs fitting into one round. */
  lemma AnnouncesAll(ps: Params, server: Topic, puller: History, now: Time)
    requires Setting(ps, server, puller, now, now) && 0 < |server.queue| <= ps.Count()
    ensures NetRun(ps, Connect(ps, server, puller), Still(now, 1))
         == Net(server, ToSet(IDs(server.queue)), puller, 0, TellIDs(IDs(server.queue)), 1)
  {
    var w := World(ps, server.queue, puller, now, now);
    var ids := IDs(server.queue);
    PruneIsIdle(w, server, now);
    var r := NextSlice(w, {}, 0);
    assert ids[0..r] == ids && ids[..r] == ids;
    NetStepAnnounces(ps, Connect(ps, server, puller), Tick(now, now), ids, ToSet(ids));
    OneMore(ps, Connect(ps, server, puller), now, 0);
  }

  lemma AsksForMissing(ps: Params, n: Net, queue: seq<Message>, tick: Tick)
    requires n.packet == TellIDs(IDs(queue)) && Missing(queue, n.puller.topic.seen.Keys) != []
    ensures var asked := NetStep(ps, n, tick);
            asked == n.(packet := AskMessages(IDs(Missing(queue, n.puller.topic.seen.Keys))), outstanding := asked.outstanding)
  {
    UnseenIsMissing(queue, n.puller.topic.seen.Keys, n.puller.topic.seen.Keys);
  }

  lemma SendsMissing(ps: Params, n: Net, now: Time)
    requires Setting(ps, n.server, n.puller, now, now)
    requires n.packet == AskMessages(IDs(Missing(n.server.queue, n.puller.topic.seen.Keys)))
    ensures NetStep(ps, n, Tick(now, now))
         == n.(packet := TellMessages(Missing(n.server.queue, n.puller.topic.seen.Keys)))
  {
    var queue := n.server.queue;
    assert queue[0..|queue|] == queue;
    FetchedBatch(World(ps, queue, n.puller, now, now), n, 0, |queue|, Tick(now, now));
  }

  /** The next two: everything missing is asked for and sent. */
  lemma FetchesMissing(ps: Params, start: Net, n: Net, now: Time) returns (n': Net)
    requires n == NetRun(ps, start, Still(now, 1)) && Setting(ps, n.server, n.puller, now, now)
    requires n.packet == TellIDs(IDs(n.server.queue)) && Missing(n.server.queue, n.puller.topic.seen.Keys) != []
    ensures n' == NetRun(ps, start, Still(now, 3))
    ensures n' == n.(packet := TellMessages(Missing(n.server.queue, n.puller.topic.seen.Keys)), outstanding := n'.outstanding)
  {
    OneMore(ps, start, now, 1);
    AsksForMissing(ps, n, n.server.queue, Tick(now, now));
    OneMore(ps, start, now, 2);
    SendsMissing(ps, NetRun(ps, start, Still(now, 2)), now);
    n' := NetRun(ps, start, Still(now, 3));
  }

  /** The last two: a single missing message is accepted, which drops every stale ID. */
  lemma TakesLast(ps: Params, start: Net, n: Net, y: Message, x: MessageID, now: Time)
    requires n == NetRun(ps, start, Still(now, 3))
    requires n.packet == TellMessages([y]) && Normalized(y) && Alive(ps.pullerCfg.ttl, y, now)
    requires (ps.pullerCfg.authRequired ==> y in ps.vouched) && !n.puller.topic.closed
    requires ID(y) !in n.puller.topic.seen && |n.puller.topic.queue| < ps.pullerCfg.maxMessages
    requires x != ID(y) && x in n.announced
    requires x in n.puller.topic.seen && !InWindow(ps.pullerCfg, n.puller.topic.seen[x], now)
    ensures var n' := NetRun(ps, start, Still(now, 5)); n'.packet.AskIDs? && n'.announced == n.announced && Lost(n', x)
  {
    OneMore(ps, start, now, 3);
    OneMore(ps, start, now, 4);
    TakingForgets(ps, n.puller, y, x, now);
    var taken := NetRun(ps, start, Still(now, 4));
    assert taken == n.(puller := Take(ps, n.puller, y, Tick(now, now)), packet := TellMessages([]));
  }

  lemma TakingForgets(ps: Params, p: History, y: Message, x: MessageID, now: Time)
    requires Normalized(y) && Alive(ps.pullerCfg.ttl, y, now)
    requires (ps.pullerCfg.authRequired ==> y in ps.vouched) && !p.topic.closed
    requires ID(y) !in p.topic.seen && |p.topic.queue| < ps.pullerCfg.maxMessages
    requires x != ID(y) && x in p.topic.seen && !InWindow(ps.pullerCfg, p.topic.seen[x], now)
    ensures x !in Take(ps, p, y, Tick(now, now)).topic.seen
  {
    FreshIsAccepted(ps.pullerCfg, p, y, y in ps.vouched, now, now);
  }

  lemma OnlyLast(x: Message, y: Message, seen: set<MessageID>)
    requires ID(x) in seen && ID(y) !in seen
    ensures Missing([x, y], seen) == [y]
  {
    assert [x, y][..1] == [x] && [x][..0] == [];
    assert Missing([x], seen) == [];
  }

  /** Five steps that lose `x`: it is skipped as known, and forgotten when `y` is accepted. */
  lemma StaleIsLost(ps: Params, server: Topic, puller: History, x: Message, y: Message, now: Time)
    requires Setting(ps, server, puller, now, now) && server.queue == [x, y] && ps.Count() >= 2
    requires ID(x) in puller.topic.seen && !InWindow(ps.pullerCfg, puller.topic.seen[ID(x)], now)
    requires ID(y) !in puller.topic.seen
    ensures var n := NetRun(ps, Connect(ps, server, puller), Still(now, 5));
            n.packet.AskIDs? && n.announced == ToSet(IDs(server.queue)) && Lost(n, ID(x))
  {
    OnlyLast(x, y, puller.topic.seen.Keys);
    AnnouncesAll(ps, server, puller, now);
    var start := Connect(ps, server, puller);
    var n := FetchesMissing(ps, start, NetRun(ps, start, Still(now, 1)), now);
    assert IDs(server.queue)[0] == ID(x) && y in server.queue;
    TakesLast(ps, start, n, y, ID(x), now);
  }

  /** An empty message that expires at the given time. */
  function Sample(expiresAt: Time): (m: Message)
    ensures Normalized(m) && m.payload.expiresAt == expiresAt
  {
    var payload := ZERO_MESSAGE.payload.(expiresAt := expiresAt);
    ZERO_MESSAGE.(payload := payload.(messageID := Some(ComputeID(payload))))
  }

  lemma DefaultSetting(graceAtExpiry: bool, server: Topic)
    requires server.queue == [Sample(1800), Sample(1801)]
    ensures var cfg := Defaults(graceAtExpiry);
            Setting(Params(cfg, cfg, iset{}, 0), server, AfterFirst(Sample(1800)), 601, 601)
  {
    OnlyLast(Sample(1800), Sample(1801), {ID(Sample(1800))});
    assert AfterFirst(Sample(1800)).topic.seen.Keys == {ID(Sample(1800))};
  }

  /** It happens with the default configuration: one message accepted at 0, the
      same one and another queued by the server, connected 601 seconds later. */
  lemma DefaultsLoseAnID(graceAtExpiry: bool, server: Topic, ticks: seq<Tick>)
    requires server.queue == [Sample(1800), Sample(1801)]
    ensures var cfg := Defaults(graceAtExpiry);
            var ps := Params(cfg, cfg, iset{}, 0);
            var puller := Run(cfg, [SubmitMessage(Sample(1800), true, 0, 0)]);
            var n := NetRun(ps, Connect(ps, server, puller), Still(601, 5));
            && Setting(ps, server, puller, 601, 601) && ID(Sample(1800)) in puller.topic.seen
            && n.packet.AskIDs? && n.announced == ToSet(IDs(server.queue))
            && ID(Sample(1800)) !in NetRun(ps, n, ticks).puller.topic.seen
  {
    var cfg := Defaults(graceAtExpiry);
    var ps := Params(cfg, cfg, iset{}, 0);
    var x, y := Sample(1800), Sample(1801);
    var es := [SubmitMessage(x, true, 0, 0)];
    FirstSubmission(cfg, x);
    assert es[..0] == [] && Run(cfg, es) == AfterFirst(x);
    DefaultSetting(graceAtExpiry, server);
    StaleIsLost(ps, server, AfterFirst(x), x, y, 601);
    LostForGood(ps, NetRun(ps, Connect(ps, server, AfterFirst(x)), Still(601, 5)), ID(x), ticks);
  }

  /** One second earlier it is not lost: the default window reaches 600 seconds, and
      the default TTL lets a message live for 1800. */
  lemma DefaultsBoundary(graceAtExpiry: bool)
    ensures var cfg := Defaults(graceAtExpiry);
            var queue, seen := [Sample(1800), Sample(1801)], AfterFirst(Sample(1800)).topic.seen;
            && Remembers(cfg, queue, seen, 600, 600) && !Remembers(cfg, queue, seen, 601, 601)
            && Admissible(cfg, Sample(1800), false, 0).Ok? && Admissible(cfg, Sample(1801), false, 0) == Err(TTLTooFar)
  {
    var seen := AfterFirst(Sample(1800)).topic.seen;
    OnlyLast(Sample(1800), Sample(1801), seen.Keys);
    assert Sample(1800) in [Sample(1800), Sample(1801)];
  }
}
