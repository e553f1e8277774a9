/** The serving side of message submission: which queued IDs are announced on a
    connection while the queue is appended to and pruned underneath it. */
module Announcements {
  import opened Messages
  import opened Ordering
  import opened Topics

  function ToSet<T>(s: seq<T>): set<T> {
    set x | x in s
  }

  /** The first `max` queued IDs not announced yet. */
  function Fresh(announced: set<MessageID>, queued: seq<MessageID>, max: nat): seq<MessageID> {
    if queued == [] then []
    else
      var n := |queued| - 1;
      var ids := Fresh(announced, queued[..n], max);
      if queued[n] in announced || |ids| >= max then ids else ids + [queued[n]]
  }

  /** What stays remembered: announced IDs still queued, and the new ones. */
  function Remembered(announced: set<MessageID>, queued: seq<MessageID>, ids: seq<MessageID>): set<MessageID> {
    announced * ToSet(queued) + ToSet(ids)
  }

  function Min(a: int, b: int): int {
    if a < b then a else b
  }

  /** When the announced IDs are exactly the first `c` queued ones, the fresh
      ones are the next slice, and what is remembered is the longer prefix. */
  lemma {:induction false} FreshIsNextSlice(announced: set<MessageID>, queued: seq<MessageID>, c: nat, max: nat)
    requires c <= |queued|
    requires forall j :: 0 <= j < |queued| ==> (queued[j] in announced <==> j < c)
    ensures var r := Min(c + max, |queued|);
            var ids := Fresh(announced, queued, max);
            ids == queued[c..r] && Remembered(announced, queued, ids) == ToSet(queued[..r])
  {
    FreshSlice(announced, queued, c, max);
    var r := Min(c + max, |queued|);
    forall id | id in announced * ToSet(queued) + ToSet(queued[c..r]) ensures id in queued[..r] {
      if id in queued[c..r] {
        var j :| 0 <= j < r - c && queued[c..r][j] == id;
        assert queued[..r][c + j] == id;
      } else {
        var j :| 0 <= j < |queued| && queued[j] == id;
        assert queued[..r][j] == id;
      }
    }
    forall id | id in queued[..r] ensures id in announced * ToSet(queued) + ToSet(queued[c..r]) {
      var j :| 0 <= j < r && queued[j] == id;
      if c <= j {
        assert queued[c..r][j - c] == id;
      }
    }
  }

  lemma {:induction false} FreshSlice(announced: set<MessageID>, queued: seq<MessageID>, c: nat, max: nat)
    requires c <= |queued|
    requires forall j :: 0 <= j < |queued| ==> (queued[j] in announced <==> j < c)
    ensures Fresh(announced, queued, max) == queued[c..Min(c + max, |queued|)]
  {
    if queued != [] {
      var n := |queued| - 1;
      if c <= n {
        FreshSlice(announced, queued[..n], c, max);
      } else {
        FreshSlice(announced, queued[..n], n, max);
      }
    }
  }

  // ---------------------------------------------------------------- runs of one connection

  datatype Server = Server(history: History, announced: set<MessageID>, sent: seq<MessageID>)

  /** What happens to the topic on its own, or an ID request served on this connection. */
  datatype ServerEvent = TopicEvent(e: Event) | ServeIDs(max: nat, now: Time)

  function Serve(cfg: Config, s: Server, max: nat, now: Time): Server {
    var h := Step(cfg, s.history, Read(now));
    var queued := IDs(h.topic.queue);
    var ids := Fresh(s.announced, queued, max);
    Server(h, Remembered(s.announced, queued, ids), s.sent + ids)
  }

  function ServerStep(cfg: Config, s: Server, e: ServerEvent): Server {
    match e
    case TopicEvent(te) => s.(history := Step(cfg, s.history, te))
    case ServeIDs(max, now) => Serve(cfg, s, max, now)
  }

  /** Runs start when the connection does: over any existing topic history. */
  function ServerRun(cfg: Config, start: History, es: seq<ServerEvent>): Server {
    if es == [] then Server(start, {}, [])
    else ServerStep(cfg, ServerRun(cfg, start, es[..|es| - 1]), es[|es| - 1])
  }

  /** The clock does not go back, and every ID request finds unique IDs queued. */
  ghost predicate Orderly(cfg: Config, start: History, es: seq<ServerEvent>) {
    es != [] ==>
      var s := ServerRun(cfg, start, es[..|es| - 1]);
      && Orderly(cfg, start, es[..|es| - 1])
      && match es[|es| - 1]
         case TopicEvent(te) => Timely(s.history.clock, te)
         case ServeIDs(_, now) =>
           s.history.clock <= now && DistinctIDs(Step(cfg, s.history, Read(now)).topic.queue)
  }

  /** What the topic itself goes through during a connection. */
  function TopicEvents(es: seq<ServerEvent>): (r: seq<Event>)
    ensures |r| == |es|
    ensures forall i :: 0 <= i < |r| ==> r[i] == if es[i].TopicEvent? then es[i].e else Read(es[i].now)
  {
    seq(|es|, i requires 0 <= i < |es| => if es[i].TopicEvent? then es[i].e else Read(es[i].now))
  }

  /** Serving a connection is a run of the topic: other events happen as they come,
      and a served request is a read. */
  lemma {:induction false} ConnectionIsRun(cfg: Config, before: seq<Event>, es: seq<ServerEvent>)
    ensures ServerRun(cfg, Run(cfg, before), es).history == Run(cfg, before + TopicEvents(es))
  {
    if es == [] {
      assert before + TopicEvents(es) == before;
    } else {
      var n := |es| - 1;
      assert (before + TopicEvents(es))[..|before| + n] == before + TopicEvents(es[..n]);
      ConnectionIsRun(cfg, before, es[..n]);
    }
  }

  // ---------------------------------------------------------------- live positions of the log

  /** `ps` lists, in order, the log positions that are alive at `now`, and
      `queue` holds the messages found there. */
  ghost predicate LiveIndex(policy: TTLPolicy, log: seq<Acceptance>, now: Time, ps: seq<nat>, queue: seq<Message>) {
    && |ps| == |queue| && Increasing(ps)
    && (forall j :: 0 <= j < |ps| ==> ps[j] < |log| && queue[j] == log[ps[j]].msg)
    && (forall p: nat :: p < |log| && Alive(policy, log[p].msg, now) ==> p in ps)
  }

  lemma IndexSnoc(policy: TTLPolicy, log: seq<Acceptance>, a: Acceptance, now: Time, ps: seq<nat>, queue: seq<Message>)
    requires LiveIndex(policy, log, now, ps, queue)
    ensures if Alive(policy, a.msg, now)
            then LiveIndex(policy, log + [a], now, ps + [|log|], queue + [a.msg])
            else LiveIndex(policy, log + [a], now, ps, queue)
  {
    assert (ps + [|log|])[|ps|] == |log|;
    forall p: nat | p < |log| && Alive(policy, log[p].msg, now) ensures p in ps + [|log|] {
      assert p in ps;
    }
  }

  lemma {:induction false} IndexLive(policy: TTLPolicy, log: seq<Acceptance>, now: Time) returns (ps: seq<nat>)
    ensures LiveIndex(policy, log, now, ps, AliveAt(policy, Logged(log), now))
  {
    ps := [];
    if log != [] {
      var n := |log| - 1;
      ps := IndexLive(policy, log[..n], now);
      assert log == log[..n] + [log[n]];
      assert Logged(log) == Logged(log[..n]) + [log[n].msg];
      AliveAtSnoc(policy, Logged(log[..n]), log[n].msg, now);
      IndexSnoc(policy, log[..n], log[n], now, ps, AliveAt(policy, Logged(log[..n]), now));
      if Alive(policy, log[n].msg, now) {
        ps := ps + [n];
      } else {
        assert AliveAt(policy, Logged(log), now) == AliveAt(policy, Logged(log[..n]), now);
      }
    }
  }

  // ---------------------------------------------------------------- invariant

  /** One past the last log position announced so far. */
  function Frontier(positions: seq<nat>): nat {
    if positions == [] then 0 else positions[|positions| - 1] + 1
  }

  /** `sent` reads off the IDs at increasing positions of the acceptance log. */
  ghost predicate Embedded(positions: seq<nat>, sent: seq<MessageID>, log: seq<Acceptance>) {
    && |positions| == |sent| && Increasing(positions)
    && (forall i :: 0 <= i < |sent| ==> positions[i] < |log| && sent[i] == ID(log[positions[i]].msg))
  }

  /** Live messages below the frontier are remembered as announced, and only
      IDs from below the frontier are. */
  ghost predicate Tracks(cfg: Config, s: Server, frontier: nat) {
    && frontier <= |s.history.log|
    && (forall p: nat, t: Time :: p < frontier && s.history.clock <= t && Alive(cfg.ttl, s.history.log[p].msg, t) ==>
          ID(s.history.log[p].msg) in s.announced)
    && (forall id :: id in s.announced ==> exists p: nat :: p < frontier && ID(s.history.log[p].msg) == id)
  }

  ghost predicate Unrepeated<T(!new)>(s: seq<T>) {
    forall i, j :: 0 <= i < j < |s| ==> s[i] != s[j]
  }

  ghost predicate ServerInv(cfg: Config, s: Server, positions: seq<nat>) {
    && Inv(cfg, s.history)
    && Embedded(positions, s.sent, s.history.log)
    && Tracks(cfg, s, Frontier(positions))
    && Unrepeated(s.sent)
  }

  lemma TopicEventKeepsTracks(cfg: Config, s: Server, e: Event, positions: seq<nat>)
    requires Inv(cfg, s.history) && Timely(s.history.clock, e)
    requires Embedded(positions, s.sent, s.history.log) && Tracks(cfg, s, Frontier(positions))
    ensures var s' := ServerStep(cfg, s, TopicEvent(e));
            Embedded(positions, s'.sent, s'.history.log) && Tracks(cfg, s', Frontier(positions))
  {
    var h' := Step(cfg, s.history, e);
    assert s.history.log <= h'.log && s.history.clock <= h'.clock;
    forall id | id in s.announced
      ensures exists p: nat :: p < Frontier(positions) && ID(h'.log[p].msg) == id
    {
      var p: nat :| p < Frontier(positions) && ID(s.history.log[p].msg) == id;
      assert h'.log[p] == s.history.log[p];
    }
  }

  /** The first `c` of the live positions are those below the frontier. */
  ghost predicate Splits(ps: seq<nat>, frontier: nat, c: nat) {
    c <= |ps| && forall j :: 0 <= j < |ps| ==> (ps[j] < frontier <==> j < c)
  }

  lemma {:induction false} SplitAtFrontier(ps: seq<nat>, frontier: nat) returns (c: nat)
    requires Increasing(ps)
    ensures Splits(ps, frontier, c)
  {
    c := 0;
    while c < |ps| && ps[c] < frontier
      invariant c <= |ps| && forall j :: 0 <= j < c ==> ps[j] < frontier
    {
      c := c + 1;
    }
  }

  /** When queued IDs are unique, an ID also logged at `p` sits at `p` itself. */
  lemma SameIDSamePosition(policy: TTLPolicy, log: seq<Acceptance>, now: Time, ps: seq<nat>, queue: seq<Message>, j: nat, p: nat)
    requires LiveIndex(policy, log, now, ps, queue) && DistinctIDs(queue)
    requires j < |queue| && Alive(policy, queue[j], now)
    requires p < |log| && ID(log[p].msg) == ID(queue[j])
    ensures ps[j] == p
  {
    assert Alive(policy, log[p].msg, now);
    var i :| 0 <= i < |ps| && ps[i] == p;
    SameIDSameIndex(queue, i, j);
  }

  /** At a request, the announced IDs are exactly a prefix of the live queue. */
  lemma AnnouncedIsPrefix(cfg: Config, s: Server, frontier: nat, now: Time, ps: seq<nat>, queue: seq<Message>, c: nat)
    requires s.history.clock <= now && Tracks(cfg, s, frontier) && DistinctIDs(queue)
    requires LiveIndex(cfg.ttl, s.history.log, now, ps, queue) && Splits(ps, frontier, c)
    requires forall m :: m in queue ==> Alive(cfg.ttl, m, now)
    ensures forall j :: 0 <= j < |queue| ==> (ID(queue[j]) in s.announced <==> j < c)
  {
    forall j | 0 <= j < |queue| ensures ID(queue[j]) in s.announced <==> j < c {
      assert queue[j] in queue;
      if ID(queue[j]) in s.announced {
        var p: nat :| p < frontier && ID(s.history.log[p].msg) == ID(queue[j]);
        SameIDSamePosition(cfg.ttl, s.history.log, now, ps, queue, j, p);
      }
    }
  }

  /** A live ID that was sent before lies below the frontier. */
  lemma SentLiesBelow(cfg: Config, s: Server, positions: seq<nat>, now: Time, ps: seq<nat>, queue: seq<Message>, j: nat)
    requires Embedded(positions, s.sent, s.history.log) && DistinctIDs(queue)
    requires LiveIndex(cfg.ttl, s.history.log, now, ps, queue)
    requires j < |queue| && Alive(cfg.ttl, queue[j], now) && ID(queue[j]) in s.sent
    ensures ps[j] < Frontier(positions)
  {
    var i :| 0 <= i < |s.sent| && s.sent[i] == ID(queue[j]);
    SameIDSamePosition(cfg.ttl, s.history.log, now, ps, queue, j, positions[i]);
  }

  /** Serving one request announces the slice `c..r` of the live queue. */
  lemma ServeStep(cfg: Config, s: Server, positions: seq<nat>, max: nat, now: Time)
      returns (c: nat, r: nat, ps: seq<nat>)
    requires ServerInv(cfg, s, positions) && s.history.clock <= now
    requires DistinctIDs(Step(cfg, s.history, Read(now)).topic.queue)
    ensures var queue := Serve(cfg, s, max, now).history.topic.queue;
            && LiveIndex(cfg.ttl, s.history.log, now, ps, queue) && Splits(ps, Frontier(positions), c)
            && c <= r == Min(c + max, |queue|)
            && Serve(cfg, s, max, now).sent == s.sent + IDs(queue)[c..r]
            && Serve(cfg, s, max, now).announced == ToSet(IDs(queue)[..r])
  {
    var queue := Step(cfg, s.history, Read(now)).topic.queue;
    PruneKeepsQueueSound(cfg, s.history, now);
    ps := IndexLive(cfg.ttl, s.history.log, now);
    c := SplitAtFrontier(ps, Frontier(positions));
    r := Min(c + max, |queue|);
    forall m | m in queue ensures Alive(cfg.ttl, m, now) {
      AliveAtMember(cfg.ttl, s.history.topic.queue, now, m);
    }
    AnnouncedIsPrefix(cfg, s, Frontier(positions), now, ps, queue, c);
    FreshIsNextSlice(s.announced, IDs(queue), c, max);
  }

  lemma IncreasingConcat(a: seq<nat>, b: seq<nat>)
    requires Increasing(a) && Increasing(b) && forall j :: 0 <= j < |b| ==> Frontier(a) <= b[j]
    ensures Increasing(a + b)
  {
    forall i, j | 0 <= i < j < |a + b| ensures (a + b)[i] < (a + b)[j] {
      if i < |a| <= j {
        assert a[i] < Frontier(a) <= b[j - |a|];
      }
    }
  }

  lemma ServeKeepsEmbedded(cfg: Config, s: Server, positions: seq<nat>, now: Time, ps: seq<nat>, queue: seq<Message>, c: nat, r: nat)
    requires Embedded(positions, s.sent, s.history.log)
    requires LiveIndex(cfg.ttl, s.history.log, now, ps, queue) && Splits(ps, Frontier(positions), c) && c <= r <= |ps|
    ensures Embedded(positions + ps[c..r], s.sent + IDs(queue)[c..r], s.history.log)
  {
    IncreasingConcat(positions, ps[c..r]);
  }

  lemma ServeKeepsUnrepeated(cfg: Config, s: Server, positions: seq<nat>, now: Time, ps: seq<nat>, queue: seq<Message>, c: nat, r: nat)
    requires Embedded(positions, s.sent, s.history.log) && Unrepeated(s.sent) && DistinctIDs(queue)
    requires LiveIndex(cfg.ttl, s.history.log, now, ps, queue) && Splits(ps, Frontier(positions), c) && c <= r <= |ps|
    requires forall m :: m in queue ==> Alive(cfg.ttl, m, now)
    ensures Unrepeated(s.sent + IDs(queue)[c..r])
  {
    forall j: nat | c <= j < r ensures ID(queue[j]) !in s.sent {
      assert queue[j] in queue;
      if ID(queue[j]) in s.sent {
        SentLiesBelow(cfg, s, positions, now, ps, queue, j);
      }
    }
    forall i, j | c <= i < j < r ensures ID(queue[i]) != ID(queue[j]) {
      assert Apart(queue, i, j);
    }
  }

  lemma ServeKeepsTracks(cfg: Config, s: Server, s': Server, frontier: nat, frontier': nat, now: Time,
                         ps: seq<nat>, queue: seq<Message>, r: nat)
    requires LogSound(cfg, s.history.log, s.history.clock) && s.history.clock <= now
    requires s'.history.log == s.history.log && s'.history.clock == now
    requires LiveIndex(cfg.ttl, s.history.log, now, ps, queue) && r <= |ps|
    requires frontier' <= |s.history.log| && Splits(ps, frontier', r)
    requires s'.announced == ToSet(IDs(queue)[..r])
    ensures Tracks(cfg, s', frontier')
  {
    forall p: nat, t: Time | p < frontier' && now <= t && Alive(cfg.ttl, s.history.log[p].msg, t)
      ensures ID(s.history.log[p].msg) in s'.announced
    {
      LoggedStaysAlive(cfg, s.history, p, now, t);
      var j :| 0 <= j < |ps| && ps[j] == p;
      assert IDs(queue)[..r][j] == ID(s.history.log[p].msg);
    }
    forall id | id in s'.announced ensures exists p: nat :: p < frontier' && ID(s.history.log[p].msg) == id {
      var j :| 0 <= j < r && IDs(queue)[..r][j] == id;
      assert ps[j] < frontier';
    }
  }

  /** The frontier moves past exactly the announced slice. */
  lemma FrontierMoves(positions: seq<nat>, ps: seq<nat>, c: nat, r: nat)
    requires Increasing(ps) && Splits(ps, Frontier(positions), c) && c <= r <= |ps|
    ensures Splits(ps, Frontier(positions + ps[c..r]), r)
  {
    assert Frontier(positions + ps[c..r]) == if c < r then ps[r - 1] + 1 else Frontier(positions);
  }

  lemma ServeKeepsInv(cfg: Config, s: Server, positions: seq<nat>, max: nat, now: Time) returns (positions': seq<nat>)
    requires ServerInv(cfg, s, positions) && s.history.clock <= now
    requires DistinctIDs(Step(cfg, s.history, Read(now)).topic.queue)
    ensures ServerInv(cfg, Serve(cfg, s, max, now), positions')
  {
    var s' := Serve(cfg, s, max, now);
    var queue := s'.history.topic.queue;
    StepKeepsInv(cfg, s.history, Read(now));
    var c, r, ps := ServeStep(cfg, s, positions, max, now);
    positions' := positions + ps[c..r];
    forall m | m in queue ensures Alive(cfg.ttl, m, now) {
      AliveAtMember(cfg.ttl, s.history.topic.queue, now, m);
    }
    ServeKeepsEmbedded(cfg, s, positions, now, ps, queue, c, r);
    ServeKeepsUnrepeated(cfg, s, positions, now, ps, queue, c, r);
    FrontierMoves(positions, ps, c, r);
    ServeKeepsTracks(cfg, s, s', Frontier(positions), Frontier(positions'), now, ps, queue, r);
  }

  lemma {:induction false} ServerRunKeepsInv(cfg: Config, start: History, es: seq<ServerEvent>) returns (positions: seq<nat>)
    requires Inv(cfg, start) && Orderly(cfg, start, es)
    ensures ServerInv(cfg, ServerRun(cfg, start, es), positions)
  {
    if es == [] {
      positions := [];
    } else {
      var s := ServerRun(cfg, start, es[..|es| - 1]);
      positions := ServerRunKeepsInv(cfg, start, es[..|es| - 1]);
      match es[|es| - 1]
      case TopicEvent(e) =>
        StepKeepsInv(cfg, s.history, e);
        TopicEventKeepsTracks(cfg, s, e, positions);
      case ServeIDs(max, now) =>
        positions := ServeKeepsInv(cfg, s, positions, max, now);
    }
  }

  // ---------------------------------------------------------------- main results

  /** Over a whole connection no ID is announced twice, and the announcements
      are a subsequence of the acceptance log, in order: although `announced`
      is pruned all the time. */
  lemma AnnouncedOnceInLogOrder(cfg: Config, start: History, es: seq<ServerEvent>)
    requires Inv(cfg, start) && Orderly(cfg, start, es)
    ensures var s := ServerRun(cfg, start, es);
            Unrepeated(s.sent) && exists positions :: Embedded(positions, s.sent, s.history.log)
  {
    var positions := ServerRunKeepsInv(cfg, start, es);
  }

  /** After each served request `announced` is the ID set of a prefix of the live
      queue, so it never outgrows the queue bound; the reply is the part of that
      prefix that was not announced before, and honours the requested count. */
  lemma AnnouncedIsLivePrefix(cfg: Config, start: History, es: seq<ServerEvent>, max: nat, now: Time)
      returns (c: nat, r: nat)
    requires Inv(cfg, start) && Orderly(cfg, start, es)
    requires ServerRun(cfg, start, es).history.clock <= now
    requires DistinctIDs(Step(cfg, ServerRun(cfg, start, es).history, Read(now)).topic.queue)
    ensures var s := ServerRun(cfg, start, es);
            var s' := Serve(cfg, s, max, now);
            var queue := s'.history.topic.queue;
            && c <= r <= |queue| && r - c <= max && (r < |queue| ==> r - c == max)
            && s'.announced == ToSet(IDs(queue)[..r])
            && s'.sent == s.sent + IDs(queue)[c..r]
            && |s'.announced| <= cfg.maxMessages
  {
    var s := ServerRun(cfg, start, es);
    var positions := ServerRunKeepsInv(cfg, start, es);
    var ps;
    c, r, ps := ServeStep(cfg, s, positions, max, now);
    PruneKeepsQueueSound(cfg, s.history, now);
    ToSetSize(IDs(Serve(cfg, s, max, now).history.topic.queue)[..r]);
  }

  lemma {:induction false} ToSetSize<T>(s: seq<T>)
    ensures |ToSet(s)| <= |s|
  {
    if s != [] {
      ToSetSize(s[..|s| - 1]);
      assert ToSet(s) == ToSet(s[..|s| - 1]) + {s[|s| - 1]};
    }
  }

  lemma StepKeepsUnique(cfg: Config, h: History, e: Event)
    requires Inv(cfg, h) && UniqueByConfiguration(cfg) && DistinctIDs(h.topic.queue) && Timely(h.clock, e)
    ensures Inv(cfg, Step(cfg, h, e)) && DistinctIDs(Step(cfg, h, e).topic.queue)
  {
    StepKeepsInv(cfg, h, e);
    if WindowOutlivesTTL(cfg) {
      match e
      case Shut =>
      case Read(now) => AliveAtKeepsDistinct(cfg.ttl, h.topic.queue, now);
      case SubmitMessage(m, authentic, validatedAt, now) =>
        SubmitKeepsDistinct(cfg, h, m, authentic, validatedAt, now);
    }
  }

  lemma {:induction false} GuardMakesOrderly(cfg: Config, start: History, es: seq<ServerEvent>)
    requires Inv(cfg, start) && UniqueByConfiguration(cfg) && DistinctIDs(start.topic.queue)
    requires ClockOrderly(cfg, start, es)
    ensures Orderly(cfg, start, es)
    ensures Inv(cfg, ServerRun(cfg, start, es).history) && DistinctIDs(ServerRun(cfg, start, es).history.topic.queue)
  {
    if es != [] {
      GuardMakesOrderly(cfg, start, es[..|es| - 1]);
      var h := ServerRun(cfg, start, es[..|es| - 1]).history;
      var e := match es[|es| - 1] case TopicEvent(te) => te case ServeIDs(_, now) => Read(now);
      StepKeepsUnique(cfg, h, e);
    }
  }

  predicate ClockOrderly(cfg: Config, start: History, es: seq<ServerEvent>) {
    es != [] ==>
      var s := ServerRun(cfg, start, es[..|es| - 1]);
      && ClockOrderly(cfg, start, es[..|es| - 1])
      && match es[|es| - 1]
         case TopicEvent(te) => Timely(s.history.clock, te)
         case ServeIDs(_, now) => s.history.clock <= now
  }

  /** The same from the configuration alone: only the clock has to be well behaved. */
  lemma AnnouncedOnceByConfiguration(cfg: Config, before: seq<Event>, es: seq<ServerEvent>)
    requires cfg.maxMessages > 0 && UniqueByConfiguration(cfg) && WellTimed(cfg, before)
    requires ClockOrderly(cfg, Run(cfg, before), es)
    ensures var s := ServerRun(cfg, Run(cfg, before), es);
            Unrepeated(s.sent) && exists positions :: Embedded(positions, s.sent, s.history.log)
  {
    RunKeepsInv(cfg, before);
    assert DistinctIDs(Run(cfg, before).topic.queue) by {
      UniqueIDsExactlyWhen(cfg);
    }
    GuardMakesOrderly(cfg, Run(cfg, before), es);
    AnnouncedOnceInLogOrder(cfg, Run(cfg, before), es);
  }

  /** Every connection to every reachable topic announces each ID at most once. */
  ghost predicate NeverRepeats(cfg: Config) {
    forall before, es :: WellTimed(cfg, before) && ClockOrderly(cfg, Run(cfg, before), es) ==>
      Unrepeated(ServerRun(cfg, Run(cfg, before), es).sent)
  }

  /** A queue that holds one ID twice announces it twice in one reply. */
  lemma ServeTwice(cfg: Config, start: History, m: Message, now: Time)
    requires start.topic.queue == [m, m] && Alive(cfg.ttl, m, now) && start.clock <= now
    ensures ClockOrderly(cfg, start, [ServeIDs(2, now)])
    ensures ServerRun(cfg, start, [ServeIDs(2, now)]).sent == [ID(m), ID(m)]
  {
    AliveAtWhole(cfg.ttl, [m, m], now);
    var es := [ServeIDs(2, now)];
    assert es[..0] == [];
    assert IDs([m, m]) == [ID(m), ID(m)];
    FreshOfTwo(ID(m));
    ServesQueue(cfg, Server(start, {}, []), 2, now, [m, m]);
    assert ServerRun(cfg, start, es) == Serve(cfg, Server(start, {}, []), 2, now);
  }

  lemma FreshOfTwo(id: MessageID)
    ensures Fresh({}, [id, id], 2) == [id, id]
  {
    assert [id, id][..1] == [id] && [id][..0] == [];
    assert Fresh({}, [id], 2) == [id];
  }

  lemma ServesQueue(cfg: Config, s: Server, max: nat, now: Time, queue: seq<Message>)
    requires AliveAt(cfg.ttl, s.history.topic.queue, now) == queue
    ensures Serve(cfg, s, max, now).sent == s.sent + Fresh(s.announced, IDs(queue), max)
  {
  }

  lemma ResubmitAnnouncesTwice(cfg: Config)
    requires cfg.maxMessages >= 2 && !WindowOutlivesTTL(cfg)
    ensures !NeverRepeats(cfg)
  {
    var m := ResubmitDuplicates(cfg);
    var now := cfg.duplicateTTL + 1;
    var start := Run(cfg, Twice(m, now));
    ServeTwice(cfg, start, Normalize(m).value, now);
    var sent := ServerRun(cfg, start, [ServeIDs(2, now)]).sent;
    assert !Unrepeated(sent) by {
      assert sent[0] == sent[1];
    }
  }

  /** No ID is ever announced twice on one connection exactly for the
      configurations that keep queued IDs unique. */
  lemma AnnouncedOnceExactlyWhen(cfg: Config)
    requires cfg.maxMessages > 0
    ensures UniqueByConfiguration(cfg) <==> NeverRepeats(cfg)
  {
    forall before, es | WellTimed(cfg, before) && ClockOrderly(cfg, Run(cfg, before), es) && UniqueByConfiguration(cfg)
      ensures Unrepeated(ServerRun(cfg, Run(cfg, before), es).sent)
    {
      AnnouncedOnceByConfiguration(cfg, before, es);
    }
    if !UniqueByConfiguration(cfg) {
      ResubmitAnnouncesTwice(cfg);
    }
  }
}
