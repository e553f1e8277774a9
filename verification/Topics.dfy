/** The topic queue as a state machine, and what every run of it guarantees
    with respect to the unbounded log of accepted messages. */
module Topics {
  import opened Messages

  datatype Config = Config(maxMessages: int, duplicateTTL: int, subscriberBuffer: nat,
                           ttl: TTLPolicy, authRequired: bool)

  datatype Topic = Topic(closed: bool, queue: seq<Message>, seen: map<MessageID, Time>)

  datatype Rejection =
    | Malformed(why: Malformation)
    | MessageExpired
    | TTLTooFar
    | Unauthenticated
    | TopicClosed
    | AlreadyReceived
    | QueueFull

  datatype Outcome = Accepted | Rejected(reason: Rejection)

  const EMPTY: Topic := Topic(false, [], map[])

  /** An acceptance recorded `seenAt` still suppresses duplicates at `now`. */
  predicate InWindow(cfg: Config, seenAt: Time, now: Time) {
    cfg.duplicateTTL <= 0 || now - seenAt <= cfg.duplicateTTL
  }

  function PruneSeen(cfg: Config, seen: map<MessageID, Time>, now: Time): map<MessageID, Time> {
    map id | id in seen && InWindow(cfg, seen[id], now) :: seen[id]
  }

  function PruneQueue(cfg: Config, t: Topic, now: Time): Topic {
    t.(queue := AliveAt(cfg.ttl, t.queue, now))
  }

  /** The checks made before the topic lock is taken. */
  function Admissible(cfg: Config, m: Message, authentic: bool, validatedAt: Time): Result<Message, Rejection> {
    match Normalize(m)
    case Err(why) => Err(Malformed(why))
    case Ok(n) =>
      if !cfg.ttl.disable && Expired(cfg.ttl, n, validatedAt) then Err(MessageExpired)
      else if !cfg.ttl.disable && TooFar(cfg.ttl, n, validatedAt) then Err(TTLTooFar)
      else if cfg.authRequired && !authentic then Err(Unauthenticated)
      else Ok(n)
  }

  /** Exactly what passes those checks. */
  lemma AdmissibleExactlyWhen(cfg: Config, m: Message, authentic: bool, validatedAt: Time)
    ensures Admissible(cfg, m, authentic, validatedAt).Ok? <==>
              && |m.payload.body| <= 2000
              && m.payload.messageID in {None, Some(ComputeID(m.payload))}
              && (cfg.ttl.disable ||
                  (validatedAt < m.payload.expiresAt + (if cfg.ttl.graceAtExpiry then 1 else 0)
                   && m.payload.expiresAt <= validatedAt + cfg.ttl.maxTTL))
              && (cfg.authRequired ==> authentic)
    ensures Admissible(cfg, m, authentic, validatedAt).Ok? ==>
              Admissible(cfg, m, authentic, validatedAt).value
              == m.(payload := m.payload.(messageID := Some(ComputeID(m.payload))))
  {
  }

  /** Which reason is given, exactly when: the first check that fails decides. */
  lemma ReasonExactlyWhen(cfg: Config, m: Message, authentic: bool, validatedAt: Time)
    ensures var r := Admissible(cfg, m, authentic, validatedAt);
            var expiry := m.payload.expiresAt + if cfg.ttl.graceAtExpiry then 1 else 0;
            var large := |m.payload.body| > 2000;
            var wrong := m.payload.messageID.Some? && m.payload.messageID.value != ComputeID(m.payload);
            var expired := !cfg.ttl.disable && expiry <= validatedAt;
            var far := !cfg.ttl.disable && validatedAt + cfg.ttl.maxTTL < m.payload.expiresAt;
            && (r == Err(Malformed(BodyTooLarge)) <==> large)
            && (r == Err(Malformed(IDMismatch)) <==> !large && wrong)
            && (r == Err(MessageExpired) <==> !large && !wrong && expired)
            && (r == Err(TTLTooFar) <==> !large && !wrong && !expired && far)
            && (r == Err(Unauthenticated) <==> !large && !wrong && !expired && !far && cfg.authRequired && !authentic)
  {
  }

  /** The locked section: `m` passed the checks, `now` was read before locking. */
  function Enqueue(cfg: Config, t: Topic, m: Message, now: Time): (Topic, Outcome) {
    if t.closed then (t, Rejected(TopicClosed))
    else
      var p := PruneQueue(cfg, t.(seen := PruneSeen(cfg, t.seen, now)), now);
      if ID(m) in p.seen then (p, Rejected(AlreadyReceived))
      else if |p.queue| >= cfg.maxMessages then (p, Rejected(QueueFull))
      else (p.(seen := p.seen[ID(m) := now], queue := p.queue + [m]), Accepted)
  }

  function Submit(cfg: Config, t: Topic, m: Message, authentic: bool, validatedAt: Time, now: Time): (Topic, Outcome) {
    match Admissible(cfg, m, authentic, validatedAt)
    case Err(reason) => (t, Rejected(reason))
    case Ok(n) => Enqueue(cfg, t, n, now)
  }

  // ---------------------------------------------------------------- runs

  datatype Acceptance = Acceptance(msg: Message, validatedAt: Time, at: Time)

  /** A topic together with the history it has left behind. */
  datatype History = History(topic: Topic, log: seq<Acceptance>, clock: Time)

  datatype Event =
    | SubmitMessage(msg: Message, authentic: bool, validatedAt: Time, now: Time)
    | Read(now: Time)
    | Shut

  const BIRTH: History := History(EMPTY, [], 0)

  function Step(cfg: Config, h: History, e: Event): History {
    match e
    case Read(now) => h.(topic := PruneQueue(cfg, h.topic, now), clock := now)
    case Shut => h.(topic := h.topic.(closed := true))
    case SubmitMessage(m, authentic, validatedAt, now) =>
      var (t, outcome) := Submit(cfg, h.topic, m, authentic, validatedAt, now);
      History(t,
              if outcome == Accepted then h.log + [Acceptance(Normalize(m).value, validatedAt, now)] else h.log,
              now)
  }

  function Run(cfg: Config, es: seq<Event>): History {
    if es == [] then BIRTH else Step(cfg, Run(cfg, es[..|es| - 1]), es[|es| - 1])
  }

  /** The clock hypothesis for one event: it never goes back between two locked
      sections, nor between a submission's validation and its locked section. */
  predicate Timely(clock: Time, e: Event) {
    match e
    case Read(now) => clock <= now
    case Shut => true
    case SubmitMessage(_, _, validatedAt, now) => clock <= now && validatedAt <= now
  }

  predicate WellTimed(cfg: Config, es: seq<Event>) {
    es != [] ==>
      && WellTimed(cfg, es[..|es| - 1])
      && Timely(Run(cfg, es[..|es| - 1]).clock, es[|es| - 1])
  }

  function Logged(log: seq<Acceptance>): (r: seq<Message>)
    ensures |r| == |log|
    ensures forall i :: 0 <= i < |r| ==> r[i] == log[i].msg
  {
    seq(|log|, i requires 0 <= i < |log| => log[i].msg)
  }

  // ---------------------------------------------------------------- invariant

  ghost predicate LogSound(cfg: Config, log: seq<Acceptance>, clock: Time) {
    && (forall i :: 0 <= i < |log| ==>
          && log[i].validatedAt <= log[i].at <= clock
          && Normalized(log[i].msg)
          && Alive(cfg.ttl, log[i].msg, log[i].validatedAt))
    && (forall i, j :: 0 <= i < j < |log| ==> log[i].at <= log[j].at)
  }

  /** Two acceptances of one ID are further apart than the duplicate window. */
  ghost predicate Spaced(cfg: Config, log: seq<Acceptance>) {
    forall i, j :: 0 <= i < j < |log| && ID(log[i].msg) == ID(log[j].msg) ==> !InWindow(cfg, log[i].at, log[j].at)
  }

  /** `seen` remembers, for each ID, its latest acceptance, and forgets it only
      once that acceptance left the duplicate window. */
  ghost predicate SeenSound(cfg: Config, h: History) {
    && (forall id :: id in h.topic.seen ==>
          exists i :: 0 <= i < |h.log| && ID(h.log[i].msg) == id && h.log[i].at == h.topic.seen[id])
    && (forall i :: 0 <= i < |h.log| ==>
          var id := ID(h.log[i].msg);
          if id in h.topic.seen then h.log[i].at <= h.topic.seen[id] else !InWindow(cfg, h.log[i].at, h.clock))
  }

  /** From now on, queue and log cannot be told apart by a TTL filter. */
  ghost predicate QueueSound(cfg: Config, h: History) {
    && |h.topic.queue| <= cfg.maxMessages
    && (forall m :: m in h.topic.queue ==> exists i :: 0 <= i < |h.log| && h.log[i].msg == m)
    && (forall t: Time :: h.clock <= t ==>
          AliveAt(cfg.ttl, h.topic.queue, t) == AliveAt(cfg.ttl, Logged(h.log), t))
  }

  ghost predicate Inv(cfg: Config, h: History) {
    LogSound(cfg, h.log, h.clock) && Spaced(cfg, h.log) && SeenSound(cfg, h) && QueueSound(cfg, h)
  }

  /** A logged message that is alive at `later` was alive ever since its validation. */
  lemma LoggedStaysAlive(cfg: Config, h: History, i: nat, earlier: Time, later: Time)
    requires LogSound(cfg, h.log, h.clock) && i < |h.log|
    requires h.log[i].validatedAt <= earlier <= later && Alive(cfg.ttl, h.log[i].msg, later)
    ensures Alive(cfg.ttl, h.log[i].msg, earlier)
  {
  }

  lemma PruneKeepsQueueSound(cfg: Config, h: History, now: Time)
    requires LogSound(cfg, h.log, h.clock) && QueueSound(cfg, h) && h.clock <= now
    ensures QueueSound(cfg, h.(topic := PruneQueue(cfg, h.topic, now), clock := now))
    ensures PruneQueue(cfg, h.topic, now).queue == AliveAt(cfg.ttl, Logged(h.log), now)
  {
    var p := PruneQueue(cfg, h.topic, now);
    forall m | m in p.queue ensures m in h.topic.queue {
      AliveAtMember(cfg.ttl, h.topic.queue, now, m);
    }
    forall t: Time | now <= t
      ensures AliveAt(cfg.ttl, p.queue, t) == AliveAt(cfg.ttl, Logged(h.log), t)
    {
      forall j | 0 <= j < |h.topic.queue| && Alive(cfg.ttl, h.topic.queue[j], t)
        ensures Alive(cfg.ttl, h.topic.queue[j], now)
      {
        assert h.topic.queue[j] in h.topic.queue;
        var i :| 0 <= i < |h.log| && h.log[i].msg == h.topic.queue[j];
        LoggedStaysAlive(cfg, h, i, now, t);
      }
      AliveAtAbsorbs(cfg.ttl, h.topic.queue, now, t);
    }
  }

  lemma PruneKeepsSeenSound(cfg: Config, h: History, now: Time)
    requires LogSound(cfg, h.log, h.clock) && SeenSound(cfg, h) && h.clock <= now
    ensures SeenSound(cfg, h.(topic := h.topic.(seen := PruneSeen(cfg, h.topic.seen, now)), clock := now))
  {
  }

  function Admit(h: History, m: Message, validatedAt: Time, now: Time): History {
    History(h.topic.(seen := h.topic.seen[ID(m) := now], queue := h.topic.queue + [m]),
            h.log + [Acceptance(m, validatedAt, now)], now)
  }

  lemma AdmitKeepsLogSound(cfg: Config, h: History, m: Message, validatedAt: Time, now: Time)
    requires LogSound(cfg, h.log, h.clock) && Spaced(cfg, h.log) && SeenSound(cfg, h)
    requires validatedAt <= now == h.clock && Normalized(m) && Alive(cfg.ttl, m, validatedAt)
    requires ID(m) !in h.topic.seen
    ensures var h' := Admit(h, m, validatedAt, now); LogSound(cfg, h'.log, now) && Spaced(cfg, h'.log)
  {
  }

  lemma AdmitKeepsSeenSound(cfg: Config, h: History, m: Message, validatedAt: Time, now: Time)
    requires LogSound(cfg, h.log, h.clock) && SeenSound(cfg, h) && now == h.clock
    ensures SeenSound(cfg, Admit(h, m, validatedAt, now))
  {
    var h' := Admit(h, m, validatedAt, now);
    assert h'.log[|h.log|].msg == m;
    forall id | id in h'.topic.seen
      ensures exists i :: 0 <= i < |h'.log| && ID(h'.log[i].msg) == id && h'.log[i].at == h'.topic.seen[id]
    {
      if id != ID(m) {
        var i :| 0 <= i < |h.log| && ID(h.log[i].msg) == id && h.log[i].at == h.topic.seen[id];
        assert h'.log[i] == h.log[i];
      }
    }
  }

  lemma AdmitKeepsQueueSound(cfg: Config, h: History, m: Message, validatedAt: Time, now: Time)
    requires QueueSound(cfg, h) && now == h.clock && |h.topic.queue| < cfg.maxMessages
    ensures QueueSound(cfg, Admit(h, m, validatedAt, now))
  {
    var h' := Admit(h, m, validatedAt, now);
    assert h'.log[|h.log|].msg == m;
    forall x | x in h'.topic.queue ensures exists i :: 0 <= i < |h'.log| && h'.log[i].msg == x {
      if x in h.topic.queue {
        var i :| 0 <= i < |h.log| && h.log[i].msg == x;
        assert h'.log[i] == h.log[i];
      }
    }
    assert Logged(h'.log) == Logged(h.log) + [m];
    forall t: Time | now <= t
      ensures AliveAt(cfg.ttl, h'.topic.queue, t) == AliveAt(cfg.ttl, Logged(h'.log), t)
    {
      AliveAtSnoc(cfg.ttl, h.topic.queue, m, t);
      AliveAtSnoc(cfg.ttl, Logged(h.log), m, t);
    }
  }

  /** The pruning that opens every locked submission. */
  function Pruned(cfg: Config, h: History, now: Time): History {
    History(PruneQueue(cfg, h.topic.(seen := PruneSeen(cfg, h.topic.seen, now)), now), h.log, now)
  }

  lemma PruneKeepsInv(cfg: Config, h: History, now: Time)
    requires Inv(cfg, h) && h.clock <= now
    ensures Inv(cfg, Pruned(cfg, h, now))
  {
    PruneKeepsQueueSound(cfg, h, now);
    PruneKeepsSeenSound(cfg, h, now);
  }

  /** A submission is a pruning, followed by an admission when it is accepted. */
  lemma SubmitUnfolds(cfg: Config, h: History, m: Message, authentic: bool, validatedAt: Time, now: Time)
    ensures var h' := Step(cfg, h, SubmitMessage(m, authentic, validatedAt, now));
            var admitted := Admissible(cfg, m, authentic, validatedAt);
            var p := Pruned(cfg, h, now);
            if admitted.Err? || h.topic.closed then h' == h.(clock := now)
            else if ID(m) in p.topic.seen || |p.topic.queue| >= cfg.maxMessages then h' == p
            else h' == Admit(p, admitted.value, validatedAt, now)
  {
  }

  lemma StepKeepsInv(cfg: Config, h: History, e: Event)
    requires Inv(cfg, h) && Timely(h.clock, e)
    ensures Inv(cfg, Step(cfg, h, e))
  {
    match e
    case Shut =>
    case Read(now) =>
      PruneKeepsQueueSound(cfg, h, now);
    case SubmitMessage(m, authentic, validatedAt, now) =>
      SubmitKeepsInv(cfg, h, m, authentic, validatedAt, now);
  }

  lemma SubmitKeepsInv(cfg: Config, h: History, m: Message, authentic: bool, validatedAt: Time, now: Time)
    requires Inv(cfg, h) && h.clock <= now && validatedAt <= now
    ensures Inv(cfg, Step(cfg, h, SubmitMessage(m, authentic, validatedAt, now)))
  {
    var admitted := Admissible(cfg, m, authentic, validatedAt);
    var p := Pruned(cfg, h, now);
    SubmitUnfolds(cfg, h, m, authentic, validatedAt, now);
    PruneKeepsInv(cfg, h, now);
    if admitted.Ok? && !h.topic.closed && ID(m) !in p.topic.seen && |p.topic.queue| < cfg.maxMessages {
      AdmitKeepsLogSound(cfg, p, admitted.value, validatedAt, now);
      AdmitKeepsSeenSound(cfg, p, admitted.value, validatedAt, now);
      AdmitKeepsQueueSound(cfg, p, admitted.value, validatedAt, now);
    }
  }

  lemma {:induction false} RunKeepsInv(cfg: Config, es: seq<Event>)
    requires cfg.maxMessages > 0 && WellTimed(cfg, es)
    ensures Inv(cfg, Run(cfg, es))
  {
    if es != [] {
      RunKeepsInv(cfg, es[..|es| - 1]);
      StepKeepsInv(cfg, Run(cfg, es[..|es| - 1]), es[|es| - 1]);
    }
  }

  // ---------------------------------------------------------------- the log-only specification

  /** What the topic means: nothing but the acceptances so far, and whether it is open. */
  datatype Ledger = Ledger(log: seq<Acceptance>, closed: bool)

  ghost predicate RecentlyAccepted(cfg: Config, log: seq<Acceptance>, id: MessageID, now: Time) {
    exists i :: 0 <= i < |log| && ID(log[i].msg) == id && InWindow(cfg, log[i].at, now)
  }

  ghost function Verdict(cfg: Config, l: Ledger, m: Message, authentic: bool, validatedAt: Time, now: Time): Outcome {
    match Admissible(cfg, m, authentic, validatedAt)
    case Err(reason) => Rejected(reason)
    case Ok(n) =>
      if l.closed then Rejected(TopicClosed)
      else if RecentlyAccepted(cfg, l.log, ID(n), now) then Rejected(AlreadyReceived)
      else if |AliveAt(cfg.ttl, Logged(l.log), now)| >= cfg.maxMessages then Rejected(QueueFull)
      else Accepted
  }

  ghost function LedgerStep(cfg: Config, l: Ledger, e: Event): Ledger {
    match e
    case Read(_) => l
    case Shut => l.(closed := true)
    case SubmitMessage(m, authentic, validatedAt, now) =>
      if Verdict(cfg, l, m, authentic, validatedAt, now) == Accepted
      then l.(log := l.log + [Acceptance(Normalize(m).value, validatedAt, now)])
      else l
  }

  ghost function LedgerRun(cfg: Config, es: seq<Event>): Ledger {
    if es == [] then Ledger([], false) else LedgerStep(cfg, LedgerRun(cfg, es[..|es| - 1]), es[|es| - 1])
  }

  lemma SeenMatchesHistory(cfg: Config, h: History, id: MessageID, now: Time)
    requires LogSound(cfg, h.log, h.clock) && SeenSound(cfg, h) && h.clock <= now
    ensures id in PruneSeen(cfg, h.topic.seen, now) <==> RecentlyAccepted(cfg, h.log, id, now)
  {
    if id in PruneSeen(cfg, h.topic.seen, now) {
      var i :| 0 <= i < |h.log| && ID(h.log[i].msg) == id && h.log[i].at == h.topic.seen[id];
      assert RecentlyAccepted(cfg, h.log, id, now);
    }
  }

  lemma SubmitMatchesVerdict(cfg: Config, h: History, m: Message, authentic: bool, validatedAt: Time, now: Time)
    requires Inv(cfg, h) && h.clock <= now
    ensures Submit(cfg, h.topic, m, authentic, validatedAt, now).1
         == Verdict(cfg, Ledger(h.log, h.topic.closed), m, authentic, validatedAt, now)
  {
    PruneKeepsQueueSound(cfg, h, now);
    SeenMatchesHistory(cfg, h, ID(m), now);
  }

  /** The bounded queue and the pruned duplicate index implement the log-only
      specification: every run accepts exactly the same messages at the same
      times, and answers the next submission the same way. */
  lemma {:induction false} TopicRefinesLedger(cfg: Config, es: seq<Event>)
    requires cfg.maxMessages > 0 && WellTimed(cfg, es)
    ensures var h := Run(cfg, es); LedgerRun(cfg, es) == Ledger(h.log, h.topic.closed)
    ensures forall m, authentic, validatedAt, now | Run(cfg, es).clock <= now ::
              Submit(cfg, Run(cfg, es).topic, m, authentic, validatedAt, now).1
              == Verdict(cfg, LedgerRun(cfg, es), m, authentic, validatedAt, now)
  {
    RunKeepsInv(cfg, es);
    if es != [] {
      TopicRefinesLedger(cfg, es[..|es| - 1]);
    }
    forall m, authentic, validatedAt, now | Run(cfg, es).clock <= now
      ensures Submit(cfg, Run(cfg, es).topic, m, authentic, validatedAt, now).1
           == Verdict(cfg, Ledger(Run(cfg, es).log, Run(cfg, es).topic.closed), m, authentic, validatedAt, now)
    {
      SubmitMatchesVerdict(cfg, Run(cfg, es), m, authentic, validatedAt, now);
    }
  }

  /** A read at `now` leaves in the queue exactly the accepted messages that are
      alive at `now`, in acceptance order and within the configured bound. */
  lemma QueueRefinesLog(cfg: Config, es: seq<Event>, now: Time)
    requires cfg.maxMessages > 0 && WellTimed(cfg, es) && Run(cfg, es).clock <= now
    ensures var q := Step(cfg, Run(cfg, es), Read(now)).topic.queue;
            q == AliveAt(cfg.ttl, Logged(LedgerRun(cfg, es).log), now) && |q| <= cfg.maxMessages
  {
    RunKeepsInv(cfg, es);
    TopicRefinesLedger(cfg, es);
    PruneKeepsQueueSound(cfg, Run(cfg, es), now);
  }

  /** An otherwise valid submission to an open topic is a duplicate exactly when
      its ID was accepted within the window; so acceptances of one ID are spaced. */
  lemma DuplicateIffRecentlyAccepted(cfg: Config, es: seq<Event>, m: Message, authentic: bool, validatedAt: Time, now: Time)
    requires cfg.maxMessages > 0 && WellTimed(cfg, es) && Run(cfg, es).clock <= now
    requires !Run(cfg, es).topic.closed && Admissible(cfg, m, authentic, validatedAt).Ok?
    ensures Submit(cfg, Run(cfg, es).topic, m, authentic, validatedAt, now).1 == Rejected(AlreadyReceived)
       <==> RecentlyAccepted(cfg, Run(cfg, es).log, ID(m), now)
    ensures Spaced(cfg, Run(cfg, es).log)
  {
    RunKeepsInv(cfg, es);
    SubmitMatchesVerdict(cfg, Run(cfg, es), m, authentic, validatedAt, now);
  }

  lemma {:induction false} LogGrowsByEvents(cfg: Config, es: seq<Event>, more: seq<Event>)
    ensures Run(cfg, es).log <= Run(cfg, es + more).log
  {
    if more != [] {
      var n := |more| - 1;
      assert (es + more)[..|es| + n] == es + more[..n];
      LogGrowsByEvents(cfg, es, more[..n]);
    } else {
      assert es + more == es;
    }
  }

  /** An ID that was not recent stays so, as long as no new acceptance brings it back. */
  lemma StaysForgotten(cfg: Config, log: seq<Acceptance>, log': seq<Acceptance>, id: MessageID, now: Time, later: Time)
    requires log <= log' && now <= later && !RecentlyAccepted(cfg, log, id, now)
    requires forall i :: |log| <= i < |log'| ==> ID(log'[i].msg) != id
    ensures !RecentlyAccepted(cfg, log', id, later)
  {
    forall i | 0 <= i < |log'| && ID(log'[i].msg) == id ensures !InWindow(cfg, log'[i].at, later) {
      assert log'[i] == log[i];
    }
  }

  /** A queue-full rejection never blocks a retry: however long the wait, and
      whatever happens in between short of accepting that very ID, the retry is
      not turned away as a duplicate. */
  lemma QueueFullNeverBlocksRetry(cfg: Config, es: seq<Event>, e: Event, more: seq<Event>,
                                  authentic: bool, validatedAt: Time, now: Time)
    requires e.SubmitMessage? && cfg.maxMessages > 0
    requires WellTimed(cfg, es) && WellTimed(cfg, es + ([e] + more))
    requires Run(cfg, es).clock <= e.now <= now && Run(cfg, es + ([e] + more)).clock <= now
    requires Submit(cfg, Run(cfg, es).topic, e.msg, e.authentic, e.validatedAt, e.now).1 == Rejected(QueueFull)
    requires var log := Run(cfg, es + ([e] + more)).log;
             forall i :: |Run(cfg, es).log| <= i < |log| ==> ID(log[i].msg) != ID(e.msg)
    ensures Submit(cfg, Run(cfg, es + ([e] + more)).topic, e.msg, authentic, validatedAt, now).1
            != Rejected(AlreadyReceived)
  {
    RunKeepsInv(cfg, es);
    RunKeepsInv(cfg, es + ([e] + more));
    LogGrowsByEvents(cfg, es, [e] + more);
    RetryNotDuplicate(cfg, Run(cfg, es), Run(cfg, es + ([e] + more)), e, authentic, validatedAt, now);
  }

  lemma RetryNotDuplicate(cfg: Config, h: History, h': History, e: Event, authentic: bool, validatedAt: Time, now: Time)
    requires Inv(cfg, h) && Inv(cfg, h') && h.log <= h'.log && e.SubmitMessage?
    requires h.clock <= e.now <= now && h'.clock <= now
    requires Submit(cfg, h.topic, e.msg, e.authentic, e.validatedAt, e.now).1 == Rejected(QueueFull)
    requires forall i :: |h.log| <= i < |h'.log| ==> ID(h'.log[i].msg) != ID(e.msg)
    ensures Submit(cfg, h'.topic, e.msg, authentic, validatedAt, now).1 != Rejected(AlreadyReceived)
  {
    assert !RecentlyAccepted(cfg, h.log, ID(e.msg), e.now) by {
      SubmitMatchesVerdict(cfg, h, e.msg, e.authentic, e.validatedAt, e.now);
    }
    StaysForgotten(cfg, h.log, h'.log, ID(e.msg), e.now, now);
    NotRecentNotDuplicate(cfg, h', e.msg, authentic, validatedAt, now);
  }

  lemma NotRecentNotDuplicate(cfg: Config, h: History, m: Message, authentic: bool, validatedAt: Time, now: Time)
    requires Inv(cfg, h) && h.clock <= now && !RecentlyAccepted(cfg, h.log, ID(m), now)
    ensures Submit(cfg, h.topic, m, authentic, validatedAt, now).1 != Rejected(AlreadyReceived)
  {
    SubmitMatchesVerdict(cfg, h, m, authentic, validatedAt, now);
  }

  // ---------------------------------------------------------------- queue IDs

  ghost predicate Apart(s: seq<Message>, i: int, j: int)
    requires 0 <= i < j < |s|
  {
    ID(s[i]) != ID(s[j])
  }

  ghost predicate DistinctIDs(s: seq<Message>) {
    forall i, j {:trigger Apart(s, i, j)} :: 0 <= i < j < |s| ==> Apart(s, i, j)
  }

  lemma SameIDSameIndex(s: seq<Message>, i: nat, j: nat)
    requires DistinctIDs(s) && i < |s| && j < |s| && ID(s[i]) == ID(s[j])
    ensures i == j
  {
    assert i < j ==> Apart(s, i, j);
    assert j < i ==> Apart(s, j, i);
  }

  lemma DistinctSnoc(s: seq<Message>, m: Message)
    requires DistinctIDs(s) && forall x :: x in s ==> ID(x) != ID(m)
    ensures DistinctIDs(s + [m])
  {
    forall i, j | 0 <= i < j < |s| + 1 ensures Apart(s + [m], i, j) {
      if j < |s| {
        assert Apart(s, i, j);
      } else {
        assert s[i] in s;
      }
    }
  }

  lemma DistinctInit(s: seq<Message>)
    requires DistinctIDs(s) && s != []
    ensures var n := |s| - 1; DistinctIDs(s[..n]) && forall x :: x in s[..n] ==> ID(x) != ID(s[n])
  {
    var n := |s| - 1;
    forall i, j | 0 <= i < j < n ensures Apart(s[..n], i, j) {
      assert Apart(s, i, j);
    }
    forall x | x in s[..n] ensures ID(x) != ID(s[n]) {
      var i :| 0 <= i < n && s[..n][i] == x;
      assert Apart(s, i, n);
    }
  }

  /** The duplicate window outlives every message, up to the second of grace. */
  predicate WindowOutlivesTTL(cfg: Config) {
    cfg.duplicateTTL <= 0 ||
    (!cfg.ttl.disable && cfg.ttl.maxTTL + (if cfg.ttl.graceAtExpiry then 1 else 0) <= cfg.duplicateTTL + 1)
  }

  /** The configurations that keep queued IDs unique. */
  predicate UniqueByConfiguration(cfg: Config) {
    cfg.maxMessages == 1 || WindowOutlivesTTL(cfg)
  }

  lemma {:induction false} AliveAtKeepsDistinct(policy: TTLPolicy, s: seq<Message>, now: Time)
    requires DistinctIDs(s)
    ensures DistinctIDs(AliveAt(policy, s, now))
  {
    if s != [] {
      var n := |s| - 1;
      DistinctInit(s);
      AliveAtKeepsDistinct(policy, s[..n], now);
      if Alive(policy, s[n], now) {
        forall m | m in AliveAt(policy, s[..n], now) ensures m in s[..n] {
          AliveAtMember(policy, s[..n], now, m);
        }
        DistinctSnoc(AliveAt(policy, s[..n], now), s[n]);
      } else {
        assert AliveAt(policy, s, now) == AliveAt(policy, s[..n], now);
      }
    }
  }

  /** A logged message that is still alive is still in the duplicate window. */
  lemma LiveIsInWindow(cfg: Config, h: History, i: nat, now: Time)
    requires LogSound(cfg, h.log, h.clock) && WindowOutlivesTTL(cfg) && i < |h.log|
    requires Alive(cfg.ttl, h.log[i].msg, now)
    ensures InWindow(cfg, h.log[i].at, now)
  {
  }

  /** So an ID absent from the duplicate index is absent from the live queue. */
  lemma PrunedQueueLacks(cfg: Config, h: History, id: MessageID, now: Time)
    requires Inv(cfg, h) && h.clock <= now && WindowOutlivesTTL(cfg)
    requires id !in PruneSeen(cfg, h.topic.seen, now)
    ensures forall x :: x in AliveAt(cfg.ttl, h.topic.queue, now) ==> ID(x) != id
  {
    SeenMatchesHistory(cfg, h, id, now);
    forall x | x in AliveAt(cfg.ttl, h.topic.queue, now) ensures ID(x) != id {
      AliveAtMember(cfg.ttl, h.topic.queue, now, x);
      var i :| 0 <= i < |h.log| && h.log[i].msg == x;
      LiveIsInWindow(cfg, h, i, now);
      assert RecentlyAccepted(cfg, h.log, ID(x), now);
    }
  }

  lemma SubmitKeepsDistinct(cfg: Config, h: History, m: Message, authentic: bool, validatedAt: Time, now: Time)
    requires Inv(cfg, h) && h.clock <= now && validatedAt <= now
    requires WindowOutlivesTTL(cfg) && DistinctIDs(h.topic.queue)
    ensures DistinctIDs(Step(cfg, h, SubmitMessage(m, authentic, validatedAt, now)).topic.queue)
  {
    var p := Pruned(cfg, h, now);
    SubmitUnfolds(cfg, h, m, authentic, validatedAt, now);
    AliveAtKeepsDistinct(cfg.ttl, h.topic.queue, now);
    var admitted := Admissible(cfg, m, authentic, validatedAt);
    if ID(m) !in p.topic.seen && admitted.Ok? {
      PrunedQueueLacks(cfg, h, ID(m), now);
      DistinctSnoc(p.topic.queue, admitted.value);
    }
  }

  lemma {:induction false} RunKeepsDistinct(cfg: Config, es: seq<Event>)
    requires cfg.maxMessages > 0 && WindowOutlivesTTL(cfg) && WellTimed(cfg, es)
    ensures DistinctIDs(Run(cfg, es).topic.queue)
  {
    if es != [] {
      var h := Run(cfg, es[..|es| - 1]);
      RunKeepsDistinct(cfg, es[..|es| - 1]);
      RunKeepsInv(cfg, es[..|es| - 1]);
      match es[|es| - 1]
      case Shut =>
      case Read(now) => AliveAtKeepsDistinct(cfg.ttl, h.topic.queue, now);
      case SubmitMessage(m, authentic, validatedAt, now) =>
        SubmitKeepsDistinct(cfg, h, m, authentic, validatedAt, now);
    }
  }

  /** The zero value of a message. */
  const ZERO_MESSAGE: Message :=
    Message(Payload(None, [], 0, 0), Signature([], 0, SigningBytes([], 0, 0)), OperationalCertificate([], 0, 0, []), [])

  /** A message, and the same again later. */
  function Twice(m: Message, now: Time): seq<Event> {
    [SubmitMessage(m, true, 0, 0), SubmitMessage(m, true, now, now)]
  }

  /** The state after the first of those submissions. */
  function AfterFirst(m: Message): History {
    History(Topic(false, [m], map[ID(m) := 0]), [Acceptance(m, 0, 0)], 0)
  }

  lemma FirstSubmission(cfg: Config, m: Message)
    requires cfg.maxMessages > 0 && Normalize(m).Ok? && Alive(cfg.ttl, m, 0)
    ensures Step(cfg, BIRTH, SubmitMessage(m, true, 0, 0)) == AfterFirst(Normalize(m).value)
  {
    SubmitUnfolds(cfg, BIRTH, m, true, 0, 0);
    assert Pruned(cfg, BIRTH, 0) == BIRTH;
  }

  lemma SecondSubmission(cfg: Config, m: Message, now: Time)
    requires cfg.maxMessages > 1 && Normalize(m).Ok? && Alive(cfg.ttl, m, now) && !InWindow(cfg, 0, now)
    ensures var n := Normalize(m).value;
            var h := Step(cfg, AfterFirst(n), SubmitMessage(m, true, now, now));
            h.topic.queue == [n, n] && h.clock == now
  {
    var n := Normalize(m).value;
    SubmitUnfolds(cfg, AfterFirst(n), m, true, now, now);
    AliveAtWhole(cfg.ttl, [n], now);
    assert Pruned(cfg, AfterFirst(n), now).topic.queue == [n];
  }

  lemma {:induction false} RunOfTwo(cfg: Config, e: Event, e': Event)
    ensures Run(cfg, [e, e']) == Step(cfg, Step(cfg, BIRTH, e), e')
    ensures WellTimed(cfg, [e, e']) <==> Timely(0, e) && Timely(Step(cfg, BIRTH, e).clock, e')
  {
    assert [e, e'][..1] == [e] && [e][..0] == [];
    assert Run(cfg, [e]) == Step(cfg, BIRTH, e);
    assert Run(cfg, []) == BIRTH && (WellTimed(cfg, [e]) <==> Timely(0, e));
  }

  lemma TwinsNotDistinct(m: Message)
    ensures !DistinctIDs([m, m])
  {
    assert !Apart([m, m], 0, 1);
  }

  /** Submitting a maximally long-lived message again one second after the window
      closes queues it twice. */
  lemma ResubmitDuplicates(cfg: Config) returns (m: Message)
    requires cfg.maxMessages >= 2 && !WindowOutlivesTTL(cfg)
    ensures cfg.duplicateTTL > 0 && Normalize(m).Ok? && Alive(cfg.ttl, m, cfg.duplicateTTL + 1)
    ensures var es := Twice(m, cfg.duplicateTTL + 1);
            && WellTimed(cfg, es) && !DistinctIDs(Run(cfg, es).topic.queue)
            && Run(cfg, es).topic.queue == [Normalize(m).value, Normalize(m).value]
            && Run(cfg, es).clock == cfg.duplicateTTL + 1
  {
    m := LongLived(cfg);
    SubmitTwice(cfg, m, cfg.duplicateTTL + 1);
    TwinsNotDistinct(Normalize(m).value);
  }

  /** A message that at time 0 has the longest lifetime allowed. */
  lemma LongLived(cfg: Config) returns (m: Message)
    requires !WindowOutlivesTTL(cfg)
    ensures cfg.duplicateTTL > 0 && !InWindow(cfg, 0, cfg.duplicateTTL + 1) && Normalize(m).Ok?
    ensures Alive(cfg.ttl, m, 0) && Alive(cfg.ttl, m, cfg.duplicateTTL + 1)
  {
    m := ZERO_MESSAGE.(payload := ZERO_MESSAGE.payload.(expiresAt := cfg.ttl.maxTTL));
  }

  lemma SubmitTwice(cfg: Config, m: Message, now: Time)
    requires cfg.maxMessages > 1 && Normalize(m).Ok? && !InWindow(cfg, 0, now)
    requires Alive(cfg.ttl, m, 0) && Alive(cfg.ttl, m, now)
    ensures WellTimed(cfg, Twice(m, now))
    ensures var h, n := Run(cfg, Twice(m, now)), Normalize(m).value; h.topic.queue == [n, n] && h.clock == now
  {
    FirstSubmission(cfg, m);
    SecondSubmission(cfg, m, now);
    RunOfTwo(cfg, SubmitMessage(m, true, 0, 0), SubmitMessage(m, true, now, now));
  }

  /** Queue IDs are pairwise distinct in every reachable state exactly for the
      configurations whose duplicate window outlives the TTL (or whose queue
      cannot hold two messages). */
  lemma UniqueIDsExactlyWhen(cfg: Config)
    requires cfg.maxMessages > 0
    ensures UniqueByConfiguration(cfg)
       <==> forall es :: WellTimed(cfg, es) ==> DistinctIDs(Run(cfg, es).topic.queue)
  {
    forall es | WellTimed(cfg, es) && UniqueByConfiguration(cfg)
      ensures DistinctIDs(Run(cfg, es).topic.queue)
    {
      RunKeepsInv(cfg, es);
      if WindowOutlivesTTL(cfg) {
        RunKeepsDistinct(cfg, es);
      }
    }
    if !UniqueByConfiguration(cfg) {
      var m := ResubmitDuplicates(cfg);
    }
  }

  /** The defaults: 100 messages, a 10 minute window, a 30 minute maximum TTL. */
  function Defaults(graceAtExpiry: bool): Config {
    Config(100, 600, 16, TTLPolicy(false, 1800, graceAtExpiry), false)
  }

  lemma DefaultsAdmitOneIDTwice(graceAtExpiry: bool)
    ensures exists es :: WellTimed(Defaults(graceAtExpiry), es) && !DistinctIDs(Run(Defaults(graceAtExpiry), es).topic.queue)
  {
    var m := ResubmitDuplicates(Defaults(graceAtExpiry));
  }

  /** The clock hypothesis is needed: one read with an earlier clock drops a
      message as too far in the future, and it never comes back. */
  lemma ClockSetBackLosesMessage(cfg: Config)
    requires cfg.maxMessages > 0 && !cfg.ttl.disable && cfg.ttl.maxTTL > 0
    ensures exists m: Message ::
              var es := [SubmitMessage(m, true, 1, 1), Read(0), Read(1)];
              Run(cfg, es).topic.queue == [] && |AliveAt(cfg.ttl, Logged(Run(cfg, es).log), 1)| == 1
  {
    var m := ZERO_MESSAGE.(payload := ZERO_MESSAGE.payload.(expiresAt := cfg.ttl.maxTTL + 1));
    var n := Normalize(m).value;
    var es := [SubmitMessage(m, true, 1, 1), Read(0), Read(1)];
    SubmitUnfolds(cfg, BIRTH, m, true, 1, 1);
    assert Pruned(cfg, BIRTH, 1).topic.queue == [];
    var h1 := Step(cfg, BIRTH, es[0]);
    assert h1.topic.queue == [n] && Logged(h1.log) == [n];
    assert es[..2][..1] == es[..1] && es[..1][..0] == [];
    assert Run(cfg, es[..1]) == h1;
    assert AliveAt(cfg.ttl, [n], 0) == [];
    assert Run(cfg, es[..2]).topic.queue == [];
    AliveAtWhole(cfg.ttl, [n], 1);
  }
}
