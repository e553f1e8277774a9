/** Building signed messages while the KES provider is being reloaded: every step
    of every signing call may interleave with reloads and with other calls. */
module Reloading {
  import opened Messages
  import opened Arithmetic
  import opened KesTime
  import opened KesSigners

  /** The state of an in-process signer. */
  datatype Provider = Provider(network: NetworkParams, cert: KESSigningCertificate, key: SecretKey)

  /** Where one signing call stands. */
  datatype Call =
    | Started(payload: Payload)
    | Pinned(payload: Payload, provider: nat)
    | Dated(payload: Payload, provider: nat, relative: uint64)
    | Certified(payload: Payload, provider: nat, relative: uint64, cert: KESSigningCertificate)
    | Finished(payload: Payload, provider: nat, relative: uint64, msg: Message)
    | Failed

  /** Every provider ever made, the active one, and the calls under way. */
  datatype Node = Node(providers: seq<Provider>, active: Option<nat>, calls: map<nat, Call>)

  datatype Event =
    | Reload(made: Option<Provider>)                                   // the factory's product, if it succeeds
    | OtherSignature(provider: nat, period: uint64, bytes: SigningBytes)  // someone else uses a provider
    | Begin(call: nat, payload: Payload)
    | Proceed(call: nat, now: Instant)

  const NEW_NODE: Node := Node([], None, map[])

  /** What construction checks: the key matches the certificate and is fresh. */
  predicate Constructed(p: Provider) {
    p.key == Fresh(p.cert.kesVKey)
  }

  function SignWith(n: Node, i: nat, period: uint64, bytes: SigningBytes): (Node, Result<SignedKESPayload, KESError>)
    requires i < |n.providers|
  {
    var p := n.providers[i];
    var (key, r) := SignAt(p.network, p.cert.kesVKey, p.key, period, bytes);
    (n.(providers := n.providers[i := p.(key := key)]), r)
  }

  function Assemble(payload: Payload, cert: KESSigningCertificate, sig: Signature): Message {
    Message(payload.(messageID := Some(ComputeID(payload))), sig,
            OperationalCertificate(cert.kesVKey, cert.issueNumber, cert.kesPeriod, cert.signature),
            cert.coldVKey)
  }

  /** What a certified call is about to sign. */
  function Stamped(c: Call): Payload
    requires c.Certified?
  {
    c.payload.(messageID := None, kesPeriod := c.cert.kesPeriod + c.relative)
  }

  /** The next step of a call: pin the active provider, read its period, read its
      certificate and stamp the payload, then sign and check the answer. */
  function AdvanceCall(n: Node, id: nat, now: Instant): Node
    requires id in n.calls
  {
    match n.calls[id]
    case Started(payload) =>
      n.(calls := n.calls[id :=
        if n.active == None || payload.expiresAt == 0 then Failed else Pinned(payload, n.active.value)])
    case Pinned(payload, i) =>
      n.(calls := n.calls[id :=
        if i >= |n.providers| then Failed
        else
          var p := n.providers[i];
          match CurrentRelativePeriodFor(p.network, p.cert.kesPeriod, now)
          case Err(_) => Failed
          case Ok(relative) => Dated(payload, i, relative)])
    case Dated(payload, i, relative) =>
      n.(calls := n.calls[id :=
        if i >= |n.providers| || relative > MAX_UINT64 - n.providers[i].cert.kesPeriod then Failed
        else Certified(payload, i, relative, n.providers[i].cert)])
    case Certified(payload, i, relative, cert) =>
      if i >= |n.providers| then n.(calls := n.calls[id := Failed])
      else
        var stamped := Stamped(n.calls[id]);
        var (n', r) := SignWith(n, i, relative, PayloadSigningBytes(stamped));
        n'.(calls := n'.calls[id :=
          if r.Ok? && r.value.vkey == cert.kesVKey && r.value.period == relative
          then Finished(payload, i, relative, Assemble(stamped, cert, r.value.signature)) else Failed])
    case Finished(_, _, _, _) => n
    case Failed => n
  }

  function Step(n: Node, e: Event): Node {
    match e
    case Reload(None) => n
    case Reload(Some(p)) => n.(providers := n.providers + [p], active := Some(|n.providers|))
    case OtherSignature(i, period, bytes) => if i < |n.providers| then SignWith(n, i, period, bytes).0 else n
    case Begin(id, payload) => if id in n.calls then n else n.(calls := n.calls[id := Started(payload)])
    case Proceed(id, now) => if id in n.calls then AdvanceCall(n, id, now) else n
  }

  function Run(es: seq<Event>): Node {
    if es == [] then NEW_NODE else Step(Run(es[..|es| - 1]), es[|es| - 1])
  }

  /** Only constructed providers are ever swapped in. */
  predicate FactoryHonest(es: seq<Event>) {
    forall i :: 0 <= i < |es| && es[i].Reload? && es[i].made.Some? ==> Constructed(es[i].made.value)
  }

  // ---------------------------------------------------------------- invariant

  /** `m` comes from the one provider `p`: certificate, stamped period and
      signature; and it verifies exactly when the key of `p` is genuine. */
  predicate FromProvider(p: Provider, m: Message, relative: uint64) {
    && m.cert == OperationalCertificate(p.cert.kesVKey, p.cert.issueNumber, p.cert.kesPeriod, p.cert.signature)
    && m.coldVKey == p.cert.coldVKey
    && m.payload.kesPeriod - p.cert.kesPeriod == relative && ValidRelative(p.network, relative)
    && m.kesSignature.rootVKey == RootVKey(p.key.data) && m.kesSignature.signed == PayloadSigningBytes(m.payload)
    && (VerifyMessage(m) == Some(true) <==> GenuineProvider(p))
    && m.payload.messageID == Some(ID(m))
  }

  predicate GenuineProvider(p: Provider) {
    Genuine(p.key, p.cert.kesVKey)
  }

  ghost predicate CallConsistent(n: Node, c: Call) {
    match c
    case Started(_) => true
    case Failed => true
    case Pinned(_, i) => i < |n.providers|
    case Dated(_, i, _) => i < |n.providers|
    case Certified(_, i, _, cert) => i < |n.providers| && cert == n.providers[i].cert
    case Finished(payload, i, relative, m) =>
      && m.payload.body == payload.body && m.payload.expiresAt == payload.expiresAt
      && i < |n.providers| && FromProvider(n.providers[i], m, relative)
  }

  ghost predicate NodeInv(n: Node) {
    && (n.active.Some? ==> n.active.value < |n.providers|)
    && (forall id :: id in n.calls ==> CallConsistent(n, n.calls[id]))
  }

  /** The same provider, its key perhaps evolved. */
  predicate SameOrigin(p: Provider, p': Provider) {
    && p'.cert == p.cert && p'.network == p.network
    && RootVKey(p'.key.data) == RootVKey(p.key.data) && (GenuineProvider(p') <==> GenuineProvider(p))
  }

  /** Providers are never replaced or forgotten, only evolved. */
  predicate Extends(n: Node, n': Node) {
    && |n.providers| <= |n'.providers|
    && forall i :: 0 <= i < |n.providers| ==> SameOrigin(n.providers[i], n'.providers[i])
  }

  lemma ConsistencyKept(n: Node, n': Node, c: Call)
    requires CallConsistent(n, c) && Extends(n, n')
    ensures CallConsistent(n', c)
  {
    if c.Finished? {
      assert SameOrigin(n.providers[c.provider], n'.providers[c.provider]);
    }
  }

  lemma SignWithExtends(n: Node, i: nat, period: uint64, bytes: SigningBytes)
    requires i < |n.providers|
    ensures var n' := SignWith(n, i, period, bytes).0;
            Extends(n, n') && n'.active == n.active && n'.calls == n.calls && |n'.providers| == |n.providers|
  {
    VerifiesExactlyWhenGenuine(n.providers[i].network, n.providers[i].cert.kesVKey, n.providers[i].key, period, bytes);
  }

  /** What a call assembles from a provider's signature comes from that provider. */
  lemma AssembledFrom(n: Node, i: nat, payload: Payload, relative: uint64)
    requires i < |n.providers| && payload.messageID == None && payload.kesPeriod == n.providers[i].cert.kesPeriod + relative
    ensures var (n', r) := SignWith(n, i, relative, PayloadSigningBytes(payload));
            r.Ok? ==> FromProvider(n'.providers[i], Assemble(payload, n.providers[i].cert, r.value.signature), relative)
  {
    var p := n.providers[i];
    VerifiesExactlyWhenGenuine(p.network, p.cert.kesVKey, p.key, relative, PayloadSigningBytes(payload));
  }

  lemma AdvanceExtends(n: Node, id: nat, now: Instant)
    requires id in n.calls
    ensures var n' := AdvanceCall(n, id, now);
            && Extends(n, n') && n'.active == n.active
            && id in n'.calls && n'.calls == n.calls[id := n'.calls[id]]
  {
    var c := n.calls[id];
    if c.Certified? && c.provider < |n.providers| {
      SignWithExtends(n, c.provider, c.relative, PayloadSigningBytes(Stamped(c)));
    }
  }

  lemma AdvanceConsistent(n: Node, id: nat, now: Instant)
    requires NodeInv(n) && id in n.calls
    ensures var n' := AdvanceCall(n, id, now); id in n'.calls && CallConsistent(n', n'.calls[id])
  {
    var c := n.calls[id];
    assert CallConsistent(n, c);
    if c.Certified? {
      AssembledFrom(n, c.provider, Stamped(c), c.relative);
    }
  }

  lemma AdvanceKeepsInv(n: Node, id: nat, now: Instant)
    requires NodeInv(n) && id in n.calls
    ensures NodeInv(AdvanceCall(n, id, now))
  {
    var n' := AdvanceCall(n, id, now);
    AdvanceExtends(n, id, now);
    AdvanceConsistent(n, id, now);
    forall k | k in n'.calls ensures CallConsistent(n', n'.calls[k]) {
      if k != id {
        ConsistencyKept(n, n', n.calls[k]);
      }
    }
  }

  lemma StepKeepsInv(n: Node, e: Event)
    requires NodeInv(n)
    ensures NodeInv(Step(n, e))
  {
    match e
    case Proceed(id, now) =>
      if id in n.calls {
        AdvanceKeepsInv(n, id, now);
      }
    case Reload(None) =>
    case Begin(_, _) =>
    case Reload(Some(p)) =>
      var n' := Step(n, e);
      forall k | k in n'.calls ensures CallConsistent(n', n'.calls[k]) {
        ConsistencyKept(n, n', n.calls[k]);
      }
    case OtherSignature(i, period, bytes) =>
      if i < |n.providers| {
        SignWithExtends(n, i, period, bytes);
        var n' := Step(n, e);
        forall k | k in n'.calls ensures CallConsistent(n', n'.calls[k]) {
          ConsistencyKept(n, n', n.calls[k]);
        }
      }
  }

  lemma {:induction false} RunKeepsInv(es: seq<Event>)
    ensures NodeInv(Run(es))
  {
    if es != [] {
      RunKeepsInv(es[..|es| - 1]);
      StepKeepsInv(Run(es[..|es| - 1]), es[|es| - 1]);
    }
  }

  // ---------------------------------------------------------------- honest factories

  /** Every key is the fresh one of its certificate, updated as often as its period says. */
  ghost predicate KeysSound(n: Node) {
    forall i :: 0 <= i < |n.providers| ==> Sound(n.providers[i].key, n.providers[i].cert.kesVKey)
  }

  lemma SignWithKeepsSound(n: Node, i: nat, period: uint64, bytes: SigningBytes)
    requires i < |n.providers| && KeysSound(n)
    ensures KeysSound(SignWith(n, i, period, bytes).0)
  {
    SignAtSound(n.providers[i].network, n.providers[i].cert.kesVKey, n.providers[i].key, period, bytes);
  }

  lemma StepKeepsSound(n: Node, e: Event)
    requires KeysSound(n) && (e.Reload? && e.made.Some? ==> Constructed(e.made.value))
    ensures KeysSound(Step(n, e))
  {
    match e
    case Reload(_) =>
    case Begin(_, _) =>
    case OtherSignature(i, period, bytes) =>
      if i < |n.providers| {
        SignWithKeepsSound(n, i, period, bytes);
      }
    case Proceed(id, _) =>
      if id in n.calls && n.calls[id].Certified? && n.calls[id].provider < |n.providers| {
        var c := n.calls[id];
        SignWithKeepsSound(n, c.provider, c.relative, PayloadSigningBytes(Stamped(c)));
      }
  }

  lemma {:induction false} RunKeepsSound(es: seq<Event>)
    requires FactoryHonest(es)
    ensures KeysSound(Run(es))
  {
    if es != [] {
      RunKeepsSound(es[..|es| - 1]);
      StepKeepsSound(Run(es[..|es| - 1]), es[|es| - 1]);
    }
  }

  // ---------------------------------------------------------------- where a message comes from

  /** What the factory made, in order. */
  function Made(es: seq<Event>): seq<Provider> {
    if es == [] then []
    else
      var e := es[|es| - 1];
      Made(es[..|es| - 1]) + if e.Reload? && e.made.Some? then [e.made.value] else []
  }

  predicate IsTurn(es: seq<Event>, id: nat, j: nat) {
    j < |es| && es[j].Proceed? && es[j].call == id
  }

  ghost predicate RequestedBefore(es: seq<Event>, id: nat, payload: Payload, j: nat)
    requires j <= |es|
  {
    exists b :: 0 <= b < j && es[b] == Begin(id, payload)
  }

  /** At turn `j` of a call requested earlier, provider `i` was the newest one made. */
  ghost predicate PinnedAt(es: seq<Event>, id: nat, payload: Payload, i: nat, j: nat) {
    IsTurn(es, id, j) && RequestedBefore(es, id, payload, j) && |Made(es[..j])| == i + 1
  }

  /** At turn `k` of a call, the clock said that `relative` is the period of provider `i`. */
  predicate DatedAt(es: seq<Event>, id: nat, i: nat, relative: uint64, k: nat) {
    && IsTurn(es, id, k) && i < |Made(es)|
    && CurrentRelativePeriodFor(Made(es)[i].network, Made(es)[i].cert.kesPeriod, es[k].now) == Ok(relative)
  }

  ghost predicate PinnedThenDated(es: seq<Event>, id: nat, payload: Payload, i: nat, relative: uint64) {
    exists j, k :: 0 <= j < k && PinnedAt(es, id, payload, i, j) && DatedAt(es, id, i, relative, k)
  }

  ghost predicate Traced(es: seq<Event>, id: nat, c: Call) {
    match c
    case Failed => true
    case Started(payload) => RequestedBefore(es, id, payload, |es|)
    case Pinned(payload, i) => exists j :: 0 <= j && PinnedAt(es, id, payload, i, j)
    case Dated(payload, i, relative) => PinnedThenDated(es, id, payload, i, relative)
    case Certified(payload, i, relative, _) => PinnedThenDated(es, id, payload, i, relative)
    case Finished(payload, i, relative, _) => PinnedThenDated(es, id, payload, i, relative)
  }

  /** The providers are those made, in order, and the newest one is active. */
  ghost predicate Current(es: seq<Event>, n: Node) {
    && |n.providers| == |Made(es)|
    && (forall i :: 0 <= i < |n.providers| ==> SameOrigin(Made(es)[i], n.providers[i]))
    && n.active == if Made(es) == [] then None else Some(|Made(es)| - 1)
  }

  lemma PinnedStays(es: seq<Event>, e: Event, id: nat, payload: Payload, i: nat, j: nat)
    requires PinnedAt(es, id, payload, i, j)
    ensures PinnedAt(es + [e], id, payload, i, j)
  {
    assert (es + [e])[..j] == es[..j];
    var b :| 0 <= b < j && es[b] == Begin(id, payload);
    assert (es + [e])[b] == Begin(id, payload);
  }

  lemma DatedStays(es: seq<Event>, e: Event, id: nat, i: nat, relative: uint64, k: nat)
    requires DatedAt(es, id, i, relative, k)
    ensures DatedAt(es + [e], id, i, relative, k)
  {
    assert (es + [e])[..|es|] == es;
  }

  lemma TracedStays(es: seq<Event>, e: Event, id: nat, c: Call)
    requires Traced(es, id, c)
    ensures Traced(es + [e], id, c)
  {
    match c
    case Failed =>
    case Started(payload) =>
      var b :| 0 <= b < |es| && es[b] == Begin(id, payload);
      assert (es + [e])[b] == Begin(id, payload);
    case Pinned(payload, i) =>
      var j :| 0 <= j && PinnedAt(es, id, payload, i, j);
      PinnedStays(es, e, id, payload, i, j);
    case Dated(payload, i, relative) => PinnedThenDatedStays(es, e, id, payload, i, relative);
    case Certified(payload, i, relative, _) => PinnedThenDatedStays(es, e, id, payload, i, relative);
    case Finished(payload, i, relative, _) => PinnedThenDatedStays(es, e, id, payload, i, relative);
  }

  lemma PinnedThenDatedStays(es: seq<Event>, e: Event, id: nat, payload: Payload, i: nat, relative: uint64)
    requires PinnedThenDated(es, id, payload, i, relative)
    ensures PinnedThenDated(es + [e], id, payload, i, relative)
  {
    var j, k :| 0 <= j < k && PinnedAt(es, id, payload, i, j) && DatedAt(es, id, i, relative, k);
    PinnedStays(es, e, id, payload, i, j);
    DatedStays(es, e, id, i, relative, k);
  }

  lemma StepKeepsCurrent(es: seq<Event>, n: Node, e: Event)
    requires Current(es, n)
    ensures Current(es + [e], Step(n, e))
  {
    assert (es + [e])[..|es|] == es;
    match e
    case Reload(_) =>
    case Begin(_, _) =>
    case OtherSignature(i, period, bytes) =>
      if i < |n.providers| {
        SignWithExtends(n, i, period, bytes);
      }
    case Proceed(id, now) =>
      if id in n.calls {
        AdvanceExtends(n, id, now);
      }
  }

  /** A turn traces the call it advances. */
  lemma TurnIsTraced(es: seq<Event>, n: Node, id: nat, now: Instant)
    requires Current(es, n) && id in n.calls && Traced(es, id, n.calls[id])
    ensures var n' := AdvanceCall(n, id, now); id in n'.calls && Traced(es + [Proceed(id, now)], id, n'.calls[id])
  {
    var e := Proceed(id, now);
    var es', c := es + [e], n.calls[id];
    TracedStays(es, e, id, c);
    assert es'[..|es|] == es && es'[|es|] == e;
    if c.Started? {
      if n.active.Some? && c.payload.expiresAt != 0 {
        var b :| 0 <= b < |es| && es[b] == Begin(id, c.payload);
        assert es'[b] == Begin(id, c.payload);
        assert PinnedAt(es', id, c.payload, n.active.value, |es|);
      }
    } else if c.Pinned? && AdvanceCall(n, id, now).calls[id].Dated? {
      var j :| 0 <= j && PinnedAt(es, id, c.payload, c.provider, j);
      PinnedStays(es, e, id, c.payload, c.provider, j);
      assert SameOrigin(Made(es)[c.provider], n.providers[c.provider]);
      assert DatedAt(es', id, c.provider, AdvanceCall(n, id, now).calls[id].relative, |es|);
    }
  }

  ghost predicate AllTraced(es: seq<Event>, n: Node) {
    forall id :: id in n.calls ==> Traced(es, id, n.calls[id])
  }

  lemma StepKeepsTraced(es: seq<Event>, n: Node, e: Event)
    requires Current(es, n) && AllTraced(es, n)
    ensures AllTraced(es + [e], Step(n, e))
  {
    var n' := Step(n, e);
    forall id | id in n'.calls ensures Traced(es + [e], id, n'.calls[id]) {
      if id in n.calls {
        TracedStays(es, e, id, n.calls[id]);
        if e.Proceed? && e.call in n.calls {
          AdvanceExtends(n, e.call, e.now);
          TurnIsTraced(es, n, e.call, e.now);
        }
      } else {
        StartedIsTraced(es, n, e, id);
      }
    }
  }

  lemma StartedIsTraced(es: seq<Event>, n: Node, e: Event, id: nat)
    requires id !in n.calls && id in Step(n, e).calls
    ensures Traced(es + [e], id, Step(n, e).calls[id])
  {
    if e.Proceed? && e.call in n.calls {
      AdvanceExtends(n, e.call, e.now);
    }
    assert (es + [e])[|es|] == e;
  }

  lemma {:induction false} RunIsTraced(es: seq<Event>)
    ensures Current(es, Run(es)) && AllTraced(es, Run(es))
  {
    if es != [] {
      var init, e := es[..|es| - 1], es[|es| - 1];
      RunIsTraced(init);
      assert es == init + [e];
      StepKeepsCurrent(init, Run(init), e);
      StepKeepsTraced(init, Run(init), e);
    }
  }

  /** Whatever reloads and other signatures interleave, and whatever the factory
      makes: a message that a call returns was requested with that body and expiry;
      certificate, stamped period and signature come from one provider, the newest
      one made when the call took its turn `j`; the payload period minus the
      certificate's is the signed period, and the one the clock gave for that
      certificate at the later turn `k`; and the message passes verification
      exactly when the key the provider was made with is genuine. */
  lemma FromSingleProvider(es: seq<Event>, id: nat) returns (payload: Payload, i: nat, relative: uint64, j: nat, k: nat)
    requires id in Run(es).calls && Run(es).calls[id].Finished?
    ensures var m := Run(es).calls[id].msg;
            && m.payload.body == payload.body && m.payload.expiresAt == payload.expiresAt
            && j < k && PinnedAt(es, id, payload, i, j) && DatedAt(es, id, i, relative, k)
            && FromProvider(Made(es)[i], m, relative)
  {
    RunKeepsInv(es);
    RunIsTraced(es);
    var c := Run(es).calls[id];
    assert CallConsistent(Run(es), c) && Traced(es, id, c);
    payload, i, relative := c.payload, c.provider, c.relative;
    j, k :| 0 <= j < k && PinnedAt(es, id, payload, i, j) && DatedAt(es, id, i, relative, k);
    assert SameOrigin(Made(es)[i], Run(es).providers[i]);
  }

  /** With a factory that checks what it makes, it always passes verification. */
  lemma SignedBySingleProvider(es: seq<Event>, id: nat)
    requires FactoryHonest(es) && id in Run(es).calls && Run(es).calls[id].Finished?
    ensures VerifyMessage(Run(es).calls[id].msg) == Some(true)
    ensures exists payload, i: nat, relative, j: nat, k: nat ::
              && j < k && PinnedAt(es, id, payload, i, j) && DatedAt(es, id, i, relative, k)
              && FromProvider(Made(es)[i], Run(es).calls[id].msg, relative)
  {
    var payload, i, relative, j, k := FromSingleProvider(es, id);
    RunIsTraced(es);
    RunKeepsSound(es);
    var p := Run(es).providers[i];
    assert SameOrigin(Made(es)[i], p);
    EvolvedData(p.cert.kesVKey, p.key.period);
  }

  /** A signature someone else gets from a provider moves its key, and only its. */
  lemma OthersMoveTheKey(n: Node, i: nat, period: uint64, bytes: SigningBytes, j: nat)
    requires KeysSound(n) && i < |n.providers| && j < |n.providers|
    requires ValidRelative(n.providers[i].network, period) && n.providers[i].key.period <= period
    ensures var n' := Step(n, OtherSignature(i, period, bytes));
            && n'.calls == n.calls && n'.active == n.active && |n'.providers| == |n.providers|
            && n'.providers[j] == if j == i then n.providers[i].(key := Evolved(Fresh(n.providers[i].cert.kesVKey), period))
                                  else n.providers[j]
  {
    SignAtSound(n.providers[i].network, n.providers[i].cert.kesVKey, n.providers[i].key, period, bytes);
  }

  // ---------------------------------------------------------------- when a call succeeds

  /** A call that nothing interrupts: requested, then advanced four times. */
  function Uninterrupted(n: Node, id: nat, payload: Payload, now: Instant): Node {
    var e := Proceed(id, now);
    Step(Step(Step(Step(Step(n, Begin(id, payload)), e), e), e), e)
  }

  /** It succeeds exactly with an active provider whose certificate is in its
      window, a payload with an expiry, and a key that is not past the period. */
  lemma UninterruptedExactlyWhen(n: Node, id: nat, payload: Payload, now: Instant)
    requires id !in n.calls && KeysSound(n) && (n.active.Some? ==> n.active.value < |n.providers|)
    ensures id in Uninterrupted(n, id, payload, now).calls
    ensures Uninterrupted(n, id, payload, now).calls[id].Finished? <==>
              && n.active.Some? && payload.expiresAt != 0
              && var p := n.providers[n.active.value];
                 var relative := CurrentRelativePeriodFor(p.network, p.cert.kesPeriod, now);
                 relative.Ok? && p.key.period <= relative.value
  {
    var e := Proceed(id, now);
    var n1 := Step(n, Begin(id, payload));
    var n2 := Step(n1, e);
    assert n1.calls[id] == Started(payload);
    if n.active == None || payload.expiresAt == 0 {
      FailedStays(n2, id, now);
    } else {
      assert n2.calls[id] == Pinned(payload, n.active.value);
      PinnedFinishes(n2, id, now);
    }
  }

  lemma FailedStays(n: Node, id: nat, now: Instant)
    requires id in n.calls && n.calls[id] == Failed
    ensures Step(n, Proceed(id, now)) == n
  {
  }

  lemma PinnedFinishes(n: Node, id: nat, now: Instant)
    requires KeysSound(n) && id in n.calls && n.calls[id].Pinned? && n.calls[id].provider < |n.providers|
    ensures var e := Proceed(id, now);
            var n' := Step(Step(Step(n, e), e), e);
            var p := n.providers[n.calls[id].provider];
            var relative := CurrentRelativePeriodFor(p.network, p.cert.kesPeriod, now);
            id in n'.calls && (n'.calls[id].Finished? <==> relative.Ok? && p.key.period <= relative.value)
  {
    var e := Proceed(id, now);
    var p := n.providers[n.calls[id].provider];
    var n1 := Step(n, e);
    match CurrentRelativePeriodFor(p.network, p.cert.kesPeriod, now)
    case Err(_) =>
      FailedStays(n1, id, now);
    case Ok(relative) =>
      var n2 := Step(n1, e);
      assert n2.calls[id] == Certified(n.calls[id].payload, n.calls[id].provider, relative, p.cert);
      CertifiedFinishes(n2, id, now);
  }

  lemma CertifiedFinishes(n: Node, id: nat, now: Instant)
    requires KeysSound(n) && id in n.calls && n.calls[id].Certified? && n.calls[id].provider < |n.providers|
    requires var p := n.providers[n.calls[id].provider];
             n.calls[id].cert == p.cert && ValidRelative(p.network, n.calls[id].relative)
    ensures var n' := Step(n, Proceed(id, now));
            id in n'.calls &&
            (n'.calls[id].Finished? <==> n.providers[n.calls[id].provider].key.period <= n.calls[id].relative)
  {
    var c := n.calls[id];
    var p := n.providers[c.provider];
    SignAtSound(p.network, p.cert.kesVKey, p.key, c.relative, PayloadSigningBytes(Stamped(c)));
  }
}
