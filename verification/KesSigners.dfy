/** In-process KES signing: keys that only evolve forward, the two signer objects,
    and agreement between signing and verification. */
module KesSigners {
  import opened Messages
  import opened Arithmetic
  import opened KesTime

  // ---------------------------------------------------------------- the KES scheme, symbolically

  /** Secret key material: the root, or the result of one more update. */
  datatype KeyData = Root(vkey: Bytes) | Updated(previous: KeyData)

  datatype SecretKey = SecretKey(depth: nat, period: nat, data: KeyData)

  function RootVKey(d: KeyData): Bytes {
    match d
    case Root(vkey) => vkey
    case Updated(previous) => RootVKey(previous)
  }

  function Generation(d: KeyData): nat {
    match d
    case Root(_) => 0
    case Updated(previous) => Generation(previous) + 1
  }

  function Update(k: SecretKey): Option<SecretKey> {
    if k.period + 1 < Pow2(k.depth) then Some(SecretKey(k.depth, k.period + 1, Updated(k.data))) else None
  }

  /** A key signs at its own period only; what the signature is depends on the
      key material, not on the recorded period. */
  function KesSign(k: SecretKey, period: nat, bytes: SigningBytes): Option<Signature> {
    if k.period == period then Some(Signature(RootVKey(k.data), Generation(k.data), bytes)) else None
  }

  predicate KesVerify(vkey: Bytes, period: nat, bytes: SigningBytes, sig: Signature) {
    sig == Signature(vkey, period, bytes)
  }

  function Fresh(vkey: Bytes): SecretKey {
    SecretKey(KES_DEPTH, 0, Root(vkey))
  }

  /** The key after `n` updates. */
  function Evolved(k: SecretKey, n: nat): SecretKey {
    if n == 0 then k
    else
      var e := Evolved(k, n - 1);
      SecretKey(e.depth, e.period + 1, Updated(e.data))
  }

  /** A key is sound when it is the fresh key updated as often as its period says. */
  predicate Sound(k: SecretKey, vkey: Bytes) {
    k == Evolved(Fresh(vkey), k.period) && k.period < 64
  }

  lemma {:induction false} EvolvedData(vkey: Bytes, n: nat)
    ensures var k := Evolved(Fresh(vkey), n);
            k.depth == KES_DEPTH && k.period == n && RootVKey(k.data) == vkey && Generation(k.data) == n
  {
    if n > 0 {
      EvolvedData(vkey, n - 1);
    }
  }

  lemma UpdateSound(k: SecretKey, vkey: Bytes)
    requires Sound(k, vkey)
    ensures Update(k).Some? <==> k.period + 1 < 64
    ensures Update(k).Some? ==> Sound(Update(k).value, vkey) && Update(k).value.period == k.period + 1
  {
    EvolvedData(vkey, k.period);
    assert Pow2(KES_DEPTH) == 64;
  }

  lemma SoundSignatureVerifies(k: SecretKey, vkey: Bytes, bytes: SigningBytes)
    requires Sound(k, vkey)
    ensures KesSign(k, k.period, bytes).Some? && KesVerify(vkey, k.period, bytes, KesSign(k, k.period, bytes).value)
  {
    EvolvedData(vkey, k.period);
  }

  /** The message ID is no part of what is signed. */
  function PayloadSigningBytes(p: Payload): SigningBytes {
    SigningBytes(p.body, p.kesPeriod, p.expiresAt)
  }

  /** Checks a message against the certificate it carries. */
  function VerifyMessage(m: Message): Option<bool> {
    if m.payload.kesPeriod < m.cert.kesPeriod then None
    else Some(KesVerify(m.cert.kesVKey, m.payload.kesPeriod - m.cert.kesPeriod, PayloadSigningBytes(m.payload), m.kesSignature))
  }

  /** What is signed is the whole payload except its ID. */
  lemma SigningBytesCoverPayload(p: Payload, q: Payload)
    ensures PayloadSigningBytes(p) == PayloadSigningBytes(q) <==> p.(messageID := None) == q.(messageID := None)
  {
  }

  /** A signature that verifies binds everything it covers: on any other message it
      verifies exactly if that has the same payload, up to the ID, and the same
      key and first period in its certificate. */
  lemma VerificationBinds(m: Message, m': Message)
    requires VerifyMessage(m) == Some(true) && m'.kesSignature == m.kesSignature
    ensures VerifyMessage(m') == Some(true) <==>
              && m'.payload.(messageID := None) == m.payload.(messageID := None)
              && m'.cert.kesVKey == m.cert.kesVKey && m'.cert.kesPeriod == m.cert.kesPeriod
    ensures VerifyMessage(m') == None <==> m'.payload.kesPeriod < m'.cert.kesPeriod
  {
    SigningBytesCoverPayload(m.payload, m'.payload);
  }

  // ---------------------------------------------------------------- KESSigner

  datatype KESSigningCertificate =
    KESSigningCertificate(kesVKey: Bytes, issueNumber: nat, kesPeriod: uint64, signature: Bytes, coldVKey: Bytes)

  datatype SignedKESPayload = SignedKESPayload(vkey: Bytes, period: uint64, signature: Signature)

  datatype KESError = PeriodPastValidity | CannotEvolveBackward | CannotUpdate | CannotSign

  /** Updates the key, one period at a time, until it arrives or an update fails. */
  function EvolveTo(k: SecretKey, period: nat): (SecretKey, Option<KESError>)
    decreases period - k.period
  {
    if k.period >= period then (k, None)
    else
      match Update(k)
      case None => (k, Some(CannotUpdate))
      case Some(next) => EvolveTo(next, period)
  }

  function Advance(k: SecretKey, period: nat): (SecretKey, Option<KESError>) {
    if period < k.period then (k, Some(CannotEvolveBackward)) else EvolveTo(k, period)
  }

  /** The signer's state change, for whatever key it holds: the new key, and the
      answer. `vkey` is the certificate's. */
  function SignAt(network: NetworkParams, vkey: Bytes, k: SecretKey, period: uint64, bytes: SigningBytes)
    : (SecretKey, Result<SignedKESPayload, KESError>)
  {
    if !ValidRelative(network, period) then (k, Err(PeriodPastValidity))
    else
      var (next, failed) := Advance(k, period);
      if failed.Some? then (next, Err(failed.value))
      else
        match KesSign(next, period, bytes)
        case None => (next, Err(CannotSign))
        case Some(sig) => (next, Ok(SignedKESPayload(vkey, period, sig)))
  }

  /** The key belongs to the verification key and was updated as often as it says. */
  predicate Genuine(k: SecretKey, vkey: Bytes) {
    RootVKey(k.data) == vkey && Generation(k.data) == k.period
  }

  /** Evolving never changes what the key is genuine for. */
  lemma {:induction false} EvolveKeepsOrigin(k: SecretKey, period: nat)
    ensures var (next, failed) := EvolveTo(k, period);
            && RootVKey(next.data) == RootVKey(k.data)
            && Generation(next.data) - next.period == Generation(k.data) - k.period
            && (failed == None && k.period <= period ==> next.period == period)
    decreases period - k.period
  {
    if k.period < period && Update(k).Some? {
      EvolveKeepsOrigin(Update(k).value, period);
    }
  }

  /** With any key at all: a signature that is issued verifies under the
      certificate exactly when the held key is genuine for it. */
  lemma VerifiesExactlyWhenGenuine(network: NetworkParams, vkey: Bytes, k: SecretKey, period: uint64, bytes: SigningBytes)
    ensures var (next, r) := SignAt(network, vkey, k, period, bytes);
            && RootVKey(next.data) == RootVKey(k.data)
            && forall v :: Genuine(next, v) <==> Genuine(k, v)
    ensures var (next, r) := SignAt(network, vkey, k, period, bytes);
            r.Ok? ==>
              && r.value.vkey == vkey && r.value.period == period && ValidRelative(network, period)
              && r.value.signature.rootVKey == RootVKey(k.data) && r.value.signature.signed == bytes
              && (KesVerify(vkey, period, bytes, r.value.signature) <==> Genuine(k, vkey))
  {
    EvolveKeepsOrigin(k, period);
  }

  lemma {:induction false} EvolveSound(k: SecretKey, vkey: Bytes, period: nat)
    requires Sound(k, vkey) && k.period <= period
    ensures EvolveTo(k, period) == if period < 64 then (Evolved(Fresh(vkey), period), None)
                                   else (Evolved(Fresh(vkey), 63), Some(CannotUpdate))
    decreases period - k.period
  {
    if k.period < period {
      UpdateSound(k, vkey);
      if Update(k).Some? {
        EvolveSound(Update(k).value, vkey, period);
      }
    }
  }

  /** What signing does to a sound key, in closed form. */
  lemma SignAtSound(network: NetworkParams, vkey: Bytes, k: SecretKey, period: uint64, bytes: SigningBytes)
    requires Sound(k, vkey)
    ensures SignAt(network, vkey, k, period, bytes) ==
              if !ValidRelative(network, period) then (k, Err(PeriodPastValidity))
              else if period < k.period then (k, Err(CannotEvolveBackward))
              else (Evolved(Fresh(vkey), period), Ok(SignedKESPayload(vkey, period, Signature(vkey, period, bytes))))
    ensures Sound(SignAt(network, vkey, k, period, bytes).0, vkey)
  {
    EvolvedData(vkey, period);
    if k.period <= period {
      EvolveSound(k, vkey, period);
    }
  }

  class KESSigner {
    const network: NetworkParams
    const cert: KESSigningCertificate
    var kesKey: SecretKey

    ghost predicate Valid()
      reads this
    {
      Sound(kesKey, cert.kesVKey)
    }

    constructor (network: NetworkParams, cert: KESSigningCertificate)
      ensures Valid() && this.network == network && this.cert == cert && kesKey == Fresh(cert.kesVKey)
    {
      this.network, this.cert := network, cert;
      kesKey := Fresh(cert.kesVKey);
    }

    /** Evolves the held key in place, one update at a time. A failing update
        leaves the key where it got to. */
    method AdvanceTo(period: uint64) returns (r: Option<KESError>)
      modifies this`kesKey
      ensures (kesKey, r) == Advance(old(kesKey), period)
      ensures old(Valid()) ==> Valid()
      ensures old(Valid()) && period >= 64 ==> r == Some(CannotUpdate) && kesKey == Evolved(Fresh(cert.kesVKey), 63)
      ensures old(Valid()) && old(kesKey.period) <= period < 64 ==> r == None && kesKey == Evolved(Fresh(cert.kesVKey), period)
    {
      if Valid() && kesKey.period <= period {
        EvolveSound(kesKey, cert.kesVKey, period);
        EvolvedData(cert.kesVKey, if period < 64 then period else 63);
      }
      if period < kesKey.period {
        return Some(CannotEvolveBackward);
      }
      while kesKey.period < period
        invariant old(kesKey.period) <= period && EvolveTo(kesKey, period) == EvolveTo(old(kesKey), period)
        decreases period - kesKey.period
      {
        match Update(kesKey) {
          case None => return Some(CannotUpdate);
          case Some(next) => kesKey := next;
        }
      }
      r := None;
    }

    method Sign(period: uint64, bytes: SigningBytes) returns (r: Result<SignedKESPayload, KESError>)
      modifies this`kesKey
      ensures (kesKey, r) == SignAt(network, cert.kesVKey, old(kesKey), period, bytes)
      ensures r.Ok? ==> (KesVerify(cert.kesVKey, period, bytes, r.value.signature) <==> Genuine(old(kesKey), cert.kesVKey))
      ensures old(Valid()) ==> Valid() && (r.Ok? ==> KesVerify(cert.kesVKey, period, bytes, r.value.signature))
    {
      VerifiesExactlyWhenGenuine(network, cert.kesVKey, kesKey, period, bytes);
      if Valid() {
        EvolvedData(cert.kesVKey, kesKey.period);
        SignAtSound(network, cert.kesVKey, kesKey, period, bytes);
      }
      if !ValidRelative(network, period) {
        return Err(PeriodPastValidity);
      }
      var failed := AdvanceTo(period);
      if failed.Some? {
        return Err(failed.value);
      }
      match KesSign(kesKey, period, bytes) {
        case None => return Err(CannotSign);
        case Some(sig) => r := Ok(SignedKESPayload(cert.kesVKey, period, sig));
      }
    }
  }

  // ---------------------------------------------------------------- runs of signing calls

  /** The key held after signing at the given periods, one call after another. */
  function KeyAfter(network: NetworkParams, vkey: Bytes, bytes: SigningBytes, periods: seq<uint64>): SecretKey {
    if periods == [] then Fresh(vkey)
    else
      var n := |periods| - 1;
      SignAt(network, vkey, KeyAfter(network, vkey, bytes, periods[..n]), periods[n], bytes).0
  }

  /** Call `i` of a run succeeded. */
  predicate Succeeds(network: NetworkParams, vkey: Bytes, bytes: SigningBytes, periods: seq<uint64>, i: nat)
    requires i < |periods|
  {
    SignAt(network, vkey, KeyAfter(network, vkey, bytes, periods[..i]), periods[i], bytes).1.Ok?
  }

  ghost predicate AtLeastAllEarlier(network: NetworkParams, vkey: Bytes, bytes: SigningBytes, periods: seq<uint64>, i: nat)
    requires i < |periods|
  {
    forall j: nat :: j < i && Succeeds(network, vkey, bytes, periods, j) ==> periods[j] <= periods[i]
  }

  /** The held key is the fresh one updated up to the largest period signed so far. */
  lemma {:induction false} KeyTracksSuccesses(network: NetworkParams, vkey: Bytes, bytes: SigningBytes, periods: seq<uint64>)
    ensures var k := KeyAfter(network, vkey, bytes, periods);
            && Sound(k, vkey)
            && (forall j: nat :: j < |periods| && Succeeds(network, vkey, bytes, periods, j) ==> periods[j] <= k.period)
            && (k.period == 0 ||
                exists j: nat :: j < |periods| && Succeeds(network, vkey, bytes, periods, j) && periods[j] == k.period)
  {
    if periods != [] {
      var n := |periods| - 1;
      var init := periods[..n];
      KeyTracksSuccesses(network, vkey, bytes, init);
      SignAtSound(network, vkey, KeyAfter(network, vkey, bytes, init), periods[n], bytes);
      EvolvedData(vkey, periods[n]);
      assert forall j: nat :: j < n ==> init[..j] == periods[..j];
      assert forall j: nat :: j < n ==>
        (Succeeds(network, vkey, bytes, periods, j) <==> Succeeds(network, vkey, bytes, init, j));
      var k0, k := KeyAfter(network, vkey, bytes, init), KeyAfter(network, vkey, bytes, periods);
      if k != k0 {
        assert Succeeds(network, vkey, bytes, periods, n) && periods[n] == k.period;
      }
    }
  }

  /** Forward only: in any run of calls, a call succeeds iff its period is valid
      and at least every period that succeeded before; a failed call leaves the
      key alone; and the key is always the initial one updated `period` times. */
  lemma ForwardOnly(network: NetworkParams, vkey: Bytes, bytes: SigningBytes, periods: seq<uint64>, i: nat)
    requires i < |periods|
    ensures Succeeds(network, vkey, bytes, periods, i) <==>
              ValidRelative(network, periods[i]) && AtLeastAllEarlier(network, vkey, bytes, periods, i)
    ensures var before, after := KeyAfter(network, vkey, bytes, periods[..i]), KeyAfter(network, vkey, bytes, periods[..i + 1]);
            && Sound(after, vkey)
            && after.period == (if Succeeds(network, vkey, bytes, periods, i) then periods[i] else before.period)
            && (!Succeeds(network, vkey, bytes, periods, i) ==> after == before)
  {
    var init := periods[..i];
    KeyTracksSuccesses(network, vkey, bytes, init);
    assert forall j: nat :: j < i ==> init[..j] == periods[..j];
    assert forall j: nat :: j < i ==>
      (Succeeds(network, vkey, bytes, periods, j) <==> Succeeds(network, vkey, bytes, init, j));
    KeyTracksSuccesses(network, vkey, bytes, periods[..i + 1]);
    assert periods[..i + 1][..i] == init;
    SignAtSound(network, vkey, KeyAfter(network, vkey, bytes, init), periods[i], bytes);
    EvolvedData(vkey, periods[i]);
  }

  // ---------------------------------------------------------------- FileSigner

  datatype SigningFailure = NoPeriod | NoExpiration | BeforeOpCert | Backward | EvolutionsExhausted | SignFailed

  class FileSigner {
    const cert: OperationalCertificate
    const coldVKey: Bytes
    const defaultKESPeriod: nat
    var kesSKey: SecretKey

    ghost predicate Valid()
      reads this
    {
      Sound(kesSKey, cert.kesVKey)
    }

    constructor (cert: OperationalCertificate, coldVKey: Bytes, configuredPeriod: nat)
      ensures Valid() && this.cert == cert && this.coldVKey == coldVKey && kesSKey == Fresh(cert.kesVKey)
      ensures defaultKESPeriod == if configuredPeriod == 0 then cert.kesPeriod else configuredPeriod
    {
      this.cert, this.coldVKey := cert, coldVKey;
      defaultKESPeriod := if configuredPeriod == 0 then cert.kesPeriod else configuredPeriod;
      kesSKey := Fresh(cert.kesVKey);
    }

    /** Evolves a copy and commits it only when it arrived. */
    method EvolveToRelativePeriod(period: nat) returns (r: Option<SigningFailure>)
      requires Valid()
      modifies this`kesSKey
      ensures Valid()
      ensures r == None <==> old(kesSKey.period) <= period < 64
      ensures r == None ==> kesSKey == Evolved(Fresh(cert.kesVKey), period)
      ensures r.Some? ==> kesSKey == old(kesSKey) && r.value == if period < old(kesSKey.period) then Backward else EvolutionsExhausted
    {
      if kesSKey.period > period {
        return Some(Backward);
      }
      var key := kesSKey;
      while key.period < period
        invariant Sound(key, cert.kesVKey) && key.period <= period && kesSKey == old(kesSKey)
        decreases period - key.period
      {
        UpdateSound(key, cert.kesVKey);
        match Update(key) {
          case None => return Some(EvolutionsExhausted);
          case Some(next) => key := next;
        }
      }
      kesSKey := key;
      r := None;
    }

    /** The payload's period first, then the period function, then the default. */
    function ResolvePeriod(payload: Payload, fromFunc: Option<Option<nat>>): Option<nat> {
      if payload.kesPeriod != 0 then Some(payload.kesPeriod)
      else if fromFunc.Some? then fromFunc.value
      else Some(defaultKESPeriod)
    }

    /** `fromFunc` is what the configured period function would answer, if there is one. */
    method Sign(payload: Payload, fromFunc: Option<Option<nat>>) returns (r: Result<Message, SigningFailure>)
      requires Valid()
      modifies this`kesSKey
      ensures Valid()
      ensures r.Err? ==> kesSKey == old(kesSKey)
      ensures r.Ok? <==>
        var period := ResolvePeriod(payload, fromFunc);
        && period.Some? && payload.expiresAt != 0
        && cert.kesPeriod + old(kesSKey.period) <= period.value < cert.kesPeriod + 64
      ensures r.Ok? ==>
        var m := r.value;
        && VerifyMessage(m) == Some(true)
        && m.payload.messageID == Some(ID(m)) && m.cert == cert && m.coldVKey == coldVKey
        && m.payload.body == payload.body && m.payload.expiresAt == payload.expiresAt
        && (payload.kesPeriod != 0 ==> m.payload.kesPeriod == payload.kesPeriod)
        && (payload.kesPeriod == 0 && fromFunc.Some? ==> fromFunc == Some(Some(m.payload.kesPeriod)))
        && (payload.kesPeriod == 0 && fromFunc == None ==> m.payload.kesPeriod == defaultKESPeriod)
        && kesSKey == Evolved(Fresh(cert.kesVKey), m.payload.kesPeriod - cert.kesPeriod)
      ensures r == Err(NoPeriod) <==> payload.kesPeriod == 0 && fromFunc == Some(None)
      ensures r == Err(NoExpiration) <==> r != Err(NoPeriod) && payload.expiresAt == 0
      ensures r.Err? && r.error !in {NoPeriod, NoExpiration} ==>
        var period := ResolvePeriod(payload, fromFunc).value;
        r.error == if period < cert.kesPeriod then BeforeOpCert
                   else if period - cert.kesPeriod < old(kesSKey.period) then Backward else EvolutionsExhausted
    {
      var resolved := ResolvePeriod(payload, fromFunc);
      if resolved == None {
        return Err(NoPeriod);
      }
      var period := resolved.value;
      var stamped := payload.(messageID := None, kesPeriod := period);
      if stamped.expiresAt == 0 {
        return Err(NoExpiration);
      }
      if period < cert.kesPeriod {
        return Err(BeforeOpCert);
      }
      var relative := period - cert.kesPeriod;
      var failed := EvolveToRelativePeriod(relative);
      if failed.Some? {
        return Err(failed.value);
      }
      var bytes := PayloadSigningBytes(stamped);
      EvolvedData(cert.kesVKey, relative);
      SoundSignatureVerifies(kesSKey, cert.kesVKey, bytes);
      match KesSign(kesSKey, relative, bytes) {
        case None => return Err(SignFailed);
        case Some(sig) =>
          r := Ok(Message(stamped.(messageID := Some(ComputeID(stamped))), sig, cert, coldVKey));
      }
    }
  }
}
