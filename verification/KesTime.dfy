/** KES time arithmetic: instants to periods and back, over bounded integers with
    overflow checks and saturating time differences, and the validity window of
    an operational certificate. */
module KesTime {
  import opened Messages
  import opened Arithmetic

  const MAX_DURATION: int := 0x7FFF_FFFF_FFFF_FFFF
  const SECOND: int := 1_000_000_000
  const KES_DEPTH: nat := 6

  /** Nanoseconds since the zero time. */
  type Instant = int
  const ZERO_TIME: Instant := 0

  datatype NetworkParams =
    NetworkParams(start: Instant, absoluteStartSlot: uint64, slotLength: int,
                  slotsPerKESPeriod: uint64, maxKESEvolutions: uint64)

  datatype TimeError = NoKESPeriodLength | BeforeNetworkStart | SlotOverflow | BeforeCertificate | PastCertificate

  /** Difference of two instants, saturating like a 64-bit duration. */
  function Sub(t: Instant, u: Instant): int {
    var d := t - u;
    if d > MAX_DURATION then MAX_DURATION else if d < -MAX_DURATION - 1 then -MAX_DURATION - 1 else d
  }

  function SlotLength(p: NetworkParams): (l: int)
    ensures l > 0
  {
    if p.slotLength <= 0 then SECOND else p.slotLength
  }

  function CurrentSlotFor(p: NetworkParams, now: Instant): Result<nat, TimeError> {
    if now < p.start then Err(BeforeNetworkStart) else Ok(Sub(now, p.start) / SlotLength(p))
  }

  function CurrentAbsoluteSlotFor(p: NetworkParams, now: Instant): Result<uint64, TimeError> {
    match CurrentSlotFor(p, now)
    case Err(e) => Err(e)
    case Ok(slot) =>
      if slot > MAX_UINT64 - p.absoluteStartSlot then Err(SlotOverflow) else Ok(p.absoluteStartSlot + slot)
  }

  function CurrentKESPeriodFor(p: NetworkParams, now: Instant): Result<uint64, TimeError> {
    if p.slotsPerKESPeriod == 0 then Err(NoKESPeriodLength)
    else
      match CurrentAbsoluteSlotFor(p, now)
      case Err(e) => Err(e)
      case Ok(slot) => DivBounds(slot, p.slotsPerKESPeriod); Ok(slot / p.slotsPerKESPeriod)
  }

  /** The zero time stands for "before the network start" and for overflow. */
  function KESPeriodStart(p: NetworkParams, period: uint64): Instant {
    var slots := period * p.slotsPerKESPeriod;
    if slots > MAX_UINT64 then ZERO_TIME
    else if slots < p.absoluteStartSlot then ZERO_TIME
    else
      var nanos := (slots - p.absoluteStartSlot) * SlotLength(p);
      if nanos > MAX_DURATION then ZERO_TIME else p.start + nanos
  }

  /** Exactly when KESPeriodStart does not give up. */
  predicate Representable(p: NetworkParams, period: nat) {
    && p.absoluteStartSlot <= period * p.slotsPerKESPeriod <= MAX_UINT64
    && (period * p.slotsPerKESPeriod - p.absoluteStartSlot) * SlotLength(p) <= MAX_DURATION
  }

  /** Where a period starts, exactly: so many slots after the network's first one,
      each as long as configured, or a second where nothing sensible is. */
  lemma PeriodStartExactly(p: NetworkParams, k: uint64)
    ensures var length := if p.slotLength > 0 then p.slotLength else 1_000_000_000;
            var slots := k * p.slotsPerKESPeriod - p.absoluteStartSlot;
            KESPeriodStart(p, k) ==
              if 0 <= slots <= 0xFFFF_FFFF_FFFF_FFFF - p.absoluteStartSlot && slots * length <= 0x7FFF_FFFF_FFFF_FFFF
              then p.start + slots * length else 0
  {
  }

  /** Why there is no current period, exactly: no period length, a clock before the
      network's start, or a slot beyond 64 bits. */
  lemma NoPeriodExactlyWhen(p: NetworkParams, now: Instant)
    ensures var r := CurrentKESPeriodFor(p, now);
            var length := if p.slotLength > 0 then p.slotLength else 1_000_000_000;
            var elapsed := if now - p.start <= 0x7FFF_FFFF_FFFF_FFFF then now - p.start else 0x7FFF_FFFF_FFFF_FFFF;
            && (r == Err(NoKESPeriodLength) <==> p.slotsPerKESPeriod == 0)
            && (r == Err(BeforeNetworkStart) <==> p.slotsPerKESPeriod > 0 && now < p.start)
            && (r == Err(SlotOverflow) <==>
                  p.slotsPerKESPeriod > 0 && p.start <= now && p.absoluteStartSlot + elapsed / length > 0xFFFF_FFFF_FFFF_FFFF)
            && r != Err(BeforeCertificate) && r != Err(PastCertificate)
  {
  }

  /** The elapsed slots reach `s` exactly when the elapsed time reaches them; past
      the longest duration they never do. */
  lemma SlotsElapsed(p: NetworkParams, now: Instant, s: nat)
    requires p.start <= now
    ensures var reached := CurrentSlotFor(p, now).value >= s;
            reached <==> s * SlotLength(p) <= MAX_DURATION && p.start + s * SlotLength(p) <= now
  {
    DivAdjoint(Sub(now, p.start), SlotLength(p), s);
  }

  // ---------------------------------------------------------------- Galois connection

  /** For every instant with a KES period and every k whatsoever: the period is at
      least k iff k began by then. Periods before the network start have always
      begun; periods that cannot be represented never begin. */
  lemma PeriodReached(p: NetworkParams, now: Instant, k: uint64)
    requires CurrentKESPeriodFor(p, now).Ok?
    ensures CurrentKESPeriodFor(p, now).value >= k
       <==> k * p.slotsPerKESPeriod < p.absoluteStartSlot
            || (Representable(p, k) && KESPeriodStart(p, k) <= now)
  {
    var slot := CurrentAbsoluteSlotFor(p, now).value;
    var first := k * p.slotsPerKESPeriod;
    DivAdjoint(slot, p.slotsPerKESPeriod, k);
    if first >= p.absoluteStartSlot {
      SlotsElapsed(p, now, first - p.absoluteStartSlot);
    }
  }

  /** The Galois connection between instants and periods. */
  lemma KESGaloisConnection(p: NetworkParams, now: Instant, k: uint64)
    requires CurrentKESPeriodFor(p, now).Ok? && Representable(p, k)
    ensures CurrentKESPeriodFor(p, now).value >= k <==> now >= KESPeriodStart(p, k)
  {
    PeriodReached(p, now, k);
  }

  /** The period that begins at its own start is the period itself. */
  lemma PeriodOfStart(p: NetworkParams, k: uint64)
    requires p.slotsPerKESPeriod > 0 && Representable(p, k)
    ensures CurrentKESPeriodFor(p, KESPeriodStart(p, k)) == Ok(k)
  {
    var s := k * p.slotsPerKESPeriod - p.absoluteStartSlot;
    assert s * SlotLength(p) >= 0 by { MulMono(0, s, SlotLength(p)); }
    MulDiv(s, SlotLength(p));
    MulDiv(k, p.slotsPerKESPeriod);
  }

  // ---------------------------------------------------------------- certificate window

  function Pow2(n: nat): (r: nat)
    ensures r > 0
  {
    if n == 0 then 1 else 2 * Pow2(n - 1)
  }

  function CryptoMax(depth: nat): nat {
    if depth >= 63 then 0x8000_0000_0000_0000 else Pow2(depth)
  }

  /** The network's limit where it is one, and never more than the key can do. */
  function EffectiveMax(p: NetworkParams): (m: uint64)
    ensures 1 <= m <= 64 == CryptoMax(KES_DEPTH)
    ensures m == p.maxKESEvolutions <==> 1 <= p.maxKESEvolutions <= 64
    ensures m != p.maxKESEvolutions ==> m == 64
  {
    var cryptoMax := CryptoMax(KES_DEPTH);
    assert cryptoMax == 64;
    if p.maxKESEvolutions == 0 || p.maxKESEvolutions > cryptoMax then cryptoMax else p.maxKESEvolutions
  }

  /** The check every signer makes on a relative period. */
  predicate ValidRelative(p: NetworkParams, relative: uint64) {
    relative < EffectiveMax(p)
  }

  function CurrentRelativePeriodFor(p: NetworkParams, certPeriod: uint64, now: Instant): Result<uint64, TimeError> {
    match CurrentKESPeriodFor(p, now)
    case Err(e) => Err(e)
    case Ok(absolute) =>
      if absolute < certPeriod then Err(BeforeCertificate)
      else if !ValidRelative(p, absolute - certPeriod) then Err(PastCertificate)
      else Ok(absolute - certPeriod)
  }

  datatype Status = Status(current: uint64, relative: uint64, max: uint64, remaining: uint64, expiresAt: Instant)

  /** uint64 addition. */
  function WrapAdd(a: uint64, b: uint64): uint64 {
    if a + b <= MAX_UINT64 then a + b else a + b - TWO_64
  }

  function CredentialStatus(p: NetworkParams, certPeriod: uint64, now: Instant): Result<Status, TimeError> {
    match CurrentKESPeriodFor(p, now)
    case Err(e) => Err(e)
    case Ok(absolute) =>
      if absolute < certPeriod then Err(BeforeCertificate)
      else
        var relative := absolute - certPeriod;
        var max := EffectiveMax(p);
        if relative >= max then Err(PastCertificate)
        else Ok(Status(absolute, relative, max, max - relative, KESPeriodStart(p, WrapAdd(certPeriod, max))))
  }

  lemma PeriodStartAfterNetworkStart(p: NetworkParams, k: uint64)
    requires Representable(p, k)
    ensures KESPeriodStart(p, k) >= p.start
  {
    MulMono(0, k * p.slotsPerKESPeriod - p.absoluteStartSlot, SlotLength(p));
  }

  /** Before a representable period begins, the slot count cannot overflow. */
  lemma NoOverflowBefore(p: NetworkParams, now: Instant, k: uint64)
    requires p.slotsPerKESPeriod > 0 && Representable(p, k) && p.start <= now < KESPeriodStart(p, k)
    ensures CurrentKESPeriodFor(p, now).Ok?
  {
    SlotsElapsed(p, now, k * p.slotsPerKESPeriod - p.absoluteStartSlot);
  }

  /** A certificate is usable at exactly the instants from the start of its first
      period up to, and excluding, the start of the period after its last. */
  lemma CertificateWindow(p: NetworkParams, certPeriod: uint64, now: Instant)
    requires p.slotsPerKESPeriod > 0 && certPeriod + EffectiveMax(p) <= MAX_UINT64
    requires Representable(p, certPeriod) && Representable(p, certPeriod + EffectiveMax(p))
    ensures CurrentRelativePeriodFor(p, certPeriod, now).Ok? <==>
              KESPeriodStart(p, certPeriod) <= now < KESPeriodStart(p, certPeriod + EffectiveMax(p))
  {
    var after := certPeriod + EffectiveMax(p);
    PeriodStartAfterNetworkStart(p, certPeriod);
    if CurrentKESPeriodFor(p, now).Ok? {
      PeriodReached(p, now, certPeriod);
      PeriodReached(p, now, after);
    } else if p.start <= now < KESPeriodStart(p, after) {
      NoOverflowBefore(p, now, after);
    }
  }

  /** The status computation accepts exactly the instants the signers accept, with
      the same relative period, and its remaining count is a positive part of the
      maximum. */
  lemma StatusAgreesWithSigners(p: NetworkParams, certPeriod: uint64, now: Instant)
    ensures var s, r := CredentialStatus(p, certPeriod, now), CurrentRelativePeriodFor(p, certPeriod, now);
            match r
            case Err(e) => s == Err(e)
            case Ok(relative) =>
              && s.Ok? && s.value.relative == relative && s.value.current == certPeriod + relative
              && s.value.max == (if 1 <= p.maxKESEvolutions <= 64 then p.maxKESEvolutions else 64)
              && 1 <= s.value.remaining <= s.value.max && s.value.relative + s.value.remaining == s.value.max
    ensures var r, current := CurrentRelativePeriodFor(p, certPeriod, now), CurrentKESPeriodFor(p, now);
            match current
            case Err(e) => r == Err(e)
            case Ok(period) =>
              && (r == Err(BeforeCertificate) <==> period < certPeriod)
              && (r == Err(PastCertificate) <==> period >= certPeriod + EffectiveMax(p))
              && (r.Ok? ==> r.value == period - certPeriod)
  {
  }

  /** Where the period after the last is representable, the reported expiry is the
      first instant at which the signers refuse. */
  lemma ExpiryIsFirstRefusal(p: NetworkParams, certPeriod: uint64, now: Instant, t: Instant)
    requires CredentialStatus(p, certPeriod, now).Ok? && now <= t
    requires certPeriod + EffectiveMax(p) <= MAX_UINT64
    requires Representable(p, certPeriod) && Representable(p, certPeriod + EffectiveMax(p))
    ensures CurrentRelativePeriodFor(p, certPeriod, t).Ok? <==> t < CredentialStatus(p, certPeriod, now).value.expiresAt
  {
    CertificateWindow(p, certPeriod, now);
    CertificateWindow(p, certPeriod, t);
  }

  /** The reported expiry lies in the future exactly when the period after the
      certificate's last is representable; otherwise the uint64 sum wraps or the
      zero time comes back, and the report is in the past. */
  lemma ExpiryInFutureExactlyWhen(p: NetworkParams, certPeriod: uint64, now: Instant)
    ensures p.start > ZERO_TIME && CredentialStatus(p, certPeriod, now).Ok? ==>
              (now < CredentialStatus(p, certPeriod, now).value.expiresAt <==>
                 certPeriod + EffectiveMax(p) <= MAX_UINT64 && Representable(p, certPeriod + EffectiveMax(p)))
  {
    if p.start > ZERO_TIME && CredentialStatus(p, certPeriod, now).Ok? {
      var after := certPeriod + EffectiveMax(p);
      var wrapped := WrapAdd(certPeriod, EffectiveMax(p));
      PeriodReached(p, now, wrapped);
      if !Representable(p, wrapped) {
        assert KESPeriodStart(p, wrapped) == ZERO_TIME;
      }
    }
  }

  lemma ExpiryCanBeReportedPast()
    ensures exists p: NetworkParams, certPeriod: uint64, now: Instant ::
              CredentialStatus(p, certPeriod, now).Ok? && CredentialStatus(p, certPeriod, now).value.expiresAt < now
  {
    var p := NetworkParams(1, 0, SECOND, 0x4000_0000_0000_0000, 0);
    var s := CredentialStatus(p, 0, 1);
    assert CurrentKESPeriodFor(p, 1) == Ok(0);
    assert s.Ok? && s.value.expiresAt < 1;
  }
}
