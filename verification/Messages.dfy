/** DMQ messages, their deterministic IDs, and the TTL policy of a topic. */
module Messages {
  datatype Option<+T> = None | Some(value: T)
  datatype Result<+T, +E> = Ok(value: T) | Err(error: E)

  newtype byte = x: int | 0 <= x < 0x100
  type Bytes = seq<byte>

  /** Instants and lifetimes, in whole seconds. */
  type Time = nat

  const MAX_BODY_BYTES: nat := 2000

  /** The CIP-0137 message ID, idealised as a collision-free digest of the
      payload fields it covers (every field except the ID itself). */
  datatype MessageID = Digest(body: Bytes, kesPeriod: nat, expiresAt: Time)

  datatype Payload = Payload(messageID: Option<MessageID>, body: Bytes, kesPeriod: nat, expiresAt: Time)

  datatype OperationalCertificate =
    OperationalCertificate(kesVKey: Bytes, issueNumber: nat, kesPeriod: nat, coldSignature: Bytes)

  /** What a KES signature is a signature of: symbolic, so that it determines
      the root verification key, the period and the signed bytes. */
  datatype Signature = Signature(rootVKey: Bytes, period: nat, signed: SigningBytes)

  /** The doubly wrapped CBOR of a payload whose message ID was erased. */
  datatype SigningBytes = SigningBytes(body: Bytes, kesPeriod: nat, expiresAt: Time)

  datatype Message = Message(payload: Payload, kesSignature: Signature, cert: OperationalCertificate, coldVKey: Bytes)

  function ComputeID(p: Payload): MessageID {
    Digest(p.body, p.kesPeriod, p.expiresAt)
  }

  function ID(m: Message): MessageID {
    ComputeID(m.payload)
  }

  /** The ID identifies the payload, every field of it but the ID itself. */
  lemma IDIdentifiesPayload(m: Message, m': Message)
    ensures ID(m) == ID(m') <==> m.payload.(messageID := None) == m'.payload.(messageID := None)
  {
  }

  /** The message carries the ID computed from its payload. */
  predicate Normalized(m: Message) {
    m.payload.messageID == Some(ID(m)) && |m.payload.body| <= MAX_BODY_BYTES
  }

  datatype Malformation = BodyTooLarge | IDMismatch

  /** Fills in a missing ID; refuses an oversized body or a wrong ID. */
  function Normalize(m: Message): (r: Result<Message, Malformation>)
    ensures r.Ok? ==> Normalized(r.value) && ID(r.value) == ID(m)
    ensures Normalized(m) ==> r == Ok(m)
  {
    if |m.payload.body| > MAX_BODY_BYTES then Err(BodyTooLarge)
    else if m.payload.messageID == None then Ok(m.(payload := m.payload.(messageID := Some(ID(m)))))
    else if m.payload.messageID != Some(ID(m)) then Err(IDMismatch)
    else Ok(m)
  }

  /** `graceAtExpiry` says whether the second `expiresAt` itself still counts as
      alive. That rounding rule belongs to the TTL validator library; everything
      here is proved for both readings. */
  datatype TTLPolicy = TTLPolicy(disable: bool, maxTTL: nat, graceAtExpiry: bool)

  predicate Expired(policy: TTLPolicy, m: Message, now: Time) {
    if policy.graceAtExpiry then m.payload.expiresAt < now else m.payload.expiresAt <= now
  }

  predicate TooFar(policy: TTLPolicy, m: Message, now: Time) {
    m.payload.expiresAt > now + policy.maxTTL
  }

  predicate Alive(policy: TTLPolicy, m: Message, now: Time) {
    policy.disable || (!Expired(policy, m, now) && !TooFar(policy, m, now))
  }

  /** The messages of `s` that pass the TTL check at `now`, in order. */
  function AliveAt(policy: TTLPolicy, s: seq<Message>, now: Time): (r: seq<Message>)
    ensures |r| <= |s|
  {
    if s == [] then []
    else
      var m := s[|s| - 1];
      AliveAt(policy, s[..|s| - 1], now) + if Alive(policy, m, now) then [m] else []
  }

  lemma AliveAtSnoc(policy: TTLPolicy, s: seq<Message>, m: Message, now: Time)
    ensures AliveAt(policy, s + [m], now) == AliveAt(policy, s, now) + if Alive(policy, m, now) then [m] else []
  {
    assert (s + [m])[..|s|] == s;
  }

  lemma {:induction false} AliveAtMember(policy: TTLPolicy, s: seq<Message>, now: Time, m: Message)
    ensures m in AliveAt(policy, s, now) <==> m in s && Alive(policy, m, now)
  {
    if s != [] {
      var n := |s| - 1;
      AliveAtMember(policy, s[..n], now, m);
      assert s == s[..n] + [s[n]];
    }
  }

  /** A later filter subsumes an earlier one, as long as nothing that is alive
      later was dropped earlier. */
  lemma {:induction false} AliveAtAbsorbs(policy: TTLPolicy, s: seq<Message>, earlier: Time, later: Time)
    requires forall i :: 0 <= i < |s| && Alive(policy, s[i], later) ==> Alive(policy, s[i], earlier)
    ensures AliveAt(policy, AliveAt(policy, s, earlier), later) == AliveAt(policy, s, later)
  {
    if s != [] {
      var n := |s| - 1;
      AliveAtAbsorbs(policy, s[..n], earlier, later);
      if Alive(policy, s[n], earlier) {
        AliveAtSnoc(policy, AliveAt(policy, s[..n], earlier), s[n], later);
      } else {
        assert AliveAt(policy, s, earlier) == AliveAt(policy, s[..n], earlier);
        assert AliveAt(policy, s, later) == AliveAt(policy, s[..n], later);
      }
    }
  }

  lemma {:induction false} AliveAtWhole(policy: TTLPolicy, s: seq<Message>, now: Time)
    requires forall i :: 0 <= i < |s| ==> Alive(policy, s[i], now)
    ensures AliveAt(policy, s, now) == s
  {
    if s != [] {
      AliveAtWhole(policy, s[..|s| - 1], now);
    }
  }

  function IDs(s: seq<Message>): (r: seq<MessageID>)
    ensures |r| == |s|
    ensures forall i :: 0 <= i < |s| ==> r[i] == ID(s[i])
  {
    seq(|s|, i requires 0 <= i < |s| => ID(s[i]))
  }

  /** The messages of `s` whose ID is wanted, in the order of `s`. */
  function WithIDs(s: seq<Message>, wanted: set<MessageID>): seq<Message> {
    if s == [] then []
    else
      var m := s[|s| - 1];
      WithIDs(s[..|s| - 1], wanted) + if ID(m) in wanted then [m] else []
  }
}
