/** The pulling side of message submission: one request in flight at a time, and
    acknowledgement accounting by a single overwritten counter. */
module Pulling {
  import opened Messages

  newtype uint16 = x: int | 0 <= x < 0x1_0000

  const DEFAULT_REQUEST_COUNT: uint16 := 64

  datatype Request = RequestIDs(ack: uint16, count: uint16) | RequestMessages(wanted: seq<MessageID>)

  function EffectiveCount(configured: uint16): (count: uint16)
    ensures count > 0 && (configured == 0 ==> count == 64) && (configured > 0 ==> count == configured)
  {
    if configured == 0 then DEFAULT_REQUEST_COUNT else configured
  }

  /** The announced IDs not seen yet, in announcement order. */
  function Unseen(ids: seq<MessageID>, seen: set<MessageID>): seq<MessageID> {
    if ids == [] then []
    else
      var id := ids[|ids| - 1];
      Unseen(ids[..|ids| - 1], seen) + if id in seen then [] else [id]
  }

  /** Go's conversion of a length to uint16. */
  function Truncate(n: nat): uint16 {
    (n % 0x1_0000) as uint16
  }

  /** An ID request acknowledges everything outstanding and resets the counter. */
  function Ask(configured: uint16, outstanding: uint16): (uint16, Request) {
    (0, RequestIDs(outstanding, EffectiveCount(configured)))
  }

  /** Reaction to an ID reply: overwrite the counter, then fetch what is unseen
      or else ask for more. */
  function OnIDs(configured: uint16, ids: seq<MessageID>, seen: set<MessageID>): (uint16, Request) {
    var outstanding := Truncate(|ids|);
    var wanted := Unseen(ids, seen);
    if |wanted| > 0 then (outstanding, RequestMessages(wanted)) else Ask(configured, outstanding)
  }

  // ---------------------------------------------------------------- runs against any peer

  /** A reply from the peer; `seen` is the topic's duplicate index at that moment,
      which other connections may change at will. */
  datatype Reply = IDReply(ids: seq<MessageID>, seen: set<MessageID>) | MessageReply

  datatype Puller = Puller(outstanding: uint16, sent: seq<Request>, replies: seq<Reply>)

  function Start(configured: uint16): Puller {
    var (outstanding, r) := Ask(configured, 0);
    Puller(outstanding, [r], [])
  }

  function React(configured: uint16, p: Puller, reply: Reply): Puller {
    var (outstanding, r) :=
      match reply
      case IDReply(ids, seen) => OnIDs(configured, ids, seen)
      case MessageReply => Ask(configured, p.outstanding);
    Puller(outstanding, p.sent + [r], p.replies + [reply])
  }

  function PullRun(configured: uint16, replies: seq<Reply>): Puller {
    if replies == [] then Start(configured)
    else React(configured, PullRun(configured, replies[..|replies| - 1]), replies[|replies| - 1])
  }

  /** The protocol library's part: each reply answers the oldest unanswered
      request in kind, and an ID reply is no longer than requested. */
  predicate Answers(p: Puller, reply: Reply) {
    && |p.replies| < |p.sent|
    && match p.sent[|p.replies|]
       case RequestIDs(_, count) => reply.IDReply? && |reply.ids| <= count as nat
       case RequestMessages(_) => reply.MessageReply?
  }

  predicate Lawful(configured: uint16, replies: seq<Reply>) {
    replies != [] ==>
      && Lawful(configured, replies[..|replies| - 1])
      && Answers(PullRun(configured, replies[..|replies| - 1]), replies[|replies| - 1])
  }

  function Received(replies: seq<Reply>): nat {
    if replies == [] then 0
    else
      var r := replies[|replies| - 1];
      Received(replies[..|replies| - 1]) + if r.IDReply? then |r.ids| else 0
  }

  function Acknowledged(sent: seq<Request>): nat {
    if sent == [] then 0
    else
      var r := sent[|sent| - 1];
      Acknowledged(sent[..|sent| - 1]) + if r.RequestIDs? then r.ack as nat else 0
  }

  /** The length of the latest ID reply, 0 before the first. */
  function LatestBatch(replies: seq<Reply>): nat {
    if replies == [] then 0
    else
      var r := replies[|replies| - 1];
      if r.IDReply? then |r.ids| else LatestBatch(replies[..|replies| - 1])
  }

  /** `outstanding` is exactly what no ID request has acknowledged yet. */
  predicate Balanced(p: Puller) {
    && |p.sent| == |p.replies| + 1
    && p.outstanding as nat == (if p.sent[|p.replies|].RequestIDs? then 0 else LatestBatch(p.replies))
    && Received(p.replies) == Acknowledged(p.sent) + p.outstanding as nat
  }

  lemma ReactBalances(configured: uint16, p: Puller, reply: Reply)
    requires Balanced(p) && Answers(p, reply)
    ensures Balanced(React(configured, p, reply))
    ensures var r := React(configured, p, reply).sent[|p.sent|];
            r.RequestIDs? ==> r.ack as nat == LatestBatch(p.replies + [reply])
  {
    var p' := React(configured, p, reply);
    assert p'.sent[..|p.sent|] == p.sent;
    assert p'.replies[..|p.replies|] == p.replies;
  }

  /** Every ID request acknowledges exactly the batch received before it. */
  ghost predicate AcksBatches(configured: uint16, sent: seq<Request>, replies: seq<Reply>) {
    forall i :: 0 <= i < |sent| <= |replies| + 1 && sent[i].RequestIDs? ==>
      sent[i].ack as nat == LatestBatch(replies[..i]) && sent[i].count == if configured == 0 then 64 else configured
  }

  lemma AcksExtend(configured: uint16, sent: seq<Request>, replies: seq<Reply>, r: Request, reply: Reply)
    requires |sent| == |replies| + 1 && AcksBatches(configured, sent, replies)
    requires r.RequestIDs? ==> r.ack as nat == LatestBatch(replies + [reply]) && r.count == EffectiveCount(configured)
    ensures AcksBatches(configured, sent + [r], replies + [reply])
  {
    forall i | 0 <= i < |sent| + 1 && (sent + [r])[i].RequestIDs?
      ensures (sent + [r])[i].ack as nat == LatestBatch((replies + [reply])[..i])
    {
      if i < |sent| {
        assert (replies + [reply])[..i] == replies[..i];
      } else {
        assert (replies + [reply])[..i] == replies + [reply];
      }
    }
  }

  /** Over every run against a lawful peer: exactly one request is unanswered;
      nothing is outstanding while it is an ID request, and the whole latest batch
      is while it is a message request; every ID request acknowledged exactly the
      batch before it; and received = acknowledged + outstanding. */
  lemma {:induction false} AcknowledgementsConserved(configured: uint16, replies: seq<Reply>)
    requires Lawful(configured, replies)
    ensures var p := PullRun(configured, replies);
            p.replies == replies && Balanced(p) && AcksBatches(configured, p.sent, replies)
  {
    if replies != [] {
      var n := |replies| - 1;
      AcknowledgementsConserved(configured, replies[..n]);
      var p := PullRun(configured, replies[..n]);
      ReactBalances(configured, p, replies[n]);
      assert replies[..n] + [replies[n]] == replies;
      AcksExtend(configured, p.sent, replies[..n], React(configured, p, replies[n]).sent[|p.sent|], replies[n]);
    }
  }

  /** Any peer that keeps answering the request in flight in kind is lawful. */
  lemma LawfulExtends(configured: uint16, replies: seq<Reply>, reply: Reply)
    ensures Lawful(configured, replies + [reply]) <==>
              && Lawful(configured, replies)
              && var sent := PullRun(configured, replies).sent;
                 |replies| < |sent| && match reply
                 case IDReply(ids, _) => sent[|replies|].RequestIDs? && |ids| <= sent[|replies|].count as nat
                 case MessageReply => sent[|replies|].RequestMessages?
  {
    assert (replies + [reply])[..|replies|] == replies;
    if Lawful(configured, replies) {
      AcknowledgementsConserved(configured, replies);
    }
  }
}
