/** The per-connection flow object over a topic runtime: its loops compute the
    announcement and pulling steps that the run theorems are about. */
module SubmissionFlows {
  import opened Messages
  import opened Topics
  import opened TopicRuntimes
  import opened Announcements
  import opened Pulling

  /** One received message together with the authenticator's answer and the two
      clock readings of its submission. */
  datatype Arrival = Arrival(msg: Message, authentic: bool, validatedAt: Time, now: Time)

  function SubmitAll(cfg: Config, t: Topic, arrivals: seq<Arrival>): Topic {
    if arrivals == [] then t
    else
      var a := arrivals[|arrivals| - 1];
      Submit(cfg, SubmitAll(cfg, t, arrivals[..|arrivals| - 1]), a.msg, a.authentic, a.validatedAt, a.now).0
  }

  function Submissions(arrivals: seq<Arrival>): (es: seq<Event>)
    ensures |es| == |arrivals|
    ensures forall i :: 0 <= i < |es| ==>
              var a := arrivals[i]; es[i] == SubmitMessage(a.msg, a.authentic, a.validatedAt, a.now)
  {
    seq(|arrivals|, i requires 0 <= i < |arrivals| =>
      SubmitMessage(arrivals[i].msg, arrivals[i].authentic, arrivals[i].validatedAt, arrivals[i].now))
  }

  /** A reply is one submission event per message, in order, none left out: so
      everything proved about runs of a topic covers what a puller receives. */
  lemma {:induction false} SubmitAllIsRun(cfg: Config, es: seq<Event>, arrivals: seq<Arrival>)
    ensures SubmitAll(cfg, Run(cfg, es).topic, arrivals) == Run(cfg, es + Submissions(arrivals)).topic
  {
    if arrivals == [] {
      assert es + Submissions(arrivals) == es;
    } else {
      var n := |arrivals| - 1;
      assert (es + Submissions(arrivals))[..|es| + n] == es + Submissions(arrivals[..n]);
      SubmitAllIsRun(cfg, es, arrivals[..n]);
    }
  }

  /** Earlier arrivals with other IDs neither close the topic nor make the ID known,
      and each takes at most one place. */
  lemma {:induction false} EarlierArrivals(cfg: Config, t: Topic, arrivals: seq<Arrival>, id: MessageID)
    requires !t.closed && id !in t.seen && forall j :: 0 <= j < |arrivals| ==> ID(arrivals[j].msg) != id
    ensures var t' := SubmitAll(cfg, t, arrivals);
            !t'.closed && id !in t'.seen && |t'.queue| <= |t.queue| + |arrivals|
  {
    if arrivals != [] {
      var n := |arrivals| - 1;
      EarlierArrivals(cfg, t, arrivals[..n], id);
      SubmitOthers(cfg, SubmitAll(cfg, t, arrivals[..n]), arrivals[n], id);
    }
  }

  lemma SubmitOthers(cfg: Config, t: Topic, a: Arrival, id: MessageID)
    requires !t.closed && id !in t.seen && ID(a.msg) != id
    ensures var t' := Submit(cfg, t, a.msg, a.authentic, a.validatedAt, a.now).0;
            !t'.closed && id !in t'.seen && |t'.queue| <= |t.queue| + 1
  {
    SubmitUnfolds(cfg, History(t, [], 0), a.msg, a.authentic, a.validatedAt, a.now);
  }

  /** What is queued and known stays so while it is alive and in the window. */
  lemma SubmitKeeps(cfg: Config, t: Topic, a: Arrival, m: Message, at: Time)
    requires m in t.queue && ID(m) in t.seen && t.seen[ID(m)] == at
    requires Alive(cfg.ttl, m, a.now) && InWindow(cfg, at, a.now)
    ensures var t' := Submit(cfg, t, a.msg, a.authentic, a.validatedAt, a.now).0;
            m in t'.queue && ID(m) in t'.seen && t'.seen[ID(m)] == at
  {
    AliveAtMember(cfg.ttl, t.queue, a.now, m);
    SubmitUnfolds(cfg, History(t, [], 0), a.msg, a.authentic, a.validatedAt, a.now);
  }

  lemma SubmitTakes(cfg: Config, t: Topic, a: Arrival)
    requires !t.closed && ID(a.msg) !in t.seen && |t.queue| < cfg.maxMessages
    requires Admissible(cfg, a.msg, a.authentic, a.validatedAt).Ok?
    ensures var t' := Submit(cfg, t, a.msg, a.authentic, a.validatedAt, a.now).0;
            Normalize(a.msg).value in t'.queue && ID(a.msg) in t'.seen && t'.seen[ID(a.msg)] == a.now
  {
    SubmitUnfolds(cfg, History(t, [], 0), a.msg, a.authentic, a.validatedAt, a.now);
  }

  /** Whatever becomes of the other messages of a reply, one that passes the checks,
      is not known yet and finds room is queued and known afterwards. */
  lemma {:induction false} ArrivalIsTaken(cfg: Config, t: Topic, arrivals: seq<Arrival>, i: nat)
    requires i < |arrivals| && !t.closed && |t.queue| + i < cfg.maxMessages
    requires Admissible(cfg, arrivals[i].msg, arrivals[i].authentic, arrivals[i].validatedAt).Ok?
    requires ID(arrivals[i].msg) !in t.seen && forall j :: 0 <= j < i ==> ID(arrivals[j].msg) != ID(arrivals[i].msg)
    requires forall j :: i < j < |arrivals| ==>
               Alive(cfg.ttl, Normalize(arrivals[i].msg).value, arrivals[j].now) && InWindow(cfg, arrivals[i].now, arrivals[j].now)
    ensures var t', m := SubmitAll(cfg, t, arrivals), Normalize(arrivals[i].msg).value;
            m in t'.queue && ID(m) in t'.seen && t'.seen[ID(m)] == arrivals[i].now
  {
    var n := |arrivals| - 1;
    if i == n {
      EarlierArrivals(cfg, t, arrivals[..n], ID(arrivals[n].msg));
      SubmitTakes(cfg, SubmitAll(cfg, t, arrivals[..n]), arrivals[n]);
    } else {
      ArrivalIsTaken(cfg, t, arrivals[..n], i);
      SubmitKeeps(cfg, SubmitAll(cfg, t, arrivals[..n]), arrivals[n], Normalize(arrivals[i].msg).value, arrivals[i].now);
    }
  }

  class SubmissionFlow {
    const rt: TopicRuntime
    const requestCount: uint16
    var announced: set<MessageID>
    var outstanding: uint16

    constructor (rt: TopicRuntime, requestCount: uint16)
      ensures this.rt == rt && this.requestCount == requestCount && announced == {} && outstanding == 0
    {
      this.rt, this.requestCount := rt, requestCount;
      announced, outstanding := {}, 0;
    }

    method AskForIDs() returns (r: Request)
      modifies this`outstanding
      ensures (outstanding, r) == Ask(requestCount, old(outstanding))
    {
      var ack := outstanding;
      outstanding := 0;
      var count := requestCount;
      if count == 0 {
        count := DEFAULT_REQUEST_COUNT;
      }
      r := RequestIDs(ack, count);
    }

    method NewIDs(max: nat, now: Time) returns (ids: seq<MessageID>)
      requires rt.QueueValid()
      modifies this`announced, rt`len, rt.buf
      ensures rt.QueueValid() && rt.Abs() == PruneQueue(rt.cfg, old(rt.Abs()), now)
      ensures var queued := IDs(rt.Abs().queue);
              && ids == Fresh(old(announced), queued, max)
              && announced == Remembered(old(announced), queued, ids)
    {
      var queued := rt.MessageIDs(0, now);
      var live;
      ids, live := Pick(queued, max);
      ForgetDead(live);
      Remember(ids);
    }

    method Remember(ids: seq<MessageID>)
      modifies this`announced
      ensures announced == old(announced) + ToSet(ids)
    {
      for i := 0 to |ids|
        invariant announced == old(announced) + ToSet(ids[..i])
      {
        assert ids[..i + 1] == ids[..i] + [ids[i]];
        announced := announced + {ids[i]};
      }
      assert ids[..|ids|] == ids;
    }

    method Pick(queued: seq<MessageID>, max: nat) returns (ids: seq<MessageID>, live: set<MessageID>)
      ensures ids == Fresh(announced, queued, max) && live == ToSet(queued)
    {
      ids, live := [], {};
      for i := 0 to |queued|
        invariant ids == Fresh(announced, queued[..i], max) && live == ToSet(queued[..i])
      {
        assert queued[..i + 1][..i] == queued[..i];
        assert queued[..i + 1] == queued[..i] + [queued[i]];
        live := live + {queued[i]};
        if queued[i] !in announced && |ids| < max {
          ids := ids + [queued[i]];
        }
      }
      assert queued[..|queued|] == queued;
    }

    method ForgetDead(live: set<MessageID>)
      modifies this`announced
      ensures announced == old(announced) * live
    {
      var todo := announced;
      while todo != {}
        invariant todo <= announced <= old(announced)
        invariant forall id :: id in old(announced) - todo ==> (id in announced <==> id in live)
      {
        var id :| id in todo;
        if id !in live {
          announced := announced - {id};
        }
        todo := todo - {id};
      }
    }

    method OnReplyMessageIDs(ids: seq<MessageID>) returns (r: Request)
      modifies this`outstanding
      ensures (outstanding, r) == OnIDs(requestCount, ids, rt.seen.Keys)
    {
      outstanding := Truncate(|ids|);
      var wanted := [];
      for i := 0 to |ids|
        invariant wanted == Unseen(ids[..i], rt.seen.Keys) && outstanding == Truncate(|ids|)
      {
        assert ids[..i + 1][..i] == ids[..i];
        var known := rt.HasSeen(ids[i]);
        if !known {
          wanted := wanted + [ids[i]];
        }
      }
      assert ids[..|ids|] == ids;
      if |wanted| > 0 {
        r := RequestMessages(wanted);
      } else {
        r := AskForIDs();
      }
    }

    /** Submits the received messages one by one, whatever becomes of each, and
        then asks for more IDs. */
    method OnReplyMessages(arrivals: seq<Arrival>) returns (r: Request)
      requires rt.Valid()
      modifies this`outstanding, rt`len, rt`seen, rt.buf, rt.subscribers.Values
      ensures rt.Valid() && rt.Abs() == SubmitAll(rt.cfg, old(rt.Abs()), arrivals)
      ensures (outstanding, r) == Ask(requestCount, old(outstanding))
    {
      for i := 0 to |arrivals|
        invariant rt.Valid() && rt.subscribers == old(rt.subscribers) && outstanding == old(outstanding)
        invariant rt.Abs() == SubmitAll(rt.cfg, old(rt.Abs()), arrivals[..i])
      {
        var a := arrivals[i];
        assert arrivals[..i + 1][..i] == arrivals[..i];
        var outcome := rt.SubmitSigned(a.msg, a.authentic, a.validatedAt, a.now);
      }
      assert arrivals[..|arrivals|] == arrivals;
      r := AskForIDs();
    }
  }
}
