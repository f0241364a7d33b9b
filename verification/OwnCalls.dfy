/** The fusion theorem carried through the protocol: when the exchange of a caller's
    batch is answered, the caller never reads an answer that is not the answer to its
    own call; and whatever the upstreams do, an answer comes from the caller's own
    exchange. */
module OwnCalls {
  import opened Rpc
  import opened Options
  import opened Fusion
  import opened Meaning
  import opened Delivery
  import opened Exchanges
  import opened Protocol
  import opened ProtocolProofs
  import opened RunMessages
  import opened ProtocolRuns

  /** The nodes that answer at each event of a run, wire request by wire request: they
      differ from backend to backend, and each changes as its chain moves on. */
  type Upstreams = nat -> Nodes

  /** An upstream exchange that fails, or in which every wire request is answered, in any
      order, as some node would. What the requests are does not matter. */
  ghost predicate HonestEvent(nodes: Nodes, cfg: Settings, s: State, e: Event)
    requires ValidSettings(cfg)
  {
    e.Replied? && e.b < |s.all| && s.all[e.b].phase.Expanding? && e.sent.Some? ==>
      var entries := RequestsAt(s, e.b, s.all[e.b].phase.wire);
      && Carriable(nodes, Multicall(cfg, e.tickets), entries)
      && AnsweredBy(nodes, OnTheWire(Multicall(cfg, e.tickets), entries).0, e.sent.value)
  }

  ghost predicate HonestAt(us: Upstreams, cfg: Settings, es: seq<Event>, k: nat)
    requires ValidSettings(cfg) && k < |es|
  {
    Exec(cfg, es[..k]).Some? ==> HonestEvent(us(k), cfg, Exec(cfg, es[..k]).value, es[k])
  }

  /** The exchange of batch b is such a one; other batches' may be anything. */
  ghost predicate HonestFor(us: Upstreams, cfg: Settings, es: seq<Event>, b: nat)
    requires ValidSettings(cfg)
  {
    forall k: nat :: k < |es| && es[k].Replied? && es[k].b == b ==> HonestAt(us, cfg, es, k)
  }

  ghost predicate HonestRun(us: Upstreams, cfg: Settings, es: seq<Event>)
    requires ValidSettings(cfg)
  {
    forall b: nat :: HonestFor(us, cfg, es, b)
  }

  /** Event k is the exchange of batch b, slot i went out in it as request j, and p is
      what the node that got the wire request with this id makes of it. */
  ghost predicate AnsweredAt(us: Upstreams, cfg: Settings, es: seq<Event>, k: nat, b: nat, i: nat, j: nat, id: Id,
                             p: Payload)
    requires ValidSettings(cfg) && k < |es|
  {
    && es[k].Replied? && es[k].b == b && Exec(cfg, es[..k]).Some?
    && var s := Exec(cfg, es[..k]).value;
       && b < |s.all| && s.all[b].phase.Expanding?
       && var wire := s.all[b].phase.wire;
          var entries := RequestsAt(s, b, wire);
          && j < |wire| && wire[j] == i
          && AnsweredVia(us(k), WireRequests(entries), OnTheWire(Multicall(cfg, es[k].tickets), entries).1, j, id, p)
  }

  ghost predicate AnsweredIn(us: Upstreams, cfg: Settings, es: seq<Event>, b: nat, i: nat, p: Payload)
    requires ValidSettings(cfg)
  {
    exists k: nat, j: nat, id :: k < |es| && AnsweredAt(us, cfg, es, k, b, i, j, id, p)
  }

  /** p is what a node of batch b's exchange answers r on its own. */
  ghost predicate DirectIn(us: Upstreams, es: seq<Event>, b: nat, r: Request, p: Payload) {
    exists k: nat, id :: k < |es| && es[k].Replied? && es[k].b == b && p == Direct(us(k)(id), r)
  }

  /** Fusion does not change what the request means. */
  predicate Safe(cfg: Settings, r: Request) {
    cfg.fuse.None? || !AsksRead(r) || Plain(r.params)
  }

  /** m answers r, or says that the exchange failed or the caller left. */
  ghost predicate TrueFor(us: Upstreams, cfg: Settings, es: seq<Event>, b: nat, i: nat, r: Request, m: Message)
    requires ValidSettings(cfg)
  {
    match m.body
    case Answer(p) => AnsweredIn(us, cfg, es, b, i, p) && (Safe(cfg, r) ==> DirectIn(us, es, b, r, p))
    case Internal(reason) => reason != MissingResponse
  }

  ghost function OwnAnswers(us: Upstreams, cfg: Settings, es: seq<Event>, own: nat): Judge
    requires ValidSettings(cfg)
  {
    (b: nat, i: nat, r: Request, m: Message) => b == own ==> TrueFor(us, cfg, es, b, i, r, m)
  }

  lemma HonestIsJudged(us: Upstreams, cfg: Settings, es: seq<Event>, own: nat, n: nat)
    requires ValidSettings(cfg) && n < |es| && Exec(cfg, es[..n]).Some? && HonestFor(us, cfg, es, own)
    ensures JudgedEvent(OwnAnswers(us, cfg, es, own), cfg, Exec(cfg, es[..n]).value, es[n])
  {
    var s, e := Exec(cfg, es[..n]).value, es[n];
    hide Exec, TrueFor, HonestEvent, Messages;
    if e.Replied? && e.b == own && e.b < |s.all| && s.all[e.b].phase.Expanding? {
      var wire := s.all[e.b].phase.wire;
      var o := Replies(cfg, s, e.b, e.tickets, e.sent);
      assert HonestAt(us, cfg, es, n);
      forall k | 0 <= k < |wire| && o.Decoded?
        ensures TrueFor(us, cfg, es, e.b, wire[k], RequestAt(s, e.b, wire[k]), o.value[k])
      {
        MessageIsTrue(us, cfg, es, n, k);
      }
    }
  }

  lemma MessageIsTrue(us: Upstreams, cfg: Settings, es: seq<Event>, n: nat, j: nat)
    requires ValidSettings(cfg) && n < |es| && Exec(cfg, es[..n]).Some? && es[n].Replied?
    requires var s, e := Exec(cfg, es[..n]).value, es[n];
             && HonestEvent(us(n), cfg, s, e)
             && e.b < |s.all| && s.all[e.b].phase.Expanding? && j < |s.all[e.b].phase.wire|
             && Replies(cfg, s, e.b, e.tickets, e.sent).Decoded?
    ensures var s, e := Exec(cfg, es[..n]).value, es[n];
            var i := s.all[e.b].phase.wire[j];
            TrueFor(us, cfg, es, e.b, i, RequestAt(s, e.b, i), Replies(cfg, s, e.b, e.tickets, e.sent).value[j])
  {
    var s, e := Exec(cfg, es[..n]).value, es[n];
    hide Exec, OnTheWire, AnsweredVia, AnsweredBy, Carriable, Direct, Eligible, Plain;
    if e.sent.Some? {
      var wire, multicall := s.all[e.b].phase.wire, Multicall(cfg, e.tickets);
      var entries := RequestsAt(s, e.b, wire);
      CarriedAnswer(us(n), multicall, entries, e.sent.value, j);
      var p := Replies(cfg, s, e.b, e.tickets, e.sent).value[j].body.payload;
      var rs, mapping := WireRequests(entries), OnTheWire(multicall, entries).1;
      var id :| AnsweredVia(us(n), rs, mapping, j, id, p);
      assert AnsweredAt(us, cfg, es, n, e.b, wire[j], j, id, p);
      if Safe(cfg, entries[j]) {
        UnfusedWire(multicall, entries);
        ViaIsDirect(us(n), rs, mapping, j, id, p, entries[j]);
      }
    }
  }

  lemma UnfusedWire(multicall: Option<Config>, entries: seq<Request>)
    requires multicall.Some? ==> multicall.value.maxCalls >= 1
    ensures multicall.None? ==> OnTheWire(multicall, entries).1 == None
  {
  }

  lemma {:induction false} HonestRunIsJudged(us: Upstreams, cfg: Settings, es: seq<Event>, own: nat, n: nat)
    requires ValidSettings(cfg) && HonestFor(us, cfg, es, own) && n <= |es| && Exec(cfg, es[..n]).Some?
    ensures JudgedRun(OwnAnswers(us, cfg, es, own), cfg, es[..n])
  {
    hide HonestFor, JudgedEvent, OwnAnswers, Step;
    if n > 0 {
      assert es[..n][..n - 1] == es[..n - 1];
      HonestRunIsJudged(us, cfg, es, own, n - 1);
      HonestIsJudged(us, cfg, es, own, n - 1);
    }
  }

  /** A caller gets the answer to its own call. In every interleaving of callers,
      timers, flushes, cancellations and processors, with or without fusion, whatever
      the other calls of its batch are and whatever happens to other batches: if the
      wire requests of its batch's exchange are answered, each by some node, then what
      the caller is sent carries its own id and is what the node that got the wire
      request with its call makes of it, unless the exchange failed as a whole or the
      caller itself has left. For a call whose meaning fusion keeps, that is what this
      node answers the call on its own. */
  lemma {:induction false} CallersGetTheirOwnAnswers(us: Upstreams, cfg: Settings, es: seq<Event>, c: nat)
    requires ValidSettings(cfg) && Exec(cfg, es).Some? && c < |Exec(cfg, es).value.calls|
    requires HonestFor(us, cfg, es, Exec(cfg, es).value.calls[c].batch)
    ensures var call := Exec(cfg, es).value.calls[c];
            && |call.log| <= 1
            && forall m :: m in call.log ==>
                 && m.id == call.request.id
                 && (|| (&& m.body.Answer?
                         && AnsweredIn(us, cfg, es, call.batch, call.slot, m.body.payload)
                         && (Safe(cfg, call.request) ==> DirectIn(us, es, call.batch, call.request, m.body.payload)))
                     || m.body == Internal(SendFailed)
                     || (m.body == Internal(CallerLeft) && call.left))
  {
    var s := Exec(cfg, es).value;
    var call := s.calls[c];
    assert es[..|es|] == es;
    HonestRunIsJudged(us, cfg, es, call.batch, |es|);
    RunJudged(OwnAnswers(us, cfg, es, call.batch), cfg, es);
    hide Exec, AnsweredIn, DirectIn, HonestFor, Safe;
    assert Reachable(cfg, s);
    AtMostOneSend(cfg, s, c);
    forall m | m in call.log
      ensures TrueFor(us, cfg, es, call.batch, call.slot, call.request, m)
      ensures m.body == Internal(CallerLeft) ==> call.left
    {
      assert OwnAnswers(us, cfg, es, call.batch)(call.batch, call.slot, call.request, m);
      if m.body == Internal(CallerLeft) {
        AbandonedWereGone(cfg, s, c);
      }
    }
  }

  /** With one node throughout, the answer is that node's. */
  lemma {:induction false} OneNodeAnswers(u: Upstream, cfg: Settings, es: seq<Event>, c: nat, m: Message)
    requires ValidSettings(cfg) && Exec(cfg, es).Some? && c < |Exec(cfg, es).value.calls|
    requires HonestFor(_ => _ => u, cfg, es, Exec(cfg, es).value.calls[c].batch)
    requires m in Exec(cfg, es).value.calls[c].log && m.body.Answer? && Safe(cfg, Exec(cfg, es).value.calls[c].request)
    ensures m.body.payload == Direct(u, Exec(cfg, es).value.calls[c].request)
  {
    hide Exec, HonestFor, Direct, AnsweredIn, Safe;
    CallersGetTheirOwnAnswers(_ => _ => u, cfg, es, c);
  }

  /** Honest upstreams never bring the process down. */
  lemma {:induction false} HonestRunsStayUp(us: Upstreams, cfg: Settings, es: seq<Event>, n: nat)
    requires ValidSettings(cfg) && HonestRun(us, cfg, es) && n <= |es| && Exec(cfg, es[..n]).Some?
    ensures !Down(Exec(cfg, es[..n]).value)
  {
    hide Step, Down, HonestEvent;
    if n > 0 {
      assert es[..n][..n - 1] == es[..n - 1];
      HonestRunsStayUp(us, cfg, es, n - 1);
      var s, e := Exec(cfg, es[..n - 1]).value, es[n - 1];
      DownExactly(cfg, s, e, Exec(cfg, es[..n]).value);
      if e.Replied? {
        assert HonestFor(us, cfg, es, e.b);
        assert HonestAt(us, cfg, es, n - 1);
        HonestReplies(us(n - 1), cfg, s, e);
      }
    } else {
      assert !Down(Start()) by { StartsUp(); }
    }
  }

  lemma StartsUp()
    ensures !Down(Start())
  {
  }

  lemma HonestReplies(nodes: Nodes, cfg: Settings, s: State, e: Event)
    requires ValidSettings(cfg) && HonestEvent(nodes, cfg, s, e)
    ensures e.Replied? && e.b < |s.all| && s.all[e.b].phase.Expanding? ==>
              Replies(cfg, s, e.b, e.tickets, e.sent).Decoded?
  {
    if e.Replied? && e.b < |s.all| && s.all[e.b].phase.Expanding? && e.sent.Some? {
      CarriedDecodes(nodes, Multicall(cfg, e.tickets), RequestsAt(s, e.b, s.all[e.b].phase.wire), e.sent.value);
    }
  }

  /** What an exchange sends: with fusion switched on, as few wire requests per tag as
      can hold its fusable calls, besides the others; without it, or with fewer than two
      such calls, every request as it is. */
  lemma ExchangeSize(cfg: Settings, tickets: nat -> nat, entries: seq<Request>)
    requires ValidSettings(cfg)
    ensures var es := Eligibles(WireRequests(entries));
            var tags := TagOrder(es);
            |OnTheWire(Multicall(cfg, tickets), entries).0| ==
            if cfg.fuse.None? || |es| < 2 then |entries|
            else |Ineligibles(WireRequests(entries))|
                 + AllChunks(Config(cfg.fuse.value.address, cfg.fuse.value.maxCalls, tickets), es, tags, |tags|)
  {
    hide AllChunks, Aggregated, Eligibles, Ineligibles, TagOrder;
    if cfg.fuse.Some? {
      WireRequestsExactly(Multicall(cfg, tickets).value, WireRequests(entries));
    }
  }

  /* ---------- Any upstream at all ---------- */

  /** Event k of the run is the exchange of batch b, slot i went out in it as wire
      request j, and p is a payload of its own in the sense of NoCrossTalk. */
  ghost predicate ExchangedAt(cfg: Settings, es: seq<Event>, k: nat, b: nat, i: nat, j: nat, p: Payload)
    requires ValidSettings(cfg) && k < |es|
  {
    && es[k].Replied? && es[k].b == b && es[k].sent.Some?
    && Exec(cfg, es[..k]).Some?
    && var s := Exec(cfg, es[..k]).value;
       && b < |s.all| && s.all[b].phase.Expanding?
       && var wire := s.all[b].phase.wire;
          var entries := RequestsAt(s, b, wire);
          && j < |wire| && wire[j] == i
          && OwnPayload(WireRequests(entries), OnTheWire(Multicall(cfg, es[k].tickets), entries).1, es[k].sent.value,
              j, p)
  }

  ghost predicate Exchanged(cfg: Settings, es: seq<Event>, b: nat, i: nat, p: Payload)
    requires ValidSettings(cfg)
  {
    exists k: nat, j: nat :: k < |es| && ExchangedAt(cfg, es, k, b, i, j, p)
  }

  ghost function OwnExchange(cfg: Settings, es: seq<Event>): Judge
    requires ValidSettings(cfg)
  {
    (b: nat, i: nat, r: Request, m: Message) =>
      m.id == r.id && (m.body.Answer? ==> Exchanged(cfg, es, b, i, m.body.payload))
  }

  lemma ExchangeIsJudged(cfg: Settings, es: seq<Event>, n: nat)
    requires ValidSettings(cfg) && n < |es| && Exec(cfg, es[..n]).Some?
    ensures JudgedEvent(OwnExchange(cfg, es), cfg, Exec(cfg, es[..n]).value, es[n])
  {
    var s, e := Exec(cfg, es[..n]).value, es[n];
    hide Exec, OwnPayload, OnTheWire;
    if e.Replied? && e.b < |s.all| && s.all[e.b].phase.Expanding? {
      var wire := s.all[e.b].phase.wire;
      var entries := RequestsAt(s, e.b, wire);
      var o := Messages(Multicall(cfg, e.tickets), entries, e.sent);
      forall j | 0 <= j < |wire| && o.Decoded?
        ensures OwnExchange(cfg, es)(e.b, wire[j], RequestAt(s, e.b, wire[j]), o.value[j])
      {
        assert entries[j] == RequestAt(s, e.b, wire[j]);
        NoCrossTalk(Multicall(cfg, e.tickets), entries, e.sent, j);
        if o.value[j].body.Answer? {
          assert ExchangedAt(cfg, es, n, e.b, wire[j], j, o.value[j].body.payload);
        }
      }
    }
  }

  lemma {:induction false} PrefixIsJudged(cfg: Settings, es: seq<Event>, n: nat)
    requires ValidSettings(cfg) && n <= |es| && Exec(cfg, es[..n]).Some?
    ensures JudgedRun(OwnExchange(cfg, es), cfg, es[..n])
  {
    hide JudgedEvent, OwnExchange, Step;
    if n > 0 {
      assert es[..n][..n - 1] == es[..n - 1];
      PrefixIsJudged(cfg, es, n - 1);
      ExchangeIsJudged(cfg, es, n - 1);
    }
  }

  /** No cross-talk over whole runs, for any upstreams whatsoever: an answer a
      caller is sent carries the caller's own id and comes from an exchange of its own
      batch, as the payload labelled with the position its request went out
      under, its own slot of a fused reply, or an error made by the expansion. */
  lemma {:induction false} AnswersComeFromOwnExchange(cfg: Settings, es: seq<Event>, c: nat, m: Message)
    requires ValidSettings(cfg) && Exec(cfg, es).Some? && c < |Exec(cfg, es).value.calls|
    requires m in Exec(cfg, es).value.calls[c].log
    ensures var call := Exec(cfg, es).value.calls[c];
            m.id == call.request.id
            && (m.body.Answer? ==> Exchanged(cfg, es, call.batch, call.slot, m.body.payload))
  {
    assert es[..|es|] == es;
    PrefixIsJudged(cfg, es, |es|);
    RunJudged(OwnExchange(cfg, es), cfg, es);
    hide Exec, Exchanged;
    var call := Exec(cfg, es).value.calls[c];
    assert OwnExchange(cfg, es)(call.batch, call.slot, call.request, m);
  }
}
