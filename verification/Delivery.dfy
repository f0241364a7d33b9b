/** The sequential part of processBatch: number the live entries, send them
    (fused or not), and route every reply to one entry's channel. */
module Delivery {
  import opened Words
  import opened Collections
  import opened Rpc
  import opened Options
  import opened Fusion
  import opened Meaning
  import opened Decoder

  datatype Reason = SendFailed | MissingResponse | CallerLeft

  datatype Body = Answer(payload: Payload) | Internal(reason: Reason)

  /** What a caller's channel carries: its own id and a body. */
  datatype Message = Message(id: Id, body: Body)

  /** parseWireID */
  function ParseWireId(id: Id): Option<int> {
    match id
    case Wire(n) => Some(n)
    case Spelled(n, _) => Some(n)
    case _ => None
  }

  /** The requests as they go upstream, under their positions as ids. */
  function WireRequests(entries: seq<Request>): (rs: seq<Request>)
    ensures |rs| == |entries|
    ensures forall i :: 0 <= i < |entries| ==> rs[i] == entries[i].(id := Wire(i))
  {
    seq(|entries|, i requires 0 <= i < |entries| => entries[i].(id := Wire(i)))
  }

  /** The first reply that names position i. */
  function FirstFor(replies: seq<Reply>, i: nat): Option<Payload> {
    if replies == [] then None
    else if FirstFor(replies[..|replies| - 1], i).Some? then FirstFor(replies[..|replies| - 1], i)
    else
      var last := replies[|replies| - 1];
      if ParseWireId(last.id) == Some(i) then Some(last.payload) else None
  }

  function Routed(entries: seq<Request>, replies: seq<Reply>): (ms: seq<Message>)
    ensures |ms| == |entries|
    ensures forall i :: 0 <= i < |entries| ==>
      ms[i] == Message(entries[i].id, match FirstFor(replies, i)
                                      case Some(p) => Answer(p)
                                      case None => Internal(MissingResponse))
  {
    seq(|entries|, i requires 0 <= i < |entries| =>
      Message(entries[i].id, match FirstFor(replies, i)
                             case Some(p) => Answer(p)
                             case None => Internal(MissingResponse)))
  }

  function AllFailed(entries: seq<Request>): (ms: seq<Message>)
    ensures |ms| == |entries|
    ensures forall i :: 0 <= i < |entries| ==> ms[i] == Message(entries[i].id, Internal(SendFailed))
  {
    seq(|entries|, i requires 0 <= i < |entries| => Message(entries[i].id, Internal(SendFailed)))
  }

  /** The wire requests and the way back, with fusion switched on or off. */
  function OnTheWire(multicall: Option<Config>, entries: seq<Request>): (seq<Request>, Option<Mapping>)
    requires multicall.Some? ==> multicall.value.maxCalls >= 1
  {
    match multicall
    case None => (WireRequests(entries), None)
    case Some(cfg) => Aggregated(cfg, WireRequests(entries))
  }

  /** What each entry of a sent batch receives, given what sendBatch returned;
      Fault when expanding the replies panics and nobody receives anything. */
  function Messages(multicall: Option<Config>, entries: seq<Request>, sent: Option<seq<Reply>>):
    (o: Outcome<seq<Message>>)
    requires multicall.Some? ==> multicall.value.maxCalls >= 1
    ensures o.Decoded? ==> |o.value| == |entries|
  {
    match sent
    case None => Decoded(AllFailed(entries))
    case Some(replies) =>
      match Restored(OnTheWire(multicall, entries).1, replies)
      case Decoded(restored) => Decoded(Routed(entries, restored))
      case _ => Fault
  }

  /* ---------- The plan's shape, for any requests at all ---------- */

  /** Every slot of a fused call is one of the batch's own requests. */
  ghost predicate OwnGroup(rs: seq<Request>, g: Group) {
    && g.id.Synthetic?
    && Indexed(g)
    && forall j :: 0 <= j < |g.entries| ==> Member(g.entries[j]) in rs
  }

  ghost predicate Shaped(rs: seq<Request>, p: Plan) {
    && (forall r :: r in p.mapping.passthrough ==> r in rs)
    && (forall g :: g in p.mapping.groups ==> OwnGroup(rs, g))
  }

  lemma AddChunkShaped(cfg: Config, rs: seq<Request>, p: Plan, chunk: seq<Request>, tag: string)
    requires Shaped(rs, p) && forall r :: r in chunk ==> r in rs && Eligible(r)
    ensures Shaped(rs, AddChunk(cfg, p, chunk, tag))
  {
    hide Eligible, Fused;
    if |chunk| != 1 {
      MembersOfEntries(chunk);
      var g := Group(Synthetic(cfg.tickets(p.drawn)), tag, EntriesOf(chunk));
      forall j | 0 <= j < |chunk|
        ensures Member(g.entries[j]) in rs
      {
        assert Members(g.entries)[j] == chunk[j] && chunk[j] in chunk;
      }
    }
  }

  lemma {:induction false} AddChunksShaped(cfg: Config, rs: seq<Request>, p: Plan, calls: seq<Request>, tag: string,
                                           start: nat)
    requires cfg.maxCalls >= 1
    requires Shaped(rs, p) && forall r :: r in calls ==> r in rs && Eligible(r)
    ensures Shaped(rs, AddChunks(cfg, p, calls, tag, start))
    decreases if start < |calls| then |calls| - start else 0
  {
    hide Eligible, AddChunk, Shaped;
    if start < |calls| {
      var chunk := calls[start..Min(start + cfg.maxCalls, |calls|)];
      AddChunkShaped(cfg, rs, p, chunk, tag);
      AddChunksShaped(cfg, rs, AddChunk(cfg, p, chunk, tag), calls, tag, start + cfg.maxCalls);
    }
  }

  lemma {:induction false} AddTagsShaped(cfg: Config, rs: seq<Request>, tags: seq<string>, k: nat)
    requires cfg.maxCalls >= 1 && k <= |tags|
    ensures Shaped(rs, AddTags(cfg, StartPlan(rs), Eligibles(rs), tags, k))
  {
    hide Eligible, AddChunks;
    PartitionMembers(rs);
    if k > 0 {
      AddTagsShaped(cfg, rs, tags, k - 1);
      WithTagMembers(Eligibles(rs), tags[k - 1]);
      AddChunksShaped(cfg, rs, AddTags(cfg, StartPlan(rs), Eligibles(rs), tags, k - 1),
                      WithTag(Eligibles(rs), tags[k - 1]), tags[k - 1], 0);
    }
  }

  /* ---------- The loops ---------- */

  lemma {:induction false} FirstForStays(replies: seq<Reply>, j: nat, k: nat, i: nat)
    requires j <= k <= |replies| && FirstFor(replies[..j], i).Some?
    ensures FirstFor(replies[..k], i) == FirstFor(replies[..j], i)
  {
    if j < k {
      FirstForStays(replies, j, k - 1, i);
      TakeTake(replies, k - 1, k);
    }
  }

  /** A send on a caller's channel: it must not block, so the slot is free. */
  method Send(chans: array<Option<Message>>, i: nat, m: Message)
    requires i < chans.Length && chans[i] == None
    modifies chans
    ensures chans[..] == old(chans[..])[i := Some(m)]
  {
    chans[i] := Some(m);
  }

  /** The delivery loops of processBatch: at most one send per channel, then
      an explicit error to every entry the upstream left out. */
  method Deliver(entries: seq<Request>, responses: seq<Reply>, chans: array<Option<Message>>)
    requires chans.Length == |entries| && forall i :: 0 <= i < |entries| ==> chans[i] == None
    modifies chans
    ensures forall i :: 0 <= i < |entries| ==> chans[i] == Some(Routed(entries, responses)[i])
  {
    hide ParseWireId;
    var delivered := new bool[|entries|](_ => false);
    for k := 0 to |responses|
      invariant forall i :: 0 <= i < |entries| ==> (delivered[i] <==> FirstFor(responses[..k], i).Some?)
      invariant forall i :: 0 <= i < |entries| ==>
        chans[i] == if delivered[i] then Some(Message(entries[i].id, Answer(FirstFor(responses[..k], i).value)))
            else None
    {
      TakeTake(responses, k, k + 1);
      var resp := responses[k];
      var parsed := ParseWireId(resp.id);
      if parsed.None? || parsed.value < 0 || parsed.value >= |entries| || delivered[parsed.value] {
        continue;
      }
      var idx := parsed.value;
      delivered[idx] := true;
      Send(chans, idx, Message(entries[idx].id, Answer(resp.payload)));
    }
    assert responses[..|responses|] == responses;
    for i := 0 to |entries|
      invariant forall j :: 0 <= j < |entries| ==> (delivered[j] <==> FirstFor(responses, j).Some?)
      invariant forall j :: 0 <= j < i ==> chans[j] == Some(Routed(entries, responses)[j])
      invariant forall j :: i <= j < |entries| ==>
        chans[j] == if delivered[j] then Some(Message(entries[j].id, Answer(FirstFor(responses, j).value))) else None
    {
      if !delivered[i] {
        Send(chans, i, Message(entries[i].id, Internal(MissingResponse)));
      }
    }
  }

  /** processBatch from the live entries on. sendBatch is a parameter: given
      the wire requests it fails or returns some list of replies. */
  method ProcessLive(entries: seq<Request>, multicall: Option<Config>, sendBatch: seq<Request> -> Option<seq<Reply>>,
                     chans: array<Option<Message>>) returns (panicked: bool)
    requires multicall.Some? ==> multicall.value.maxCalls >= 1
    requires chans.Length == |entries| && forall i :: 0 <= i < |entries| ==> chans[i] == None
    modifies chans
    ensures var o := Messages(multicall, entries, sendBatch(OnTheWire(multicall, entries).0));
            && panicked == o.Fault?
            && forall i :: 0 <= i < |entries| ==> chans[i] == if o.Decoded? then Some(o.value[i]) else None
  {
    hide Aggregated, Routed, Expanded, AllFailed;
    var requests: seq<Request> := [];
    for i := 0 to |entries|
      invariant requests == WireRequests(entries)[..i]
    {
      requests := requests + [entries[i].(id := Wire(i))];
    }
    assert requests == WireRequests(entries);
    var mapping: Option<Mapping> := None;
    if multicall.Some? {
      ShapedMapping(multicall.value, requests);
      requests, mapping := AggregateEthCalls(requests, multicall.value);
    }
    var responses := sendBatch(requests);
    if responses.None? {
      for i := 0 to |entries|
        invariant forall j :: 0 <= j < i ==> chans[j] == Some(AllFailed(entries)[j])
        invariant forall j :: i <= j < |entries| ==> chans[j] == None
      {
        Send(chans, i, Message(entries[i].id, Internal(SendFailed)));
      }
      return false;
    }
    var replies := responses.value;
    if mapping.Some? {
      var expanded := ExpandMulticallResponses(replies, mapping.value);
      if !expanded.Decoded? {
        return true;
      }
      replies := expanded.value;
    }
    Deliver(entries, replies, chans);
    return false;
  }

  lemma ShapedMapping(cfg: Config, rs: seq<Request>)
    requires cfg.maxCalls >= 1
    ensures Aggregated(cfg, rs).1.Some? ==>
            && (forall r :: r in Aggregated(cfg, rs).1.value.passthrough ==> r in rs)
            && (forall g :: g in Aggregated(cfg, rs).1.value.groups ==> OwnGroup(rs, g) && Indexed(g))
  {
    hide AddTags, Eligible;
    AddTagsShaped(cfg, rs, TagOrder(Eligibles(rs)), |TagOrder(Eligibles(rs))|);
  }

  /* ---------- No cross-talk ---------- */

  /** Reply r to group g, as slot j of the fused call receives it. */
  ghost predicate FromSlot(g: Group, j: nat, r: Reply, p: Payload)
    requires j < |g.entries|
  {
    && r.id == g.id
    && (|| (HasError(r.payload) && p == r.payload)
        || (&& r.payload.HexResult?
            && var d := DecodeResults(r.payload.bytes);
            d.Decoded? && |d.value| == |g.entries| && p == AnswerOf(d.value[j])))
  }

  /** Where the payload of entry i may come from, whatever the upstream sent. */
  ghost predicate OwnPayload(rs: seq<Request>, mapping: Option<Mapping>, replies: seq<Reply>, i: nat, p: Payload)
    requires i < |rs|
  {
    || (exists r :: r in replies && ParseWireId(r.id) == Some(i) && r.payload == p)
    || (mapping.Some? && exists g, j, r ::
          && g in mapping.value.groups && 0 <= j < |g.entries| && r in replies
          && Member(g.entries[j]) == rs[i]
          && FromSlot(g, j, r, p))
    || p.FusionError?
  }

  lemma {:induction false} FirstForFound(replies: seq<Reply>, i: nat)
    requires FirstFor(replies, i).Some?
    ensures exists r :: r in replies && ParseWireId(r.id) == Some(i) && r.payload == FirstFor(replies, i).value
  {
    if FirstFor(replies[..|replies| - 1], i).Some? {
      FirstForFound(replies[..|replies| - 1], i);
    }
  }

  lemma {:induction false} LookupFound(replies: seq<Reply>, id: Id)
    requires Lookup(replies, id).Some?
    ensures Reply(id, Lookup(replies, id).value) in replies
  {
    if replies[|replies| - 1].id != id {
      LookupFound(replies[..|replies| - 1], id);
    }
  }

  lemma {:induction false} PassedReply(replies: seq<Reply>, pass: seq<Request>, r: Reply)
    requires r in ExpandPassthrough(replies, pass)
    ensures r in replies && exists q :: q in pass && q.id == r.id
  {
    var n := |pass| - 1;
    if r in ExpandPassthrough(replies, pass[..n]) {
      PassedReply(replies, pass[..n], r);
    } else {
      LookupFound(replies, pass[n].id);
    }
  }

  lemma {:induction false} FannedReply(replies: seq<Reply>, gs: seq<Group>, r: Reply)
    requires ExpandGroups(replies, gs).Decoded? && r in ExpandGroups(replies, gs).value
    ensures exists g, j :: g in gs && FannedTo(replies, g, j, r)
  {
    hide ExpandGroup;
    var n := |gs| - 1;
    if r in ExpandGroups(replies, gs[..n]).value {
      FannedReply(replies, gs[..n], r);
    } else {
      GroupSize(replies, gs[n]);
      var j :| 0 <= j < |gs[n].entries| && r == ExpandGroup(replies, gs[n]).value[j];
      assert FannedTo(replies, gs[n], j, r);
    }
  }

  /** r is what slot j of group g is answered with. */
  predicate FannedTo(replies: seq<Reply>, g: Group, j: int, r: Reply) {
    && 0 <= j < |g.entries| && !Faults(Lookup(replies, g.id))
    && r == Reply(g.entries[j].originalId, EntryPayload(Lookup(replies, g.id), |g.entries|, g.entries[j]))
  }

  lemma GroupSize(replies: seq<Reply>, g: Group)
    requires ExpandGroup(replies, g).Decoded?
    ensures !Faults(Lookup(replies, g.id)) && |ExpandGroup(replies, g).value| == |g.entries|
    ensures forall j :: 0 <= j < |g.entries| ==> FannedTo(replies, g, j, ExpandGroup(replies, g).value[j])
  {
    hide EntryPayload, Lookup;
  }

  lemma SlotPayload(replies: seq<Reply>, g: Group, j: nat)
    requires j < |g.entries| && Indexed(g) && !Faults(Lookup(replies, g.id))
    ensures var p := EntryPayload(Lookup(replies, g.id), |g.entries|, g.entries[j]);
            p.FusionError? || exists r :: r in replies && FromSlot(g, j, r, p)
  {
    hide DecodeResults;
    var p := EntryPayload(Lookup(replies, g.id), |g.entries|, g.entries[j]);
    if !p.FusionError? {
      LookupFound(replies, g.id);
      assert FromSlot(g, j, Reply(g.id, Lookup(replies, g.id).value), p);
    }
  }

  /** No cross-talk, for any entries and any replies whatsoever: reordered,
      duplicated, dropped or junk, and however the client ids collide. Entry i
      gets its own id back, and a payload the upstream labelled with i, or its
      own slot of a fused reply, or an error made here; or, when a fused reply
      makes the expansion panic, nobody gets anything. */
  lemma NoCrossTalk(multicall: Option<Config>, entries: seq<Request>, sent: Option<seq<Reply>>, i: nat)
    requires multicall.Some? ==> multicall.value.maxCalls >= 1
    requires i < |entries|
    ensures !Messages(multicall, entries, sent).Rejected?
    ensures Messages(multicall, entries, sent).Decoded? ==>
            var m := Messages(multicall, entries, sent).value[i];
            && m.id == entries[i].id
            && (m.body.Answer? ==>
                  && sent.Some?
                  && OwnPayload(WireRequests(entries), OnTheWire(multicall, entries).1, sent.value, i, m.body.payload))
  {
    hide Aggregated, FromSlot, EntryPayload, ExpandPassthrough, ExpandGroups, Lookup;
    if sent.Some? && Messages(multicall, entries, sent).Decoded? {
      var rs, mapping := WireRequests(entries), OnTheWire(multicall, entries).1;
      var replies := Restored(mapping, sent.value).value;
      if FirstFor(replies, i).Some? {
        FirstForFound(replies, i);
        var r :| r in replies && ParseWireId(r.id) == Some(i) && r.payload == FirstFor(replies, i).value;
        if mapping.Some? {
          RestoredOwn(multicall.value, rs, sent.value, i, r);
        }
      }
    }
  }

  lemma RestoredOwn(cfg: Config, rs: seq<Request>, replies: seq<Reply>, i: nat, r: Reply)
    requires cfg.maxCalls >= 1 && Aggregated(cfg, rs).1.Some?
    requires i < |rs| && forall k :: 0 <= k < |rs| ==> rs[k].id == Wire(k)
    requires Expanded(replies, Aggregated(cfg, rs).1.value).Decoded?
    requires r in Expanded(replies, Aggregated(cfg, rs).1.value).value && ParseWireId(r.id) == Some(i)
    ensures OwnPayload(rs, Aggregated(cfg, rs).1, replies, i, r.payload)
  {
    hide Aggregated, EntryPayload, FromSlot;
    ShapedMapping(cfg, rs);
    var m := Aggregated(cfg, rs).1.value;
    if r in ExpandPassthrough(replies, m.passthrough) {
      PassedReply(replies, m.passthrough, r);
    } else {
      FannedReply(replies, m.groups, r);
      var g, j :| g in m.groups && FannedTo(replies, g, j, r);
      SlotPayload(replies, g, j);
      var q := Member(g.entries[j]);
      var k :| 0 <= k < |rs| && rs[k] == q;
      assert k == i;
    }
  }

  /** Which error of the processor's own a caller is told: that the exchange failed when
      it did, and that its response is missing when, of the replies in the end, none
      names its position. */
  lemma {:induction false} OwnErrorsExactly(multicall: Option<Config>, entries: seq<Request>,
                                            sent: Option<seq<Reply>>, i: nat)
    requires multicall.Some? ==> multicall.value.maxCalls >= 1
    requires i < |entries| && Messages(multicall, entries, sent).Decoded?
    ensures var m := Messages(multicall, entries, sent).value[i];
            && (m.body == Internal(SendFailed) <==> sent.None?)
            && m.body != Internal(CallerLeft)
            && (sent.Some? ==>
                  var o := Restored(OnTheWire(multicall, entries).1, sent.value);
                  && o.Decoded?
                  && (m.body == Internal(MissingResponse) <==>
                        forall r :: r in o.value ==> ParseWireId(r.id) != Some(i)))
  {
    hide Restored, OnTheWire;
    if sent.Some? {
      NamedInReplies(Restored(OnTheWire(multicall, entries).1, sent.value).value, i);
    }
  }

  lemma {:induction false} NamedInReplies(replies: seq<Reply>, i: nat)
    ensures FirstFor(replies, i).None? <==> forall r :: r in replies ==> ParseWireId(r.id) != Some(i)
  {
    hide ParseWireId;
    if replies != [] {
      var n := |replies| - 1;
      NamedInReplies(replies[..n], i);
      assert replies == replies[..n] + [replies[n]];
    }
  }

  /* ---------- Everyone gets the answer to their own call ---------- */

  /** The batch's calls are ones fusion may touch without changing their meaning. */
  ghost predicate Fusable(u: Upstream, multicall: Option<Config>, entries: seq<Request>) {
    multicall.Some? ==>
      && ValidConfig(multicall.value)
      && Aggregates(u, multicall.value.address)
      && (forall r :: r in entries && AsksRead(r) ==> Plain(r.params))
      && Load(u, Eligibles(WireRequests(entries))) + 100 < TWO_63
  }

  lemma WireWellformed(u: Upstream, cfg: Config, entries: seq<Request>)
    requires Fusable(u, Some(cfg), entries)
    ensures Wellformed(u, WireRequests(entries))
  {
    hide Load, Aggregates, AsksRead, Plain, Eligibles;
    var rs := WireRequests(entries);
    forall r | r in rs && AsksRead(r)
      ensures Plain(r.params)
    {
      var k :| 0 <= k < |rs| && rs[k] == r;
      assert entries[k] in entries;
      IdIrrelevant(entries[k], Wire(k));
    }
  }

  lemma IdIrrelevant(r: Request, id: Id)
    ensures AsksRead(r.(id := id)) == AsksRead(r)
    ensures forall u: Upstream :: Direct(u, r.(id := id)) == Direct(u, r)
  {
  }

  lemma {:induction false} FirstForHonest(u: Upstream, rs: seq<Request>, replies: seq<Reply>, k: nat, i: nat)
    requires k <= |replies| && i < |rs| && forall j :: 0 <= j < |rs| ==> rs[j].id == Wire(j)
    requires forall p :: p in replies ==> exists j :: 0 <= j < |rs| && p == DirectReply(u, rs[j])
    ensures FirstFor(replies[..k], i) == Some(Direct(u, rs[i])) || forall j :: 0 <= j < k ==> replies[j].id != Wire(i)
    ensures FirstFor(replies[..k], i).Some? ==> FirstFor(replies[..k], i) == Some(Direct(u, rs[i]))
  {
    hide Direct;
    if k > 0 {
      FirstForHonest(u, rs, replies, k - 1, i);
      TakeTake(replies, k - 1, k);
      assert replies[k - 1] in replies;
    }
  }

  lemma FirstForAnswered(u: Upstream, rs: seq<Request>, replies: seq<Reply>, i: nat)
    requires i < |rs| && forall j :: 0 <= j < |rs| ==> rs[j].id == Wire(j)
    requires AnsweredAll(u, rs, replies)
    ensures FirstFor(replies, i) == Some(Direct(u, rs[i]))
  {
    hide Direct;
    var direct := DirectReplies(u, rs);
    forall p | p in replies
      ensures exists j :: 0 <= j < |rs| && p == DirectReply(u, rs[j])
    {
      assert p in multiset(direct);
      var j :| 0 <= j < |direct| && direct[j] == p;
    }
    FirstForHonest(u, rs, replies, |replies|, i);
    assert replies[..|replies|] == replies;
    assert direct[i] in multiset(replies);
    assert exists k :: 0 <= k < |replies| && replies[k] == direct[i];
  }

  /** When the upstream answers what it is sent, in any order, every caller of
      the batch gets the answer to its own call under its own id, whether or
      not that call was fused with others'. */
  lemma OwnAnswer(u: Upstream, multicall: Option<Config>, entries: seq<Request>, replies: seq<Reply>, i: nat)
    requires multicall.Some? ==> multicall.value.maxCalls >= 1
    requires Fusable(u, multicall, entries) && i < |entries|
    requires AnsweredAll(u, OnTheWire(multicall, entries).0, replies)
    ensures var o := Messages(multicall, entries, Some(replies));
            o.Decoded? && o.value[i] == Message(entries[i].id, Answer(Direct(u, entries[i])))
  {
    hide Direct, Aggregated, AnsweredAll, Eligible, Plain, Load, Aggregates, Restored;
    var rs := WireRequests(entries);
    if multicall.Some? {
      WireWellformed(u, multicall.value, entries);
      FusionPreservesMeaning(u, multicall.value, rs, replies);
      FirstForAnswered(u, rs, Restored(Aggregated(multicall.value, rs).1, replies).value, i);
    } else {
      RestoredAsIs(replies);
      FirstForAnswered(u, rs, replies, i);
    }
    IdIrrelevant(entries[i], Wire(i));
  }

  lemma RestoredAsIs(replies: seq<Reply>)
    ensures Restored(None, replies) == Decoded(replies)
  {
  }

  /* ---------- Replies that nobody survives ---------- */

  /** The reply to a group is return data on which its decoder slices out of bounds. */
  predicate WrappedReply(replies: seq<Reply>, g: Group) {
    var p := Lookup(replies, g.id);
    p.Some? && p.value.HexResult? && ResultDataWraps(p.value.bytes)
  }

  lemma {:induction false} GroupsFaultExactly(replies: seq<Reply>, gs: seq<Group>)
    requires forall r :: r in replies && r.payload.HexResult? ==> |r.payload.bytes| < TWO_63
    ensures !ExpandGroups(replies, gs).Rejected?
    ensures ExpandGroups(replies, gs).Fault? <==> exists g :: g in gs && WrappedReply(replies, g)
  {
    hide ExpandGroup, WrappedReply;
    if gs != [] {
      var n := |gs| - 1;
      GroupsFaultExactly(replies, gs[..n]);
      WrappedFaults(replies, gs[n]);
      assert gs == gs[..n] + [gs[n]];
    }
  }

  lemma WrappedFaults(replies: seq<Reply>, g: Group)
    requires forall r :: r in replies && r.payload.HexResult? ==> |r.payload.bytes| < TWO_63
    ensures ExpandGroup(replies, g).Fault? <==> WrappedReply(replies, g)
    ensures !ExpandGroup(replies, g).Rejected?
  {
    hide Lookup, DecodeResults, ResultDataWraps, ExpandEntries;
    if Lookup(replies, g.id).Some? {
      LookupFound(replies, g.id);
      var p := Lookup(replies, g.id).value;
      if p.HexResult? {
        assert Reply(g.id, p) in replies;
        DecodeResultsFaultsExactly(p.bytes);
      }
    }
  }

  /** Everybody is answered unless one of the fused calls got such a reply: then,
      and only then, the goroutine panics, and nobody is. */
  lemma {:induction false} MessagesFaultExactly(multicall: Option<Config>, entries: seq<Request>, replies: seq<Reply>)
    requires multicall.Some? ==> multicall.value.maxCalls >= 1
    requires forall r :: r in replies && r.payload.HexResult? ==> |r.payload.bytes| < TWO_63
    ensures var mapping := OnTheWire(multicall, entries).1;
            Messages(multicall, entries, Some(replies)).Fault? <==>
            mapping.Some? && exists g :: g in mapping.value.groups && WrappedReply(replies, g)
  {
    hide Aggregated, Lookup, ResultDataWraps, Routed;
    var mapping := OnTheWire(multicall, entries).1;
    if mapping.Some? {
      GroupsFaultExactly(replies, mapping.value.groups);
    }
  }

  /** One such reply: an array offset with all its bits set, to two calls fused. */
  lemma OneReplyPanics(cfg: Config, data: seq<byte>)
    requires ValidConfig(cfg) && cfg.maxCalls >= 2
    ensures var ones: seq<byte> := seq(64, _ => 255);
            var entries := Twins(data, NoBlock, "");
            var reply := Reply(Synthetic(cfg.tickets(0)), HexResult(ones));
            Messages(Some(cfg), entries, Some([reply])).Fault?
  {
    var ones: seq<byte> := seq(64, _ => 255);
    var half: seq<byte> := seq(32, _ => 255);
    var entries := Twins(data, NoBlock, "");
    var reply := Reply(Synthetic(cfg.tickets(0)), HexResult(ones));
    AllOnesOffsetFaults();
    assert half + half == ones;
    assert WireRequests(entries) == entries;
    TwinPlan(cfg, data, NoBlock, "");
    var g := Group(Synthetic(cfg.tickets(0)), "latest", EntriesOf(entries));
    hide DecodeResults, Aggregated, Fused, ExpandEntries;
    assert Lookup([reply], g.id) == Some(reply.payload);
    OneGroup([reply], g);
  }
}
