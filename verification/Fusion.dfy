/** aggregateEthCalls and expandMulticallResponses: eligible eth_calls of a
    batch are fused into aggregate3 calls per block tag, and the answers are
    fanned back out. */
module Fusion {
  import opened Options
  import opened Words
  import opened Collections
  import opened Codec
  import opened Rpc
  import opened Decoder

  datatype Entry = Entry(originalId: Id, params: Params, index: nat)

  datatype Group = Group(id: Id, tag: string, entries: seq<Entry>)

  datatype Mapping = Mapping(groups: seq<Group>, passthrough: seq<Request>)

  /** The rewriter's state: what it will send, how to undo it, and how many
      synthetic ids it has drawn. */
  datatype Plan = Plan(out: seq<Request>, mapping: Mapping, drawn: nat)

  /** tickets(k) is the number the k-th draw from the process-wide counter
      yields; other batches may draw in between, so only its growth is known. */
  datatype Config = Config(address: Address, maxCalls: nat, tickets: nat -> nat)

  ghost predicate ValidConfig(cfg: Config) {
    && 1 <= cfg.maxCalls <= 10000
    && forall i: nat, j: nat :: i < j ==> cfg.tickets(i) < cfg.tickets(j)
  }

  function Eligibles(rs: seq<Request>): seq<Request> {
    if rs == [] then []
    else
      var r := rs[|rs| - 1];
      Eligibles(rs[..|rs| - 1]) + if Eligible(r) then [r] else []
  }

  function Ineligibles(rs: seq<Request>): seq<Request> {
    if rs == [] then []
    else
      var r := rs[|rs| - 1];
      Ineligibles(rs[..|rs| - 1]) + if Eligible(r) then [] else [r]
  }

  function TagOf(r: Request): string {
    if r.params.CallParams? then BlockTag(r.params.block) else ""
  }

  /** The distinct tags in the order they first appear. */
  function TagOrder(es: seq<Request>): seq<string> {
    if es == [] then []
    else
      var ts := TagOrder(es[..|es| - 1]);
      var t := TagOf(es[|es| - 1]);
      if t in ts then ts else ts + [t]
  }

  function WithTag(es: seq<Request>, tag: string): seq<Request> {
    if es == [] then []
    else
      var e := es[|es| - 1];
      WithTag(es[..|es| - 1], tag) + if TagOf(e) == tag then [e] else []
  }

  function EntryOf(r: Request, index: nat): Entry {
    Entry(r.id, r.params, index)
  }

  function EntriesOf(chunk: seq<Request>): (es: seq<Entry>)
    ensures |es| == |chunk|
    ensures forall j :: 0 <= j < |chunk| ==> es[j] == EntryOf(chunk[j], j)
  {
    seq(|chunk|, j requires 0 <= j < |chunk| => EntryOf(chunk[j], j))
  }

  function CallOf(p: Params): Call3 {
    if p.CallParams? then Call3(HexToAddress(p.to), true, HexToBytes(p.data)) else Call3(Zeros(20), true, [])
  }

  function CallsOf(es: seq<Entry>): (cs: seq<Call3>)
    ensures |cs| == |es|
    ensures forall j :: 0 <= j < |es| ==> cs[j] == CallOf(es[j].params)
  {
    seq(|es|, j requires 0 <= j < |es| => CallOf(es[j].params))
  }

  /** The wire request that stands for a whole group. */
  function Fused(cfg: Config, g: Group): Request {
    Request(g.id, "eth_call",
            CallParams(HexBytes(cfg.address), HexBytes(CallsBytes(CallsOf(g.entries))), "", "", "", "", "",
                       BlockText(g.tag), false))
  }

  /** One chunk: a lone call goes out as it came, two or more are fused. */
  function AddChunk(cfg: Config, p: Plan, chunk: seq<Request>, tag: string): Plan {
    if |chunk| == 1 then
      Plan(p.out + chunk, p.mapping.(passthrough := p.mapping.passthrough + chunk), p.drawn)
    else
      var g := Group(Synthetic(cfg.tickets(p.drawn)), tag, EntriesOf(chunk));
      Plan(p.out + [Fused(cfg, g)], p.mapping.(groups := p.mapping.groups + [g]), p.drawn + 1)
  }

  /** The chunks of calls from position start on. */
  function AddChunks(cfg: Config, p: Plan, calls: seq<Request>, tag: string, start: nat): Plan
    requires cfg.maxCalls >= 1
    decreases if start < |calls| then |calls| - start else 0
  {
    if start >= |calls| then p
    else
      var end := Min(start + cfg.maxCalls, |calls|);
      AddChunks(cfg, AddChunk(cfg, p, calls[start..end], tag), calls, tag, start + cfg.maxCalls)
  }

  /** The chunks of the first k tags. */
  function AddTags(cfg: Config, p: Plan, es: seq<Request>, tags: seq<string>, k: nat): Plan
    requires cfg.maxCalls >= 1 && k <= |tags|
  {
    if k == 0 then p
    else AddChunks(cfg, AddTags(cfg, p, es, tags, k - 1), WithTag(es, tags[k - 1]), tags[k - 1], 0)
  }

  function StartPlan(rs: seq<Request>): Plan {
    Plan(Ineligibles(rs), Mapping([], Ineligibles(rs)), 0)
  }

  function FullPlan(cfg: Config, rs: seq<Request>): Plan
    requires cfg.maxCalls >= 1
  {
    var es := Eligibles(rs);
    AddTags(cfg, StartPlan(rs), es, TagOrder(es), |TagOrder(es)|)
  }

  /** What aggregateEthCalls returns: with fewer than two eligible calls the
      batch goes out as it is and nothing needs undoing. */
  function Aggregated(cfg: Config, rs: seq<Request>): (seq<Request>, Option<Mapping>)
    requires cfg.maxCalls >= 1
  {
    if |Eligibles(rs)| < 2 then (rs, None)
    else (FullPlan(cfg, rs).out, Some(FullPlan(cfg, rs).mapping))
  }

  /** aggregateEthCalls */
  method AggregateEthCalls(requests: seq<Request>, cfg: Config) returns (out: seq<Request>, mapping: Option<Mapping>)
    requires cfg.maxCalls >= 1
    ensures (out, mapping) == Aggregated(cfg, requests)
  {
    hide Eligible, TagOf, AddTags, AddChunks, TagOrder, WithTag, StartPlan;
    var passthrough, eligible := SplitEligible(requests);
    if |eligible| < 2 {
      return requests, None;
    }
    var tagGroups, tagOrder := GroupByTag(eligible);
    var plan := AppendTags(StartPlan(requests), eligible, tagGroups, tagOrder, cfg);
    return plan.out, Some(plan.mapping);
  }

  method SplitEligible(requests: seq<Request>) returns (passthrough: seq<Request>, eligible: seq<Request>)
    ensures passthrough == Ineligibles(requests) && eligible == Eligibles(requests)
  {
    hide Eligible;
    passthrough, eligible := [], [];
    for i := 0 to |requests|
      invariant passthrough == Ineligibles(requests[..i])
      invariant eligible == Eligibles(requests[..i])
    {
      var req := requests[i];
      assert requests[..i + 1][..i] == requests[..i];
      if !Eligible(req) {
        passthrough := passthrough + [req];
      } else {
        eligible := eligible + [req];
      }
    }
    assert requests[..|requests|] == requests;
  }

  /** Eligible calls by block tag, with the tags in order of first appearance. */
  method GroupByTag(eligible: seq<Request>) returns (tagGroups: map<string, seq<Request>>, tagOrder: seq<string>)
    ensures tagOrder == TagOrder(eligible)
    ensures forall t :: t in tagOrder ==> t in tagGroups && tagGroups[t] == WithTag(eligible, t)
  {
    hide TagOf;
    tagGroups, tagOrder := map[], [];
    for i := 0 to |eligible|
      invariant tagOrder == TagOrder(eligible[..i])
      invariant forall t :: t in tagGroups <==> t in tagOrder
      invariant forall t :: t in tagGroups ==> tagGroups[t] == WithTag(eligible[..i], t)
      invariant forall t :: t !in tagGroups ==> WithTag(eligible[..i], t) == []
    {
      var e := eligible[i];
      var tag := TagOf(e);
      assert eligible[..i + 1][..i] == eligible[..i];
      if tag !in tagGroups {
        tagOrder := tagOrder + [tag];
        tagGroups := tagGroups[tag := [e]];
      } else {
        tagGroups := tagGroups[tag := tagGroups[tag] + [e]];
      }
    }
    assert eligible[..|eligible|] == eligible;
  }

  method AppendTags(start: Plan, eligible: seq<Request>, tagGroups: map<string, seq<Request>>,
                    tagOrder: seq<string>, cfg: Config) returns (plan: Plan)
    requires cfg.maxCalls >= 1
    requires forall t :: t in tagOrder ==> t in tagGroups && tagGroups[t] == WithTag(eligible, t)
    ensures plan == AddTags(cfg, start, eligible, tagOrder, |tagOrder|)
  {
    hide WithTag, AddChunk;
    plan := start;
    for k := 0 to |tagOrder|
      invariant plan == AddTags(cfg, start, eligible, tagOrder, k)
    {
      var tag := tagOrder[k];
      var calls := tagGroups[tag];
      ghost var before := plan;
      var chunkStart := 0;
      while chunkStart < |calls|
        invariant AddChunks(cfg, plan, calls, tag, chunkStart) == AddChunks(cfg, before, calls, tag, 0)
      {
        var chunkEnd := chunkStart + cfg.maxCalls;
        if chunkEnd > |calls| {
          chunkEnd := |calls|;
        }
        plan := AppendChunk(plan, calls[chunkStart..chunkEnd], tag, cfg);
        chunkStart := chunkStart + cfg.maxCalls;
      }
    }
  }

  /** The body of the chunk loop: draw an id, collect the calls and their
      entries, encode them, and record the group. */
  method AppendChunk(plan: Plan, chunk: seq<Request>, tag: string, cfg: Config) returns (next: Plan)
    ensures next == AddChunk(cfg, plan, chunk, tag)
  {
    if |chunk| == 1 {
      var passthrough := plan.mapping.passthrough + [chunk[0]];
      return Plan(plan.out + [chunk[0]], plan.mapping.(passthrough := passthrough), plan.drawn);
    }
    var syntheticId := Synthetic(cfg.tickets(plan.drawn));
    var entries: seq<Entry>, call3s: seq<Call3> := [], [];
    for j := 0 to |chunk|
      invariant entries == EntriesOf(chunk)[..j]
      invariant call3s == CallsOf(EntriesOf(chunk))[..j]
    {
      call3s := call3s + [CallOf(chunk[j].params)];
      entries := entries + [Entry(chunk[j].id, chunk[j].params, j)];
    }
    assert entries == EntriesOf(chunk) && call3s == CallsOf(entries);
    var group := Group(syntheticId, tag, entries);
    var request := Request(syntheticId, "eth_call",
                           CallParams(HexBytes(cfg.address), HexBytes(CallsBytes(call3s)), "", "", "", "", "",
                                      BlockText(tag), false));
    return Plan(plan.out + [request], plan.mapping.(groups := plan.mapping.groups + [group]), plan.drawn + 1);
  }

  /* ---------- Expansion ---------- */

  /** The payload of the last reply that carries the id. */
  function Lookup(replies: seq<Reply>, id: Id): Option<Payload> {
    if replies == [] then None
    else
      var last := replies[|replies| - 1];
      if last.id == id then Some(last.payload) else Lookup(replies[..|replies| - 1], id)
  }

  function Found(replies: seq<Reply>, id: Id): seq<Reply> {
    match Lookup(replies, id)
    case Some(p) => [Reply(id, p)]
    case None => []
  }

  function ExpandPassthrough(replies: seq<Reply>, pass: seq<Request>): seq<Reply> {
    if pass == [] then []
    else ExpandPassthrough(replies, pass[..|pass| - 1]) + Found(replies, pass[|pass| - 1].id)
  }

  /** decodeAggregate3Result slices out of bounds on the group's reply. */
  predicate Faults(p: Option<Payload>) {
    p.Some? && p.value.HexResult? && DecodeResults(p.value.bytes).Fault?
  }

  /** What entry e of a group receives when the group's reply is p. */
  function EntryPayload(p: Option<Payload>, size: nat, e: Entry): Payload
    requires !Faults(p)
  {
    match p
    case None => FusionError(ResponseMissing)
    case Some(payload) =>
      if HasError(payload) then payload
      else if payload.OtherResult? && payload.json != "null" then FusionError(NotAHexString)
      else if !payload.HexResult? then FusionError(DecodeError)
      else
        match DecodeResults(payload.bytes)
        case Decoded(results) =>
          if |results| != size then FusionError(CountMismatch)
          else if e.index < |results| then AnswerOf(results[e.index])
          else FusionError(DecodeError)
        case Rejected => FusionError(DecodeError)
  }

  function ExpandEntries(p: Option<Payload>, size: nat, es: seq<Entry>): (rs: seq<Reply>)
    requires !Faults(p)
    ensures |rs| == |es|
    ensures forall j :: 0 <= j < |es| ==> rs[j] == Reply(es[j].originalId, EntryPayload(p, size, es[j]))
  {
    seq(|es|, j requires 0 <= j < |es| => Reply(es[j].originalId, EntryPayload(p, size, es[j])))
  }

  /** The replies to a group's entries; Fault when the decoder panics. */
  function ExpandGroup(replies: seq<Reply>, g: Group): Outcome<seq<Reply>> {
    var p := Lookup(replies, g.id);
    if Faults(p) then Fault else Decoded(ExpandEntries(p, |g.entries|, g.entries))
  }

  /** One after the other, up to the first that panics. */
  function ExpandGroups(replies: seq<Reply>, gs: seq<Group>): Outcome<seq<Reply>> {
    if gs == [] then Decoded([])
    else
      match ExpandGroups(replies, gs[..|gs| - 1])
      case Decoded(rs) =>
        (match ExpandGroup(replies, gs[|gs| - 1])
         case Decoded(more) => Decoded(rs + more)
         case other => other)
      case other => other
  }

  function Expanded(replies: seq<Reply>, m: Mapping): Outcome<seq<Reply>> {
    match ExpandGroups(replies, m.groups)
    case Decoded(rs) => Decoded(ExpandPassthrough(replies, m.passthrough) + rs)
    case other => other
  }

  /** Entries name slots of their own group, as AppendChunk makes them. */
  predicate Indexed(g: Group) {
    forall j :: 0 <= j < |g.entries| ==> g.entries[j].index == j
  }

  /** The replies by id; of several with one id the last counts. */
  method IndexReplies(responses: seq<Reply>) returns (respByID: map<Id, Reply>)
    ensures forall id :: id in respByID <==> Lookup(responses, id).Some?
    ensures forall id :: id in respByID ==> respByID[id] == Reply(id, Lookup(responses, id).value)
  {
    respByID := map[];
    for i := 0 to |responses|
      invariant forall id :: id in respByID <==> Lookup(responses[..i], id).Some?
      invariant forall id :: id in respByID ==> respByID[id] == Reply(id, Lookup(responses[..i], id).value)
    {
      assert responses[..i + 1][..i] == responses[..i];
      respByID := respByID[responses[i].id := responses[i]];
    }
    assert responses[..|responses|] == responses;
  }

  lemma {:induction false} GroupsFault(replies: seq<Reply>, gs: seq<Group>, k: nat)
    requires k <= |gs| && !ExpandGroups(replies, gs[..k]).Decoded?
    ensures ExpandGroups(replies, gs) == ExpandGroups(replies, gs[..k])
  {
    hide ExpandGroup;
    if k < |gs| {
      var init := gs[..|gs| - 1];
      assert init[..k] == gs[..k];
      GroupsFault(replies, init, k);
    } else {
      assert gs[..k] == gs;
    }
  }

  /** expandMulticallResponses; a panic of the decoder is the outcome Fault. */
  method ExpandMulticallResponses(responses: seq<Reply>, mapping: Mapping) returns (o: Outcome<seq<Reply>>)
    requires forall g :: g in mapping.groups ==> Indexed(g)
    ensures o == Expanded(responses, mapping)
  {
    var respByID := IndexReplies(responses);
    hide Lookup, ExpandEntries;
    var expanded: seq<Reply> := [];
    for i := 0 to |mapping.passthrough|
      invariant expanded == ExpandPassthrough(responses, mapping.passthrough[..i])
    {
      var pt := mapping.passthrough[i];
      assert mapping.passthrough[..i + 1][..i] == mapping.passthrough[..i];
      if pt.id in respByID {
        expanded := expanded + [respByID[pt.id]];
      }
    }
    assert mapping.passthrough[..|mapping.passthrough|] == mapping.passthrough;
    o := ExpandAll(responses, respByID, mapping.groups);
    if o.Decoded? {
      o := Decoded(expanded + o.value);
    }
  }

  /** The loop over the groups. */
  method ExpandAll(ghost responses: seq<Reply>, respByID: map<Id, Reply>, groups: seq<Group>)
    returns (o: Outcome<seq<Reply>>)
    requires forall g :: g in groups ==> Indexed(g)
    requires forall id :: id in respByID <==> Lookup(responses, id).Some?
    requires forall id :: id in respByID ==> respByID[id] == Reply(id, Lookup(responses, id).value)
    ensures o == ExpandGroups(responses, groups)
  {
    hide Lookup, ExpandEntries, Faults;
    var expanded: seq<Reply> := [];
    for i := 0 to |groups|
      invariant ExpandGroups(responses, groups[..i]) == Decoded(expanded)
    {
      var group := groups[i];
      assert groups[..i + 1][..i] == groups[..i];
      var payload := if group.id in respByID then Some(respByID[group.id].payload) else None;
      var fanned := FanOut(payload, group);
      if !fanned.Decoded? {
        GroupsFault(responses, groups, i + 1);
        return fanned;
      }
      expanded := expanded + fanned.value;
    }
    assert groups[..|groups|] == groups;
    return Decoded(expanded);
  }

  /** The body of the group loop: one branch per way a fused reply can fail. */
  method FanOut(payload: Option<Payload>, group: Group) returns (o: Outcome<seq<Reply>>)
    requires Indexed(group)
    ensures o == if Faults(payload) then Fault else Decoded(ExpandEntries(payload, |group.entries|, group.entries))
  {
    var fanned: seq<Reply>;
    if payload.None? {
      fanned := SameForAll(FusionError(ResponseMissing), group.entries);
    } else if HasError(payload.value) {
      fanned := SameForAll(payload.value, group.entries);
    } else if payload.value.OtherResult? && payload.value.json != "null" {
      fanned := SameForAll(FusionError(NotAHexString), group.entries);
    } else if !payload.value.HexResult? {
      fanned := SameForAll(FusionError(DecodeError), group.entries);
    } else {
      var results := DecodeAggregate3Result(payload.value.bytes);
      if results.Fault? {
        return Fault;
      }
      if results.Rejected? {
        fanned := SameForAll(FusionError(DecodeError), group.entries);
      } else if |results.value| != |group.entries| {
        fanned := SameForAll(FusionError(CountMismatch), group.entries);
      } else {
        fanned := [];
        for j := 0 to |group.entries|
          invariant fanned == ExpandEntries(payload, |group.entries|, group.entries)[..j]
        {
          var entry := group.entries[j];
          var r := results.value[entry.index];
          var payload := if r.success then HexResult(r.returnData) else Revert(r.returnData);
          fanned := fanned + [Reply(entry.originalId, payload)];
        }
      }
    }
    assert fanned == ExpandEntries(payload, |group.entries|, group.entries);
    return Decoded(fanned);
  }

  method SameForAll(payload: Payload, entries: seq<Entry>) returns (fanned: seq<Reply>)
    ensures |fanned| == |entries|
    ensures forall j :: 0 <= j < |entries| ==> fanned[j] == Reply(entries[j].originalId, payload)
  {
    fanned := [];
    for j := 0 to |entries|
      invariant |fanned| == j
      invariant forall k :: 0 <= k < j ==> fanned[k] == Reply(entries[k].originalId, payload)
    {
      fanned := fanned + [Reply(entries[j].originalId, payload)];
    }
  }
}
