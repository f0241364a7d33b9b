/** One exchange of a batch, request by request: each wire request may be answered
    by a node of its own, and what one client sends does not touch what another gets. */
module Exchanges {
  import opened Words
  import opened Codec
  import opened Rpc
  import opened Options
  import opened Decoder
  import opened Fusion
  import opened Meaning
  import opened Delivery

  /** The node that answers each wire request, by the request's id: one node at
      different heads, or several. */
  type Nodes = Id -> Upstream

  function RepliesBy(nodes: Nodes, sent: seq<Request>): (ps: seq<Reply>)
    ensures |ps| == |sent| && forall i :: 0 <= i < |sent| ==> ps[i] == DirectReply(nodes(sent[i].id), sent[i])
  {
    seq(|sent|, i requires 0 <= i < |sent| => DirectReply(nodes(sent[i].id), sent[i]))
  }

  /** Every wire request is answered, in any order. */
  ghost predicate AnsweredBy(nodes: Nodes, sent: seq<Request>, replies: seq<Reply>) {
    multiset(replies) == multiset(RepliesBy(nodes, sent))
  }

  /** Multicall3 is at the configured address at every node, and the bytes of the batch
      fit Go's address space. Nothing is asked of the calls themselves. */
  ghost predicate Carriable(nodes: Nodes, multicall: Option<Config>, entries: seq<Request>) {
    multicall.Some? ==>
      && ValidConfig(multicall.value)
      && forall id :: && Aggregates(nodes(id), multicall.value.address)
                      && Load(nodes(id), Eligibles(WireRequests(entries))) + 100 < TWO_63
  }

  /** The read a fusable call's target and data name, at the tag its block parameter
      is taken for. */
  function ReadOf(u: Upstream, r: Request): Payload {
    var c := CallOf(r.params);
    AnswerOf(u.read(c.target, c.callData, TagOf(r)))
  }

  /** Request i goes out as it came. */
  ghost predicate Alone(rs: seq<Request>, mapping: Option<Mapping>, i: nat)
    requires i < |rs|
  {
    mapping.Some? ==> rs[i] in mapping.value.passthrough
  }

  /** It goes out in the fused request with this id. */
  ghost predicate InGroup(rs: seq<Request>, mapping: Option<Mapping>, i: nat, id: Id)
    requires i < |rs|
  {
    Eligible(rs[i]) && mapping.Some? && exists g, j ::
      g in mapping.value.groups && 0 <= j < |g.entries| && Member(g.entries[j]) == rs[i] && g.id == id
  }

  /** p is what the node that got the wire request with this id makes of request i: its
      answer to the request when that went out as it came, and the read it is taken for
      when it went out in a fused one. */
  ghost predicate AnsweredVia(nodes: Nodes, rs: seq<Request>, mapping: Option<Mapping>, i: nat, id: Id, p: Payload)
    requires i < |rs|
  {
    || (id == rs[i].id && Alone(rs, mapping, i) && p == Direct(nodes(id), rs[i]))
    || (InGroup(rs, mapping, i, id) && p == ReadOf(nodes(id), rs[i]))
  }

  /** For every request that is not fused although it is not plain, this is the node's
      own answer. */
  lemma ViaIsDirect(nodes: Nodes, rs: seq<Request>, mapping: Option<Mapping>, i: nat, id: Id, p: Payload, r: Request)
    requires i < |rs| && rs[i] == r.(id := rs[i].id) && AnsweredVia(nodes, rs, mapping, i, id, p)
    requires mapping.None? || !AsksRead(r) || Plain(r.params)
    ensures p == Direct(nodes(id), r)
  {
    if InGroup(rs, mapping, i, id) {
      FusableAsksRead(rs[i]);
      PlainFields(rs[i]);
    }
  }

  lemma TagIsNamed(r: Request)
    requires Eligible(r)
    ensures TagOf(r) != ""
  {
  }

  /* ---------- Looking replies up ---------- */

  lemma {:induction false} LookupSettled(replies: seq<Reply>, id: Id, p: Payload)
    requires forall r :: r in replies && r.id == id ==> r.payload == p
    requires exists r :: r in replies && r.id == id
    ensures Lookup(replies, id) == Some(p)
  {
    var n := |replies| - 1;
    assert replies == replies[..n] + [replies[n]];
    if replies[n].id != id {
      LookupSettled(replies[..n], id, p);
    }
  }

  lemma LookupBy(nodes: Nodes, sent: seq<Request>, replies: seq<Reply>, r: Request)
    requires IdsIdentify(sent) && r in sent && AnsweredBy(nodes, sent, replies)
    ensures Lookup(replies, r.id) == Some(Direct(nodes(r.id), r))
  {
    hide Direct;
    var honest := RepliesBy(nodes, sent);
    forall p | p in replies && p.id == r.id
      ensures p.payload == Direct(nodes(r.id), r)
    {
      assert p in multiset(honest);
      var i :| 0 <= i < |honest| && honest[i] == p;
      assert sent[i] in sent && r in sent && sent[i].id == r.id;
    }
    var i :| 0 <= i < |sent| && sent[i] == r;
    assert honest[i] in multiset(replies);
    LookupSettled(replies, r.id, Direct(nodes(r.id), r));
  }

  /** A fused reply gives each of its slots the read its call is taken for. */
  lemma SlotRead(nodes: Nodes, cfg: Config, rs: seq<Request>, sent: seq<Request>, replies: seq<Reply>, g: Group,
                 j: nat)
    requires ValidConfig(cfg) && Aggregates(nodes(g.id), cfg.address)
    requires Load(nodes(g.id), Eligibles(rs)) + 100 < TWO_63
    requires IdsIdentify(sent) && AnsweredBy(nodes, sent, replies)
    requires Made(cfg, rs, g) && Fused(cfg, g) in sent && j < |g.entries|
    ensures !Faults(Lookup(replies, g.id)) && Eligible(Member(g.entries[j]))
    ensures EntryPayload(Lookup(replies, g.id), |g.entries|, g.entries[j])
         == ReadOf(nodes(g.id), Member(g.entries[j]))
  {
    hide CallsBytes, ResultsBytes, DecodeResults, Load, Direct, Fused, Aggregates, TagOf, Eligible, AnsweredBy, Lookup;
    var chunk, u := Members(g.entries), nodes(g.id);
    var results := Reads(u, CallsOf(g.entries), g.tag);
    ChunkFits(u, chunk, g.tag);
    assert chunk[j] in chunk;
    TagIsNamed(chunk[j]);
    FusedMeaning(u, cfg, g);
    DecodeResultsInvertsEncode(results);
    FusedId(cfg, g);
    LookupBy(nodes, sent, replies, Fused(cfg, g));
    assert g.entries[j] == EntryOf(chunk[j], j);
    assert CallsOf(g.entries)[j] == CallOf(chunk[j].params);
  }

  /* ---------- Everything expanded ---------- */

  lemma {:induction false} GroupsDecode(replies: seq<Reply>, gs: seq<Group>)
    requires forall g :: g in gs ==> !Faults(Lookup(replies, g.id))
    ensures ExpandGroups(replies, gs).Decoded?
    ensures forall g, j :: g in gs && 0 <= j < |g.entries| ==>
              Reply(g.entries[j].originalId, EntryPayload(Lookup(replies, g.id), |g.entries|, g.entries[j]))
              in ExpandGroups(replies, gs).value
  {
    hide Lookup, EntryPayload, Faults;
    if gs != [] {
      var n := |gs| - 1;
      assert gs == gs[..n] + [gs[n]];
      GroupsDecode(replies, gs[..n]);
      GroupSize(replies, gs[n]);
      var more := ExpandGroup(replies, gs[n]).value;
      forall j | 0 <= j < |gs[n].entries|
        ensures FannedTo(replies, gs[n], j, more[j]) && more[j] in more
      {
      }
    }
  }

  lemma {:induction false} PassedOn(replies: seq<Reply>, pass: seq<Request>, q: Request)
    requires q in pass && Lookup(replies, q.id).Some?
    ensures Reply(q.id, Lookup(replies, q.id).value) in ExpandPassthrough(replies, pass)
  {
    hide Lookup;
    var n := |pass| - 1;
    assert pass == pass[..n] + [pass[n]];
    if q in pass[..n] {
      PassedOn(replies, pass[..n], q);
    }
  }

  lemma {:induction false} FirstForSome(replies: seq<Reply>, i: nat)
    requires exists r :: r in replies && ParseWireId(r.id) == Some(i)
    ensures FirstFor(replies, i).Some?
  {
    hide ParseWireId;
    var n := |replies| - 1;
    assert replies == replies[..n] + [replies[n]];
    if ParseWireId(replies[n].id) != Some(i) {
      FirstForSome(replies[..n], i);
    }
  }

  lemma {:induction false} MemberOf(gs: seq<Group>, r: Request)
    requires r in AllMembers(gs)
    ensures exists g, j :: g in gs && 0 <= j < |g.entries| && Member(g.entries[j]) == r
  {
    hide Member;
    var n := |gs| - 1;
    assert gs == gs[..n] + [gs[n]];
    if r in AllMembers(gs[..n]) {
      MemberOf(gs[..n], r);
    } else {
      var ms := Members(gs[n].entries);
      var j :| 0 <= j < |ms| && ms[j] == r;
      assert gs[n] in gs && Member(gs[n].entries[j]) == r;
    }
  }

  ghost predicate Numbered(rs: seq<Request>) {
    forall k :: 0 <= k < |rs| ==> rs[k].id == Wire(k)
  }

  /** A batch that was fused, the plan that fused it, and the replies to what it sent. */
  ghost predicate Replied(nodes: Nodes, cfg: Config, rs: seq<Request>, p: Plan, replies: seq<Reply>) {
    && ValidConfig(cfg) && Numbered(rs) && Complete(cfg, rs, p)
    && (forall id :: Aggregates(nodes(id), cfg.address) && Load(nodes(id), Eligibles(rs)) + 100 < TWO_63)
    && AnsweredBy(nodes, p.out, replies)
  }

  lemma SlotAnswer(nodes: Nodes, cfg: Config, rs: seq<Request>, p: Plan, replies: seq<Reply>, g: Group, j: nat)
    requires Replied(nodes, cfg, rs, p, replies) && g in p.mapping.groups && j < |g.entries|
    ensures !Faults(Lookup(replies, g.id)) && Member(g.entries[j]) in rs
    ensures EntryPayload(Lookup(replies, g.id), |g.entries|, g.entries[j])
         == ReadOf(nodes(g.id), Member(g.entries[j]))
    ensures Eligible(Member(g.entries[j]))
  {
    hide Faults, EntryPayload, Lookup, Eligible, Load, Aggregates, AnsweredBy, Eligibles, TagOf, ReadOf;
    SlotRead(nodes, cfg, rs, p.out, replies, g, j);
    assert Members(g.entries)[j] in Members(g.entries);
  }

  lemma NoFaults(nodes: Nodes, cfg: Config, rs: seq<Request>, p: Plan, replies: seq<Reply>)
    requires Replied(nodes, cfg, rs, p, replies)
    ensures forall g :: g in p.mapping.groups ==> !Faults(Lookup(replies, g.id))
    ensures Expanded(replies, p.mapping).Decoded?
  {
    hide Faults, Lookup, EntryPayload, Load, Aggregates, AnsweredBy, Eligible, TagOf, Eligibles;
    forall g | g in p.mapping.groups
      ensures !Faults(Lookup(replies, g.id))
    {
      assert Made(cfg, rs, g);
      SlotAnswer(nodes, cfg, rs, p, replies, g, 0);
    }
    GroupsDecode(replies, p.mapping.groups);
  }

  /** Some reply is there for every request. */
  lemma SomethingFor(nodes: Nodes, cfg: Config, rs: seq<Request>, p: Plan, replies: seq<Reply>, i: nat)
    requires Replied(nodes, cfg, rs, p, replies) && i < |rs|
    ensures Expanded(replies, p.mapping).Decoded?
    ensures FirstFor(Expanded(replies, p.mapping).value, i).Some?
  {
    hide Faults, Lookup, EntryPayload, Load, Aggregates, AnsweredBy, Made, ExpandGroups, ExpandPassthrough, FirstFor,
         Direct, AllMembers;
    NoFaults(nodes, cfg, rs, p, replies);
    var m, all := p.mapping, Expanded(replies, p.mapping).value;
    assert rs[i] in multiset(m.passthrough + AllMembers(m.groups));
    if rs[i] in m.passthrough {
      LookupBy(nodes, p.out, replies, rs[i]);
      PassedOn(replies, m.passthrough, rs[i]);
      assert Reply(rs[i].id, Lookup(replies, rs[i].id).value) in all;
    } else {
      MemberOf(m.groups, rs[i]);
      var g, j :| g in m.groups && 0 <= j < |g.entries| && Member(g.entries[j]) == rs[i];
      GroupsDecode(replies, m.groups);
      assert Reply(g.entries[j].originalId, EntryPayload(Lookup(replies, g.id), |g.entries|, g.entries[j])) in all;
    }
    FirstForSome(all, i);
  }

  /** And whatever is there for a request is an answer to it, from the node that got
      the wire request which carried it. */
  lemma OnlyOwnFor(nodes: Nodes, cfg: Config, rs: seq<Request>, p: Plan, replies: seq<Reply>, i: nat, r: Reply)
    requires Replied(nodes, cfg, rs, p, replies) && i < |rs| && Expanded(replies, p.mapping).Decoded?
    requires r in Expanded(replies, p.mapping).value && ParseWireId(r.id) == Some(i)
    ensures exists id :: AnsweredVia(nodes, rs, Some(p.mapping), i, id, r.payload)
  {
    hide Faults, Lookup, EntryPayload, Load, Aggregates, Made, ExpandGroups, ExpandPassthrough, Direct, ReadOf, Plain,
         Eligible, AllMembers;
    var m := p.mapping;
    if r in ExpandPassthrough(replies, m.passthrough) {
      PassedReply(replies, m.passthrough, r);
      var q :| q in m.passthrough && q.id == r.id;
      var k :| 0 <= k < |rs| && rs[k] == q;
      assert k == i;
      assert r in multiset(RepliesBy(nodes, p.out));
      var n :| 0 <= n < |p.out| && r == DirectReply(nodes(p.out[n].id), p.out[n]);
      assert p.out[n] in p.out && q in p.out;
      assert AnsweredVia(nodes, rs, Some(m), i, q.id, r.payload);
    } else {
      FannedReply(replies, m.groups, r);
      var g, j :| g in m.groups && FannedTo(replies, g, j, r);
      SlotAnswer(nodes, cfg, rs, p, replies, g, j);
      var k :| 0 <= k < |rs| && rs[k] == Member(g.entries[j]);
      assert k == i;
      assert InGroup(rs, Some(m), i, g.id);
      assert AnsweredVia(nodes, rs, Some(m), i, g.id, r.payload);
    }
  }

  /** A batch that goes out as it is. */
  lemma UnfusedAnswer(nodes: Nodes, rs: seq<Request>, replies: seq<Reply>, i: nat)
    requires Numbered(rs) && i < |rs| && AnsweredBy(nodes, rs, replies)
    ensures FirstFor(replies, i) == Some(Direct(nodes(Wire(i)), rs[i]))
  {
    hide Direct;
    var honest := RepliesBy(nodes, rs);
    assert honest[i] in multiset(replies);
    FirstForSome(replies, i);
    FirstForFound(replies, i);
    var r :| r in replies && ParseWireId(r.id) == Some(i) && r.payload == FirstFor(replies, i).value;
    assert r in multiset(honest);
    var k :| 0 <= k < |honest| && honest[k] == r;
  }

  lemma WireNumbered(entries: seq<Request>)
    ensures var rs := WireRequests(entries); Numbered(rs) && IdsIdentify(rs) && forall r :: r in rs ==> !r.id.Synthetic?
  {
  }

  lemma FusedExchange(nodes: Nodes, cfg: Config, entries: seq<Request>, replies: seq<Reply>)
    requires Carriable(nodes, Some(cfg), entries) && |Eligibles(WireRequests(entries))| >= 2
    requires AnsweredBy(nodes, OnTheWire(Some(cfg), entries).0, replies)
    ensures var rs := WireRequests(entries);
            && Replied(nodes, cfg, rs, FullPlan(cfg, rs), replies)
            && OnTheWire(Some(cfg), entries).1 == Some(FullPlan(cfg, rs).mapping)
  {
    hide FullPlan, Complete, Load, Aggregates, AnsweredBy, Eligibles;
    WireNumbered(entries);
    FullIsComplete(cfg, WireRequests(entries));
  }

  /** Replies of nodes that answer what they are sent never make the expansion panic. */
  lemma CarriedDecodes(nodes: Nodes, multicall: Option<Config>, entries: seq<Request>, replies: seq<Reply>)
    requires multicall.Some? ==> multicall.value.maxCalls >= 1
    requires Carriable(nodes, multicall, entries)
    requires AnsweredBy(nodes, OnTheWire(multicall, entries).0, replies)
    ensures Messages(multicall, entries, Some(replies)).Decoded?
  {
    hide FullPlan, Complete, Load, Aggregates, AnsweredBy, Eligibles, Expanded;
    if multicall.Some? && |Eligibles(WireRequests(entries))| >= 2 {
      FusedExchange(nodes, multicall.value, entries, replies);
      var rs := WireRequests(entries);
      NoFaults(nodes, multicall.value, rs, FullPlan(multicall.value, rs), replies);
    }
  }

  /** When every wire request is answered by some node, in any order, each caller gets
      what the node that got the wire request which carried its call makes of it, under
      its own id, whatever else is in the batch. */
  lemma CarriedAnswer(nodes: Nodes, multicall: Option<Config>, entries: seq<Request>, replies: seq<Reply>, i: nat)
    requires multicall.Some? ==> multicall.value.maxCalls >= 1
    requires Carriable(nodes, multicall, entries) && i < |entries|
    requires AnsweredBy(nodes, OnTheWire(multicall, entries).0, replies)
    ensures var o := Messages(multicall, entries, Some(replies));
            && o.Decoded? && o.value[i].id == entries[i].id && o.value[i].body.Answer?
            && exists id ::
                 AnsweredVia(nodes, WireRequests(entries), OnTheWire(multicall, entries).1, i, id,
                             o.value[i].body.payload)
  {
    hide FullPlan, Complete, Load, Aggregates, AnsweredBy, Eligibles, Expanded, AnsweredVia;
    var rs := WireRequests(entries);
    if multicall.Some? && |Eligibles(rs)| >= 2 {
      var cfg := multicall.value;
      var p := FullPlan(cfg, rs);
      FusedExchange(nodes, cfg, entries, replies);
      SomethingFor(nodes, cfg, rs, p, replies, i);
      var all := Expanded(replies, p.mapping).value;
      FirstForFound(all, i);
      var r :| r in all && ParseWireId(r.id) == Some(i) && r.payload == FirstFor(all, i).value;
      OnlyOwnFor(nodes, cfg, rs, p, replies, i, r);
    } else {
      assert OnTheWire(multicall, entries) == (rs, None);
      UnfusedAnswer(nodes, rs, replies, i);
      AloneVia(nodes, rs, i);
    }
  }

  lemma AloneVia(nodes: Nodes, rs: seq<Request>, i: nat)
    requires i < |rs|
    ensures AnsweredVia(nodes, rs, None, i, rs[i].id, Direct(nodes(rs[i].id), rs[i]))
  {
  }

  /* ---------- Replies to fused requests, whatever they are ---------- */

  /** Which of several replies with one id counts: the last. */
  lemma {:induction false} LookupIsLast(replies: seq<Reply>, id: Id, p: Payload)
    ensures Lookup(replies, id) == Some(p) <==>
            exists k :: 0 <= k < |replies| && replies[k] == Reply(id, p) && forall l :: k < l < |replies| ==>
              replies[l].id != id
    ensures Lookup(replies, id).None? <==> forall k :: 0 <= k < |replies| ==> replies[k].id != id
  {
    if replies != [] {
      var n := |replies| - 1;
      LookupIsLast(replies[..n], id, p);
      if replies[n].id == id {
        assert replies[n] == Reply(id, replies[n].payload);
      } else if Lookup(replies[..n], id) == Some(p) {
        var k :| 0 <= k < n && replies[..n][k] == Reply(id, p) && forall l :: k < l < n ==> replies[..n][l].id != id;
        assert replies[k] == Reply(id, p);
      }
    }
  }

  /** Which of several replies that name a position counts: the first. A reply names it
      by its number, in any spelling. */
  lemma {:induction false} FirstForIsFirst(replies: seq<Reply>, i: nat, p: Payload)
    ensures FirstFor(replies, i) == Some(p) <==>
            exists k :: && 0 <= k < |replies| && replies[k].payload == p && NamesPosition(replies[k].id, i)
                        && forall l :: 0 <= l < k ==> !NamesPosition(replies[l].id, i)
    ensures FirstFor(replies, i).None? <==> forall k :: 0 <= k < |replies| ==> !NamesPosition(replies[k].id, i)
  {
    hide NamesPosition;
    if replies != [] {
      var n := |replies| - 1;
      FirstForIsFirst(replies[..n], i, p);
      NamedPosition(replies[n].id, i);
    }
  }

  /** An id that strconv.Atoi reads as i. */
  predicate NamesPosition(id: Id, i: nat) {
    id == Wire(i) || (id.Spelled? && id.number == i)
  }

  lemma NamedPosition(id: Id, i: nat)
    ensures ParseWireId(id) == Some(i) <==> NamesPosition(id, i)
  {
  }

  /** What the caller in slot j of a fused call of this size is told, by the reply that
      counts for it: that there is none, the upstream's own error, that the result is
      no hex string, does not decode, or has another number of results, and otherwise
      result j. */
  ghost predicate ToldBy(reply: Option<Payload>, size: nat, j: nat, told: Payload) {
    match reply
    case None => told == FusionError(ResponseMissing)
    case Some(UpstreamError(_)) => Some(told) == reply
    case Some(Revert(_)) => Some(told) == reply
    case Some(FusionError(_)) => Some(told) == reply
    case Some(OtherResult(json)) => told == FusionError(if json == "null" then DecodeError else NotAHexString)
    case Some(TextResult(_)) => told == FusionError(DecodeError)
    case Some(HexResult(bytes)) =>
      match DecodeResults(bytes)
      case Decoded(results) =>
        if |results| != size then told == FusionError(CountMismatch)
        else j < size && told == if results[j].success then HexResult(results[j].returnData)
                                 else Revert(results[j].returnData)
      case Rejected => told == FusionError(DecodeError)
      case Fault => false
  }

  lemma EntryIsTold(p: Option<Payload>, g: Group, j: nat)
    requires !Faults(p) && Indexed(g) && j < |g.entries|
    ensures ToldBy(p, |g.entries|, j, EntryPayload(p, |g.entries|, g.entries[j]))
  {
    hide DecodeResults;
  }

  lemma {:induction false} DecodedHasNoFaults(replies: seq<Reply>, gs: seq<Group>)
    requires ExpandGroups(replies, gs).Decoded?
    ensures forall g :: g in gs ==> !Faults(Lookup(replies, g.id))
  {
    hide Lookup, EntryPayload, Faults;
    if gs != [] {
      var n := |gs| - 1;
      assert gs == gs[..n] + [gs[n]];
      DecodedHasNoFaults(replies, gs[..n]);
      GroupSize(replies, gs[n]);
    }
  }

  /* Each request has one place in the plan. */

  lemma CountedTwice<T>(s: seq<T>, i: nat, j: nat)
    requires i < j < |s| && s[i] == s[j]
    ensures multiset(s)[s[i]] >= 2
  {
    assert s == s[..j] + s[j..];
    assert s[..j][i] == s[i] && s[j..][0] == s[j];
    assert multiset(s) == multiset(s[..j]) + multiset(s[j..]);
    assert s[i] in multiset(s[..j]) && s[j] in multiset(s[j..]);
  }

  lemma {:induction false} CountedOnce(rs: seq<Request>, i: nat)
    requires Numbered(rs) && i < |rs|
    ensures multiset(rs)[rs[i]] == 1
  {
    var rest := rs[..i] + rs[i + 1..];
    assert rs == rs[..i] + ([rs[i]] + rs[i + 1..]);
    assert multiset(rs) == multiset(rest) + multiset{rs[i]};
    forall r | r in rest
      ensures r != rs[i]
    {
      var k :| 0 <= k < |rest| && rest[k] == r;
      assert r == if k < i then rs[k] else rs[k + 1];
    }
    assert rs[i] !in multiset(rest);
  }

  lemma {:induction false} OnlySlot(gs: seq<Group>, a: nat, j: nat, b: nat, k: nat)
    requires a < |gs| && b < |gs| && j < |gs[a].entries| && k < |gs[b].entries|
    requires Member(gs[a].entries[j]) == Member(gs[b].entries[k])
    requires multiset(AllMembers(gs))[Member(gs[a].entries[j])] <= 1
    ensures a == b && j == k
  {
    hide Member, Members, AllMembers;
    var n := |gs| - 1;
    LastGroup(gs, Member(gs[a].entries[j]));
    if a < n && b < n {
      OnlySlot(gs[..n], a, j, b, k);
    } else if a < n {
      NotInBoth(gs, a, j, k);
    } else if b < n {
      NotInBoth(gs, b, k, j);
    } else {
      OnlyEntry(gs[n].entries, j, k);
    }
  }

  lemma LastGroup(gs: seq<Group>, x: Request)
    requires gs != []
    ensures var n := |gs| - 1;
            multiset(AllMembers(gs))[x] == multiset(AllMembers(gs[..n]))[x] + multiset(Members(gs[n].entries))[x]
  {
    hide Members;
  }

  lemma OnlyEntry(es: seq<Entry>, j: nat, k: nat)
    requires j < |es| && k < |es| && Member(es[j]) == Member(es[k]) && multiset(Members(es))[Member(es[j])] <= 1
    ensures j == k
  {
    hide Member;
    if j < k {
      CountedTwice(Members(es), j, k);
    } else if k < j {
      CountedTwice(Members(es), k, j);
    }
  }

  lemma NotInBoth(gs: seq<Group>, a: nat, j: nat, k: nat)
    requires a < |gs| - 1 && j < |gs[a].entries| && k < |gs[|gs| - 1].entries|
    ensures Member(gs[a].entries[j]) == Member(gs[|gs| - 1].entries[k]) ==>
              multiset(AllMembers(gs))[Member(gs[a].entries[j])] >= 2
  {
    hide Member, AllMembers;
    var n := |gs| - 1;
    LastGroup(gs, Member(gs[a].entries[j]));
    MemberIn(gs[..n], a, j);
    assert Members(gs[n].entries)[k] in Members(gs[n].entries);
  }

  lemma {:induction false} MemberIn(gs: seq<Group>, a: nat, j: nat)
    requires a < |gs| && j < |gs[a].entries|
    ensures Member(gs[a].entries[j]) in AllMembers(gs)
  {
    hide Member;
    var n := |gs| - 1;
    if a < n {
      MemberIn(gs[..n], a, j);
    } else {
      assert Members(gs[n].entries)[j] == Member(gs[a].entries[j]);
    }
  }

  /** The expansion names each fused request once, in its slot's name. */
  lemma FusedOnce(cfg: Config, rs: seq<Request>, p: Plan, replies: seq<Reply>, g: Group, j: nat, i: nat, r: Reply)
    requires Numbered(rs) && Complete(cfg, rs, p) && i < |rs|
    requires g in p.mapping.groups && j < |g.entries| && Member(g.entries[j]) == rs[i]
    requires Expanded(replies, p.mapping).Decoded?
    requires r in Expanded(replies, p.mapping).value && ParseWireId(r.id) == Some(i)
    ensures !Faults(Lookup(replies, g.id))
    ensures r.payload == EntryPayload(Lookup(replies, g.id), |g.entries|, g.entries[j])
  {
    hide Faults, Lookup, EntryPayload, Made, ExpandGroups, ExpandPassthrough, AllMembers, Fused;
    var m := p.mapping;
    DecodedHasNoFaults(replies, m.groups);
    var a :| 0 <= a < |m.groups| && m.groups[a] == g;
    InOnePlace(rs, p, a, j, i);
    PassedIsAlone(rs, p, replies, i, r);
    FannedReply(replies, m.groups, r);
    var h, k :| h in m.groups && FannedTo(replies, h, k, r);
    var b :| 0 <= b < |m.groups| && m.groups[b] == h;
    MadeMembers(cfg, rs, h, k);
    var n :| 0 <= n < |rs| && rs[n] == Member(h.entries[k]);
    assert n == i;
    OnlySlot(m.groups, a, j, b, k);
  }

  lemma PassedIsAlone(rs: seq<Request>, p: Plan, replies: seq<Reply>, i: nat, r: Reply)
    requires Numbered(rs) && i < |rs| && ParseWireId(r.id) == Some(i)
    requires forall q :: q in p.mapping.passthrough ==> q in rs
    ensures r in ExpandPassthrough(replies, p.mapping.passthrough) ==> rs[i] in p.mapping.passthrough
  {
    if r in ExpandPassthrough(replies, p.mapping.passthrough) {
      PassedReply(replies, p.mapping.passthrough, r);
    }
  }

  /** A fused request does not go out alone as well, nor in two slots. */
  lemma InOnePlace(rs: seq<Request>, p: Plan, a: nat, j: nat, i: nat)
    requires Numbered(rs) && i < |rs| && a < |p.mapping.groups| && j < |p.mapping.groups[a].entries|
    requires multiset(p.mapping.passthrough + AllMembers(p.mapping.groups)) == multiset(rs)
    requires Member(p.mapping.groups[a].entries[j]) == rs[i]
    ensures rs[i] !in p.mapping.passthrough && multiset(AllMembers(p.mapping.groups))[rs[i]] == 1
  {
    hide Member, AllMembers;
    CountedOnce(rs, i);
    MemberIn(p.mapping.groups, a, j);
    var pass, all := multiset(p.mapping.passthrough), multiset(AllMembers(p.mapping.groups));
    assert multiset(rs) == pass + all;
    assert rs[i] in all && forall q :: q in p.mapping.passthrough ==> q in pass;
  }

  lemma MadeMembers(cfg: Config, rs: seq<Request>, g: Group, j: nat)
    requires Made(cfg, rs, g) && j < |g.entries|
    ensures Member(g.entries[j]) in rs && Indexed(g)
  {
    hide Eligible, TagOf, Load;
    assert Members(g.entries)[j] in Members(g.entries);
  }

  /** Whatever the upstream replies, a caller whose call was fused is told exactly what
      the reply to the fused request says, under its own id: in each way the exchange
      can go wrong as in the one way it can go right. */
  lemma FusedCallersAreTold(cfg: Config, entries: seq<Request>, replies: seq<Reply>, g: Group, j: nat, i: nat)
    requires ValidConfig(cfg) && i < |entries|
    requires var mapping := OnTheWire(Some(cfg), entries).1;
             mapping.Some? && g in mapping.value.groups
    requires j < |g.entries| && Member(g.entries[j]) == WireRequests(entries)[i]
    requires Messages(Some(cfg), entries, Some(replies)).Decoded?
    ensures var m := Messages(Some(cfg), entries, Some(replies)).value[i];
            m.id == entries[i].id && m.body.Answer? && ToldBy(Lookup(replies, g.id), |g.entries|, j, m.body.payload)
  {
    hide Complete, FullPlan, Eligibles, EntryPayload, Lookup, Member, ToldBy, FirstFor;
    var rs := WireRequests(entries);
    var p := FullPlan(cfg, rs);
    WireNumbered(entries);
    FullIsComplete(cfg, rs);
    var all := Expanded(replies, p.mapping).value;
    FusedIsNamed(cfg, rs, p, replies, g, j, i);
    FirstForSome(all, i);
    FirstForFound(all, i);
    var r :| r in all && ParseWireId(r.id) == Some(i) && r.payload == FirstFor(all, i).value;
    FusedOnce(cfg, rs, p, replies, g, j, i, r);
    EntryIsTold(Lookup(replies, g.id), g, j);
  }

  lemma FusedIsNamed(cfg: Config, rs: seq<Request>, p: Plan, replies: seq<Reply>, g: Group, j: nat, i: nat)
    requires Numbered(rs) && Complete(cfg, rs, p) && i < |rs|
    requires g in p.mapping.groups && j < |g.entries| && Member(g.entries[j]) == rs[i]
    requires Expanded(replies, p.mapping).Decoded?
    ensures Indexed(g)
    ensures exists r :: r in Expanded(replies, p.mapping).value && ParseWireId(r.id) == Some(i)
  {
    hide Lookup, EntryPayload, Made, ExpandGroups, ExpandPassthrough, AllMembers, Fused;
    MadeMembers(cfg, rs, g, j);
    DecodedHasNoFaults(replies, p.mapping.groups);
    GroupsDecode(replies, p.mapping.groups);
    var r := Reply(g.entries[j].originalId, EntryPayload(Lookup(replies, g.id), |g.entries|, g.entries[j]));
    assert r in ExpandGroups(replies, p.mapping.groups).value;
    assert r.id == Wire(i);
  }
}
