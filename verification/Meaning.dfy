/** Fusing a batch and fanning the answers back out gives every caller the
    answer its own call would have had. */
module Meaning {
  import opened Words
  import opened Collections
  import opened Codec
  import opened Rpc
  import opened Options
  import opened Fusion
  import Abi
  import opened Decoder

  function Reads(u: Upstream, calls: seq<Call3>, tag: string): (rs: seq<CallResult>)
    ensures |rs| == |calls|
    ensures forall i :: 0 <= i < |calls| ==> rs[i] == u.read(calls[i].target, calls[i].callData, tag)
  {
    seq(|calls|, i requires 0 <= i < |calls| => u.read(calls[i].target, calls[i].callData, tag))
  }

  /** The Multicall3 contract at the configured address: aggregate3 over calls
      that may fail is the pointwise read of those calls at the same block. */
  ghost predicate Aggregates(u: Upstream, address: Address) {
    forall calls: seq<Call3>, tag: string ::
      && 1 <= |calls| <= 10000
      && (forall i :: 0 <= i < |calls| ==> calls[i].allowFailure)
      && |CallsBytes(calls)| < TWO_63
      && |ResultsBytes(Reads(u, calls, tag))| < TWO_63
      ==> u.read(address, CallsBytes(calls), tag) == CallResult(true, ResultsBytes(Reads(u, calls, tag)))
  }

  /** The bytes one call puts into a fused request and its answer, at most. */
  function CallLoad(u: Upstream, r: Request): nat {
    var c := CallOf(r.params);
    256 + |c.callData| + |u.read(c.target, c.callData, TagOf(r)).returnData|
  }

  function Load(u: Upstream, rs: seq<Request>): nat {
    if rs == [] then 0 else Load(u, rs[..|rs| - 1]) + CallLoad(u, rs[|rs| - 1])
  }

  /** A batch as processBatch hands it over: ids tell requests apart, none is
      one of the rewriter's own, the calls it may fuse are ones whose direct
      meaning is known, and their bytes fit Go's address space. */
  ghost predicate Wellformed(u: Upstream, rs: seq<Request>) {
    && IdsIdentify(rs)
    && (forall r :: r in rs ==> !r.id.Synthetic?)
    && (forall r :: r in rs && AsksRead(r) ==> Plain(r.params))
    && Load(u, Eligibles(rs)) + 100 < TWO_63
  }

  /* ---------- Sizes ---------- */

  lemma {:induction false} LoadSplit(u: Upstream, a: seq<Request>, b: seq<Request>)
    ensures Load(u, a + b) == Load(u, a) + Load(u, b)
  {
    hide CallLoad;
    if b == [] {
      assert a + b == a;
    } else {
      LoadSplit(u, a, b[..|b| - 1]);
      assert (a + b)[..|a + b| - 1] == a + b[..|b| - 1];
    }
  }

  lemma LoadSlice(u: Upstream, rs: seq<Request>, lo: nat, hi: nat)
    requires lo <= hi <= |rs|
    ensures Load(u, rs[lo..hi]) <= Load(u, rs)
  {
    assert rs == rs[..lo] + (rs[lo..hi] + rs[hi..]);
    LoadSplit(u, rs[..lo], rs[lo..hi] + rs[hi..]);
    LoadSplit(u, rs[lo..hi], rs[hi..]);
  }

  lemma {:induction false} LoadWithTag(u: Upstream, es: seq<Request>, tag: string)
    ensures Load(u, WithTag(es, tag)) <= Load(u, es)
  {
    hide CallLoad, TagOf;
    if es != [] {
      var e := es[|es| - 1];
      LoadWithTag(u, es[..|es| - 1], tag);
      LoadSplit(u, WithTag(es[..|es| - 1], tag), if TagOf(e) == tag then [e] else []);
      assert Load(u, [e]) == CallLoad(u, e);
      assert Load(u, []) == 0;
    }
  }

  lemma BodyWithinLoad(u: Upstream, r: Request)
    ensures var c := CallOf(r.params);
            && |CallBytes(c)| + 32 <= CallLoad(u, r)
            && |ResultBytes(u.read(c.target, c.callData, TagOf(r)))| + 32 <= CallLoad(u, r)
  {
  }

  lemma LoadStep(u: Upstream, rs: seq<Request>, k: nat)
    requires 0 < k <= |rs|
    ensures Load(u, rs[..k]) == Load(u, rs[..k - 1]) + CallLoad(u, rs[k - 1])
  {
    hide CallLoad;
    TakeTake(rs, k - 1, k);
  }

  /** The encoded bodies of k calls stay within the calls' load. */
  lemma {:induction false} CallsWithinLoad(u: Upstream, chunk: seq<Request>, calls: seq<Call3>, k: nat)
    requires k <= |chunk| && calls == CallsOf(EntriesOf(chunk))
    ensures |Abi.Tails(CallValues(calls), k)| + 32 * k <= Load(u, chunk[..k])
  {
    hide Abi.Enc, Abi.Dynamic, Abi.Tail, CallBytes, CallsBytes, Abi.Heads, CallLoad, Load, CallValues;
    if k > 0 {
      CallsWithinLoad(u, chunk, calls, k - 1);
      CallsLayout(calls);
      LoadStep(u, chunk, k);
      BodyWithinLoad(u, chunk[k - 1]);
    }
  }

  /** So do the encoded bodies of their results. */
  lemma {:induction false} ResultsWithinLoad(u: Upstream, chunk: seq<Request>, tag: string, results: seq<CallResult>,
                                             k: nat)
    requires k <= |chunk| && forall i :: 0 <= i < |chunk| ==> TagOf(chunk[i]) == tag
    requires results == Reads(u, CallsOf(EntriesOf(chunk)), tag)
    ensures |Abi.Tails(ResultValues(results), k)| + 32 * k <= Load(u, chunk[..k])
  {
    hide Abi.Enc, Abi.Dynamic, Abi.Tail, ResultBytes, ResultsBytes, Abi.Heads, CallLoad, Load, ResultValues, TagOf;
    if k > 0 {
      ResultsWithinLoad(u, chunk, tag, results, k - 1);
      ResultsLayout(results);
      LoadStep(u, chunk, k);
      BodyWithinLoad(u, chunk[k - 1]);
    }
  }

  lemma ChunkFits(u: Upstream, chunk: seq<Request>, tag: string)
    requires forall r :: r in chunk ==> TagOf(r) == tag
    requires Load(u, chunk) + 100 < TWO_63
    ensures var calls := CallsOf(EntriesOf(chunk));
            |CallsBytes(calls)| < TWO_63 && |ResultsBytes(Reads(u, calls, tag))| < TWO_63
  {
    hide Abi.Enc, Abi.Dynamic, TagOf, CallLoad;
    var calls := CallsOf(EntriesOf(chunk));
    CallsWithinLoad(u, chunk, calls, |chunk|);
    ResultsWithinLoad(u, chunk, tag, Reads(u, calls, tag), |chunk|);
    assert chunk[..|chunk|] == chunk;
    CallsLayout(calls);
    ResultsLayout(Reads(u, calls, tag));
  }

  /* ---------- Where the requests end up ---------- */

  lemma SplitLast(before: seq<Request>, r: Request)
    ensures Eligible(r) ==> Eligibles(before + [r]) == Eligibles(before) + [r]
                            && Ineligibles(before + [r]) == Ineligibles(before)
    ensures !Eligible(r) ==> Ineligibles(before + [r]) == Ineligibles(before) + [r]
                             && Eligibles(before + [r]) == Eligibles(before)
  {
    hide Eligible;
    assert (before + [r])[..|before|] == before;
  }

  lemma {:induction false} Partition(rs: seq<Request>)
    ensures multiset(rs) == multiset(Ineligibles(rs)) + multiset(Eligibles(rs))
  {
    if rs != [] {
      hide *;
      var r, before := rs[|rs| - 1], rs[..|rs| - 1];
      Partition(before);
      assert rs == before + [r];
      SplitLast(before, r);
      if Eligible(r) {
        AddedRight(rs, before, Ineligibles(before), Eligibles(before), r);
      } else {
        AddedLeft(rs, before, Ineligibles(before), Eligibles(before), r);
      }
    }
  }

  lemma {:induction false} PartitionMembers(rs: seq<Request>)
    ensures forall r :: r in Eligibles(rs) ==> Eligible(r) && r in rs
    ensures forall r :: r in Ineligibles(rs) ==> r in rs
  {
    hide Eligible;
    if rs != [] {
      PartitionMembers(rs[..|rs| - 1]);
    }
  }

  lemma {:induction false} WithTagMembers(es: seq<Request>, tag: string)
    ensures forall r :: r in WithTag(es, tag) ==> r in es && TagOf(r) == tag
  {
    hide TagOf;
    if es != [] {
      WithTagMembers(es[..|es| - 1], tag);
    }
  }

  /** The calls of the first k tags, group after group. */
  function Grouped(es: seq<Request>, tags: seq<string>, k: nat): seq<Request>
    requires k <= |tags|
  {
    if k == 0 then [] else Grouped(es, tags, k - 1) + WithTag(es, tags[k - 1])
  }

  lemma {:induction false} TagOrderDistinct(es: seq<Request>)
    ensures forall i, j :: 0 <= i < j < |TagOrder(es)| ==> TagOrder(es)[i] != TagOrder(es)[j]
    ensures forall e :: e in es ==> TagOf(e) in TagOrder(es)
  {
    hide TagOf;
    if es != [] {
      TagOrderDistinct(es[..|es| - 1]);
      assert es == es[..|es| - 1] + [es[|es| - 1]];
    }
  }

  function Once(e: Request, b: bool): multiset<Request> {
    if b then multiset{e} else multiset{}
  }

  /** A further call joins exactly one of the distinct tags' groups. */
  lemma {:induction false} GroupedSnoc(es: seq<Request>, e: Request, tags: seq<string>, k: nat)
    requires k <= |tags|
    requires forall i, j :: 0 <= i < j < |tags| ==> tags[i] != tags[j]
    ensures multiset(Grouped(es + [e], tags, k)) == multiset(Grouped(es, tags, k)) + Once(e, TagOf(e) in tags[..k])
  {
    hide TagOf, WithTag;
    if k > 0 {
      var t := tags[k - 1];
      GroupedSnoc(es, e, tags, k - 1);
      WithTagSnoc(es, e, t);
      assert tags[..k] == tags[..k - 1] + [t];
      assert t !in tags[..k - 1];
      var x, y := Once(e, TagOf(e) in tags[..k - 1]), Once(e, TagOf(e) == t);
      assert x + y == Once(e, TagOf(e) in tags[..k]);
      hide Once;
      calc {
        multiset(Grouped(es + [e], tags, k));
        multiset(Grouped(es + [e], tags, k - 1)) + multiset(WithTag(es + [e], t));
        (multiset(Grouped(es, tags, k - 1)) + x) + (multiset(WithTag(es, t)) + y);
        { Regroup(multiset(Grouped(es, tags, k - 1)), x, multiset(WithTag(es, t)), y); }
        (multiset(Grouped(es, tags, k - 1)) + multiset(WithTag(es, t))) + (x + y);
        multiset(Grouped(es, tags, k)) + (x + y);
      }
    }
  }

  lemma WithTagSnoc(es: seq<Request>, e: Request, tag: string)
    ensures multiset(WithTag(es + [e], tag)) == multiset(WithTag(es, tag)) + Once(e, TagOf(e) == tag)
  {
    hide TagOf;
    assert (es + [e])[..|es|] == es;
  }

  lemma {:induction false} GroupedEmpty(tags: seq<string>, k: nat)
    requires k <= |tags|
    ensures Grouped([], tags, k) == []
  {
    if k > 0 {
      GroupedEmpty(tags, k - 1);
    }
  }

  /** Grouping by distinct tags that cover every call loses and repeats nothing. */
  lemma {:induction false} GroupedIsAll(es: seq<Request>, tags: seq<string>)
    requires forall i, j :: 0 <= i < j < |tags| ==> tags[i] != tags[j]
    requires forall e :: e in es ==> TagOf(e) in tags
    ensures multiset(Grouped(es, tags, |tags|)) == multiset(es)
  {
    hide TagOf;
    if es == [] {
      GroupedEmpty(tags, |tags|);
    } else {
      var n := |es| - 1;
      assert es == es[..n] + [es[n]];
      GroupedIsAll(es[..n], tags);
      GroupedSnoc(es[..n], es[n], tags, |tags|);
      assert tags[..|tags|] == tags;
      assert es[n] in es;
    }
  }

  /* ---------- The plan as it grows ---------- */

  function Member(e: Entry): Request {
    Request(e.originalId, "eth_call", e.params)
  }

  function Members(es: seq<Entry>): (rs: seq<Request>)
    ensures |rs| == |es|
    ensures forall j :: 0 <= j < |es| ==> rs[j] == Member(es[j])
  {
    seq(|es|, j requires 0 <= j < |es| => Member(es[j]))
  }

  function AllMembers(gs: seq<Group>): seq<Request> {
    if gs == [] then [] else AllMembers(gs[..|gs| - 1]) + Members(gs[|gs| - 1].entries)
  }

  function AllFused(cfg: Config, gs: seq<Group>): seq<Request> {
    if gs == [] then [] else AllFused(cfg, gs[..|gs| - 1]) + [Fused(cfg, gs[|gs| - 1])]
  }

  lemma MembersOfEntries(chunk: seq<Request>)
    requires forall r :: r in chunk ==> Eligible(r)
    ensures Members(EntriesOf(chunk)) == chunk
  {
    forall j | 0 <= j < |chunk|
      ensures Members(EntriesOf(chunk))[j] == chunk[j]
    {
      assert chunk[j] in chunk;
    }
  }

  /** A fused group answers, slot by slot, what its members ask. */
  ghost predicate Faithful(u: Upstream, cfg: Config, g: Group) {
    && g.id.Synthetic?
    && Indexed(g)
    && Direct(u, Fused(cfg, g)) == HexResult(ResultsBytes(Reads(u, CallsOf(g.entries), g.tag)))
    && DecodeResults(ResultsBytes(Reads(u, CallsOf(g.entries), g.tag)))
       == Decoded(Reads(u, CallsOf(g.entries), g.tag))
    && forall j :: 0 <= j < |g.entries| ==>
         Direct(u, Member(g.entries[j])) == AnswerOf(Reads(u, CallsOf(g.entries), g.tag)[j])
  }

  /** A group as the plan makes it: the entries of two or more of the batch's fusable
      calls with its tag, no more than a chunk holds, and no larger than all of them. */
  ghost predicate Made(cfg: Config, rs: seq<Request>, g: Group) {
    var chunk := Members(g.entries);
    && g.id.Synthetic?
    && g.entries == EntriesOf(chunk) && 2 <= |chunk| <= cfg.maxCalls
    && (forall r :: r in chunk ==> r in rs && Eligible(r) && TagOf(r) == g.tag)
    && forall u: Upstream :: Load(u, chunk) <= Load(u, Eligibles(rs))
  }

  /** What holds of the plan once the calls in done have been placed. */
  ghost predicate Sound(cfg: Config, rs: seq<Request>, p: Plan, done: seq<Request>) {
    && multiset(p.out) == multiset(p.mapping.passthrough) + multiset(AllFused(cfg, p.mapping.groups))
    && multiset(p.mapping.passthrough) + multiset(AllMembers(p.mapping.groups))
       == multiset(Ineligibles(rs)) + multiset(done)
    && (forall r :: r in p.mapping.passthrough ==> r in rs)
    && p.drawn == |p.mapping.groups|
    && (forall i :: 0 <= i < |p.mapping.groups| ==> p.mapping.groups[i].id == Synthetic(cfg.tickets(i)))
    && (forall i :: 0 <= i < |p.mapping.groups| ==> Made(cfg, rs, p.mapping.groups[i]))
  }

  /** What the code reads out of plain parameters. */
  lemma PlainFields(r: Request)
    requires Plain(r.params)
    ensures CallOf(r.params) == Call3(r.params.to.bytes, true, r.params.data.bytes)
    ensures TagOf(r) == if r.params.block.NoBlock? then "latest" else r.params.block.text
  {
    assert Zeros(0) + r.params.to.bytes == r.params.to.bytes;
  }

  /** The code fuses only calls that ask for nothing but a read. */
  lemma FusableAsksRead(r: Request)
    requires Eligible(r)
    ensures AsksRead(r)
  {
  }

  lemma DirectCall(u: Upstream, r: Request)
    requires Eligible(r) && Plain(r.params)
    ensures var c := CallOf(r.params); Direct(u, r) == AnswerOf(u.read(c.target, c.callData, TagOf(r)))
    ensures TagOf(r) != ""
  {
    PlainFields(r);
    FusableAsksRead(r);
  }

  lemma FusedMeaning(u: Upstream, cfg: Config, g: Group)
    requires ValidConfig(cfg) && Aggregates(u, cfg.address) && g.tag != "" && 1 <= |g.entries| <= 10000
    requires |CallsBytes(CallsOf(g.entries))| < TWO_63
    requires |ResultsBytes(Reads(u, CallsOf(g.entries), g.tag))| < TWO_63
    ensures Direct(u, Fused(cfg, g)) == HexResult(ResultsBytes(Reads(u, CallsOf(g.entries), g.tag)))
  {
    hide CallsBytes, ResultsBytes;
    assert Zeros(0) + cfg.address == cfg.address;
    assert forall i :: 0 <= i < |g.entries| ==> CallsOf(g.entries)[i].allowFailure;
  }

  lemma {:induction false} ChunkFaithful(u: Upstream, cfg: Config, chunk: seq<Request>, tag: string, id: Id)
    requires ValidConfig(cfg) && Aggregates(u, cfg.address) && id.Synthetic?
    requires 2 <= |chunk| <= cfg.maxCalls
    requires forall r :: r in chunk ==> Eligible(r) && Plain(r.params) && TagOf(r) == tag
    requires Load(u, chunk) + 100 < TWO_63
    ensures Faithful(u, cfg, Group(id, tag, EntriesOf(chunk)))
  {
    hide CallsBytes, ResultsBytes, DecodeResults, Load, Direct, Fused;
    var g := Group(id, tag, EntriesOf(chunk));
    var calls := CallsOf(g.entries);
    var results := Reads(u, calls, tag);
    ChunkFits(u, chunk, tag);
    assert chunk[0] in chunk;
    DirectCall(u, chunk[0]);
    FusedMeaning(u, cfg, g);
    DecodeResultsInvertsEncode(results);
    forall j | 0 <= j < |g.entries|
      ensures Direct(u, Member(g.entries[j])) == AnswerOf(results[j])
    {
      assert chunk[j] in chunk;
      assert Member(g.entries[j]) == chunk[j];
      DirectCall(u, chunk[j]);
    }
  }

  lemma SoundLone(cfg: Config, rs: seq<Request>, p: Plan, done: seq<Request>, chunk: seq<Request>)
    requires Sound(cfg, rs, p, done) && forall r :: r in chunk ==> r in rs
    ensures Sound(cfg, rs, Plan(p.out + chunk, p.mapping.(passthrough := p.mapping.passthrough + chunk), p.drawn),
                  done + chunk)
  {
    hide Made, AllFused, AllMembers, Ineligibles;
    var gs, c := p.mapping.groups, multiset(chunk);
    Shift(multiset(p.mapping.passthrough), multiset(AllFused(cfg, gs)), c);
    Shift(multiset(p.mapping.passthrough), multiset(AllMembers(gs)), c);
    assert multiset(done + chunk) == multiset(done) + c;
    assert multiset(p.out + chunk) == multiset(p.out) + c;
    assert multiset(p.mapping.passthrough + chunk) == multiset(p.mapping.passthrough) + c;
  }

  lemma SoundGroup(cfg: Config, rs: seq<Request>, p: Plan, done: seq<Request>, g: Group, chunk: seq<Request>)
    requires Sound(cfg, rs, p, done)
    requires Made(cfg, rs, g) && g.id == Synthetic(cfg.tickets(p.drawn)) && Members(g.entries) == chunk
    ensures Sound(cfg, rs, Plan(p.out + [Fused(cfg, g)], p.mapping.(groups := p.mapping.groups + [g]), p.drawn + 1),
                  done + chunk)
  {
    hide Made, Fused, Members, Ineligibles;
    var gs := p.mapping.groups + [g];
    assert gs[..|gs| - 1] == p.mapping.groups;
    assert AllFused(cfg, gs) == AllFused(cfg, p.mapping.groups) + [Fused(cfg, g)];
    assert AllMembers(gs) == AllMembers(p.mapping.groups) + chunk;
    var pass := multiset(p.mapping.passthrough);
    Shift(pass, multiset(AllFused(cfg, p.mapping.groups)), multiset([Fused(cfg, g)]));
    Shift(pass, multiset(AllMembers(p.mapping.groups)), multiset(chunk));
    assert multiset(done + chunk) == multiset(done) + multiset(chunk);
  }

  ghost predicate Light(rs: seq<Request>, calls: seq<Request>) {
    forall u: Upstream :: Load(u, calls) <= Load(u, Eligibles(rs))
  }

  lemma AddChunkSound(cfg: Config, rs: seq<Request>, p: Plan, done: seq<Request>, chunk: seq<Request>, tag: string)
    requires Sound(cfg, rs, p, done) && 1 <= |chunk| <= cfg.maxCalls
    requires forall r :: r in chunk ==> r in rs && Eligible(r) && TagOf(r) == tag
    requires Light(rs, chunk)
    ensures Sound(cfg, rs, AddChunk(cfg, p, chunk, tag), done + chunk)
  {
    hide Eligible, TagOf, Load;
    if |chunk| == 1 {
      SoundLone(cfg, rs, p, done, chunk);
    } else {
      var g := Group(Synthetic(cfg.tickets(p.drawn)), tag, EntriesOf(chunk));
      MembersOfEntries(chunk);
      assert Made(cfg, rs, g);
      SoundGroup(cfg, rs, p, done, g, chunk);
    }
  }

  lemma {:induction false} AddChunksSound(cfg: Config, rs: seq<Request>, p: Plan, done: seq<Request>,
                                          calls: seq<Request>, tag: string, start: nat)
    requires cfg.maxCalls >= 1
    requires start <= |calls| && Sound(cfg, rs, p, done + calls[..start])
    requires forall r :: r in calls ==> r in rs && Eligible(r) && TagOf(r) == tag
    requires Light(rs, calls)
    ensures Sound(cfg, rs, AddChunks(cfg, p, calls, tag, start), done + calls)
    decreases |calls| - start
  {
    hide Sound, Eligible, TagOf, AddChunk, Load;
    if start == |calls| {
      assert calls[..start] == calls;
    } else {
      var end := Min(start + cfg.maxCalls, |calls|);
      var chunk := calls[start..end];
      forall u: Upstream
        ensures Load(u, chunk) <= Load(u, Eligibles(rs))
      {
        LoadSlice(u, calls, start, end);
      }
      AddChunkSound(cfg, rs, p, done + calls[..start], chunk, tag);
      var q := AddChunk(cfg, p, chunk, tag);
      assert done + calls[..start] + chunk == done + calls[..end];
      AddChunksSound(cfg, rs, q, done, calls, tag, end);
      assert AddChunks(cfg, q, calls, tag, end) == AddChunks(cfg, q, calls, tag, start + cfg.maxCalls);
    }
  }

  lemma StartSound(cfg: Config, rs: seq<Request>)
    ensures Sound(cfg, rs, StartPlan(rs), [])
  {
    hide Made, Eligible;
    PartitionMembers(rs);
  }

  lemma {:induction false} AddTagsSound(cfg: Config, rs: seq<Request>, tags: seq<string>, k: nat)
    requires cfg.maxCalls >= 1 && k <= |tags|
    ensures Sound(cfg, rs, AddTags(cfg, StartPlan(rs), Eligibles(rs), tags, k), Grouped(Eligibles(rs), tags, k))
  {
    hide Load, Eligible, TagOf, AddChunks, Sound, Ineligibles, Eligibles, StartPlan;
    var es := Eligibles(rs);
    PartitionMembers(rs);
    if k == 0 {
      StartSound(cfg, rs);
    } else {
      AddTagsSound(cfg, rs, tags, k - 1);
      var calls := WithTag(es, tags[k - 1]);
      WithTagMembers(es, tags[k - 1]);
      forall u: Upstream
        ensures Load(u, calls) <= Load(u, es)
      {
        LoadWithTag(u, es, tags[k - 1]);
      }
      var p, done := AddTags(cfg, StartPlan(rs), es, tags, k - 1), Grouped(es, tags, k - 1);
      assert done + calls[..0] == done;
      AddChunksSound(cfg, rs, p, done, calls, tags[k - 1], 0);
    }
  }

  /** A finished plan: it conserves the batch, and the ids it sends tell requests apart. */
  ghost predicate Complete(cfg: Config, rs: seq<Request>, p: Plan) {
    && IdsIdentify(p.out)
    && multiset(p.mapping.passthrough + AllMembers(p.mapping.groups)) == multiset(rs)
    && (forall r :: r in p.mapping.passthrough ==> r in rs && r in p.out)
    && (forall g :: g in p.mapping.groups ==> Made(cfg, rs, g) && Fused(cfg, g) in p.out)
  }

  lemma FullIsComplete(cfg: Config, rs: seq<Request>)
    requires ValidConfig(cfg) && IdsIdentify(rs) && forall r :: r in rs ==> !r.id.Synthetic?
    ensures Complete(cfg, rs, FullPlan(cfg, rs))
  {
    hide Eligible, AddTags, Sound, TagOf, Made, Fused, AllMembers, Grouped, TagOrder, Eligibles, Ineligibles;
    var es := Eligibles(rs);
    var tags := TagOrder(es);
    var p, done := FullPlan(cfg, rs), Grouped(es, tags, |tags|);
    AddTagsSound(cfg, rs, tags, |tags|);
    TagOrderDistinct(es);
    GroupedIsAll(es, tags);
    Partition(rs);
    WireIdsIdentify(cfg, rs, p, done);
    SoundConserves(cfg, rs, p, done);
  }

  /* ---------- Reading the answers back ---------- */

  /** Whatever the order of honest replies, each id looks up its own answer. */
  lemma {:induction false} LookupHonest(u: Upstream, sent: seq<Request>, replies: seq<Reply>, k: nat, r: Request)
    requires IdsIdentify(sent) && r in sent && k <= |replies|
    requires forall p :: p in replies ==> exists s :: s in sent && p == DirectReply(u, s)
    ensures Lookup(replies[..k], r.id) == Some(Direct(u, r)) || forall i :: 0 <= i < k ==> replies[i].id != r.id
  {
    hide Direct;
    if k > 0 {
      LookupHonest(u, sent, replies, k - 1, r);
      assert replies[..k][..k - 1] == replies[..k - 1];
      assert replies[k - 1] in replies;
    }
  }

  ghost predicate AnsweredAll(u: Upstream, sent: seq<Request>, replies: seq<Reply>) {
    multiset(replies) == multiset(DirectReplies(u, sent))
  }

  lemma LookupAnswered(u: Upstream, sent: seq<Request>, replies: seq<Reply>, r: Request)
    requires IdsIdentify(sent) && r in sent && AnsweredAll(u, sent, replies)
    ensures Lookup(replies, r.id) == Some(Direct(u, r))
  {
    hide Direct;
    var direct := DirectReplies(u, sent);
    forall p | p in replies
      ensures exists s :: s in sent && p == DirectReply(u, s)
    {
      assert p in multiset(direct);
      var i :| 0 <= i < |direct| && direct[i] == p;
      assert sent[i] in sent;
    }
    LookupHonest(u, sent, replies, |replies|, r);
    assert replies[..|replies|] == replies;
    var i :| 0 <= i < |sent| && sent[i] == r;
    assert direct[i] in multiset(replies);
    assert exists k :: 0 <= k < |replies| && replies[k] == direct[i];
  }

  lemma {:induction false} PassthroughAnswered(u: Upstream, sent: seq<Request>, replies: seq<Reply>, pass: seq<Request>)
    requires IdsIdentify(sent) && AnsweredAll(u, sent, replies)
    requires forall r :: r in pass ==> r in sent
    ensures ExpandPassthrough(replies, pass) == DirectReplies(u, pass)
  {
    hide Direct, AnsweredAll;
    if pass != [] {
      var n := |pass| - 1;
      PassthroughAnswered(u, sent, replies, pass[..n]);
      LookupAnswered(u, sent, replies, pass[n]);
      assert DirectReplies(u, pass) == DirectReplies(u, pass[..n]) + [DirectReply(u, pass[n])];
    }
  }

  lemma GroupAnswered(u: Upstream, cfg: Config, sent: seq<Request>, replies: seq<Reply>, g: Group)
    requires IdsIdentify(sent) && AnsweredAll(u, sent, replies)
    requires Fused(cfg, g) in sent && Faithful(u, cfg, g)
    ensures ExpandGroup(replies, g) == Decoded(DirectReplies(u, Members(g.entries)))
  {
    hide Direct, AnsweredAll, ResultsBytes, CallsBytes, DecodeResults;
    LookupAnswered(u, sent, replies, Fused(cfg, g));
    var p := Lookup(replies, g.id);
    assert p == Some(Direct(u, Fused(cfg, g)));
    assert ExpandEntries(p, |g.entries|, g.entries) == DirectReplies(u, Members(g.entries));
  }

  /** What a fused call is answered with, plain or not: the read its target and
      data name, at the tag its block parameter was taken for. For nodes with these
      reads, that is the call's own answer whatever the node exactly when the call
      is plain: not pinned by an object, as EIP-1898 allows, and without members of
      the call object that the code does not parse. */
  lemma FusedAnswerExactly(u: Upstream, cfg: Config, chunk: seq<Request>, tag: string, id: Id, sent: seq<Request>,
                           replies: seq<Reply>, j: nat)
    requires ValidConfig(cfg) && Aggregates(u, cfg.address) && tag != "" && j < |chunk|
    requires 2 <= |chunk| <= cfg.maxCalls && Load(u, chunk) + 100 < TWO_63
    requires forall r :: r in chunk ==> Eligible(r) && TagOf(r) == tag
    requires IdsIdentify(sent) && AnsweredAll(u, sent, replies)
    requires Fused(cfg, Group(id, tag, EntriesOf(chunk))) in sent
    ensures chunk[j].params.CallParams?
    ensures var c, r := CallOf(chunk[j].params), chunk[j];
            var read := AnswerOf(u.read(c.target, c.callData, tag));
            var answers := ExpandGroup(replies, Group(id, tag, EntriesOf(chunk)));
            && answers.Decoded? && |answers.value| == |chunk|
            && answers.value[j] == Reply(r.id, read)
            && (Plain(r.params) <==> forall other :: answers.value[j] == DirectReply(Upstream(u.read, other), r))
            && (r.params.block.BlockValue? ==> tag == "latest")
  {
    hide Direct, AnsweredAll, ResultsBytes, CallsBytes, DecodeResults, Fused, Load, Eligible, Plain, Lookup,
         ExpandGroup, TagOf, CallOf, Aggregates;
    var g := Group(id, tag, EntriesOf(chunk));
    var results := Reads(u, CallsOf(g.entries), tag);
    ChunkFits(u, chunk, tag);
    FusedMeaning(u, cfg, g);
    DecodeResultsInvertsEncode(results);
    LookupAnswered(u, sent, replies, Fused(cfg, g));
    FusedId(cfg, g);
    FusedSlot(replies, g, results, j);
    assert chunk[j] in chunk;
    PlainExactly(u, chunk[j]);
  }

  lemma FusedId(cfg: Config, g: Group)
    ensures Fused(cfg, g).id == g.id
  {
  }

  lemma FusedSlot(replies: seq<Reply>, g: Group, results: seq<CallResult>, j: nat)
    requires |results| == |g.entries| && j < |results| && g.entries[j].index == j
    requires Lookup(replies, g.id) == Some(HexResult(ResultsBytes(results)))
    requires DecodeResults(ResultsBytes(results)) == Decoded(results)
    ensures var o := ExpandGroup(replies, g);
            && o.Decoded? && |o.value| == |g.entries|
            && o.value[j] == Reply(g.entries[j].originalId, AnswerOf(results[j]))
  {
    hide ResultsBytes, DecodeResults, Lookup;
  }

  lemma PlainOrOther(u: Upstream, r: Request)
    requires Eligible(r)
    ensures var c := CallOf(r.params);
            Direct(u, r) == if Plain(r.params) then AnswerOf(u.read(c.target, c.callData, TagOf(r)))
                            else u.other(r.rpcMethod, r.params)
    ensures r.params.CallParams? && (r.params.block.BlockValue? ==> TagOf(r) == "latest")
  {
    if Plain(r.params) {
      PlainFields(r);
    }
    FusableAsksRead(r);
  }

  /** Plain parameters are what makes the read the answer at every node: to any
      other call some node with the same reads answers something else. */
  lemma PlainExactly(u: Upstream, r: Request)
    requires Eligible(r)
    ensures r.params.CallParams? && (r.params.block.BlockValue? ==> TagOf(r) == "latest")
    ensures var c := CallOf(r.params);
            var answer := Reply(r.id, AnswerOf(u.read(c.target, c.callData, TagOf(r))));
            Plain(r.params) <==> forall other :: answer == DirectReply(Upstream(u.read, other), r)
  {
    hide Eligible, Plain, Direct, CallOf, TagOf;
    var c := CallOf(r.params);
    var answer := Reply(r.id, AnswerOf(u.read(c.target, c.callData, TagOf(r))));
    forall other
      ensures Direct(Upstream(u.read, other), r) ==
              if Plain(r.params) then answer.payload else other(r.rpcMethod, r.params)
    {
      PlainOrOther(Upstream(u.read, other), r);
    }
    PlainOrOther(u, r);
    var odd: (string, Params) -> Payload := (m, p) => OtherResult("{}");
    assert DirectReply(Upstream(u.read, odd), r) == Reply(r.id, if Plain(r.params) then answer.payload
        else OtherResult("{}"));
  }

  /** The address a target names is its number modulo 2 to the 160, whatever its length;
      text that is not hex names the zero address. */
  lemma AddressExactly(h: Hex)
    ensures Value(HexToAddress(h)) == Value(if h.HexBytes? then h.bytes else []) % TWO_160
  {
    var b := HexToBytes(h);
    if |b| > 20 {
      LastTwenty(b);
    } else {
      Padded(b);
    }
    hide Value, Zeros;
  }

  lemma LastTwenty(b: seq<byte>)
    requires |b| > 20
    ensures Value(b[|b| - 20..]) == Value(b) % TWO_160
  {
    hide Value;
    assert b == b[..|b| - 20] + b[|b| - 20..];
    LowTwenty(b[..|b| - 20], b[|b| - 20..]);
  }

  lemma Padded(b: seq<byte>)
    requires |b| <= 20
    ensures Value(Zeros(20 - |b|) + b) == Value(b) % TWO_160
  {
    hide Value, Zeros;
    PaddedValue(20 - |b|, b);
    TwentyBytes(Zeros(20 - |b|) + b);
  }

  lemma TwentyBytes(s: seq<byte>)
    requires |s| == 20
    ensures Value(s) < TWO_160
  {
    hide Value;
    ValueBound(s);
    Power256Of20();
  }

  lemma PaddedValue(n: nat, b: seq<byte>)
    ensures Value(Zeros(n) + b) == Value(b)
  {
    ValueSplit(Zeros(n), b);
    ValueOfZeros(n);
    hide Value, Zeros, Power256;
  }

  lemma LowTwenty(high: seq<byte>, low: seq<byte>)
    requires |low| == 20
    ensures Value(low) == Value(high + low) % TWO_160
  {
    ValueSplit(high, low);
    ValueBound(low);
    Power256Of20();
    hide Power256, Value;
  }

  /** What may be fused. Of the calls with plain parameters, those whose answer is the
      read at every node: no call with a sender, a gas limit, a value or overrides of
      its own. Of the others, those that would be such a call with plain parameters in
      the place of their own. */
  lemma FusableExactly(u: Upstream, r: Request, to: Address, data: seq<byte>, block: BlockParam)
    requires r.params.CallParams? && (block.NoBlock? || (block.BlockText? && block.text != ""))
    ensures Plain(r.params) ==>
              (Eligible(r) <==>
                 forall other :: Direct(Upstream(u.read, other), r) ==
                   AnswerOf(u.read(r.params.to.bytes, r.params.data.bytes, BlockTag(r.params.block))))
    ensures var plain := r.params.(to := HexBytes(to), data := HexBytes(data), rest := "", block := block);
            Plain(plain) && (r.params.to != Absent && r.params.data != Absent ==>
                               Eligible(r) == Eligible(r.(params := plain)))
    ensures r.params.to == Absent || r.params.data == Absent ==> !Eligible(r)
  {
    if Plain(r.params) && !Eligible(r) {
      var odd: (string, Params) -> Payload := (m, p) => OtherResult("{}");
      assert Direct(Upstream(u.read, odd), r) == OtherResult("{}");
    }
  }

  /** Two calls of one contract function at the same tag, the second with a block
      parameter and further members of its own: they are fused, and both are
      answered as of latest without those members. */
  lemma TwinsAreReadAlike(u: Upstream, cfg: Config, data: seq<byte>, block: BlockParam, rest: string,
                          replies: seq<Reply>)
    requires ValidConfig(cfg) && cfg.maxCalls >= 2 && Aggregates(u, cfg.address) && BlockTag(block) == "latest"
    requires |data| + |u.read(Zeros(20), data, "latest").returnData| < 1_000_000
    requires AnsweredAll(u, Aggregated(cfg, Twins(data, block, rest)).0, replies)
    ensures var latest := AnswerOf(u.read(Zeros(20), data, "latest"));
            Restored(Aggregated(cfg, Twins(data, block, rest)).1, replies) ==
            Decoded([Reply(Wire(0), latest), Reply(Wire(1), latest)])
  {
    hide Fused, ExpandGroup, Aggregated, AnsweredAll, Aggregates, Load, Direct, Eligible, Plain, CallOf, TagOf,
         Restored, Twins, BlockTag;
    var rs := Twins(data, block, rest);
    var g := Group(Synthetic(cfg.tickets(0)), "latest", EntriesOf(rs));
    TwinShape(data, block, rest);
    TwinPlan(cfg, data, block, rest);
    TwinLoad(u, data, block, rest);
    var sent := [Fused(cfg, g)];
    FusedAnswerExactly(u, cfg, rs, "latest", g.id, sent, replies, 0);
    FusedAnswerExactly(u, cfg, rs, "latest", g.id, sent, replies, 1);
    OneGroup(replies, g);
    var answers := ExpandGroup(replies, g).value;
    assert answers == [answers[0], answers[1]];
  }

  const FIVE := BlockValue("{\"blockNumber\":\"0x5\"}")

  /** A call pinned to block 5 by an object is read at latest, although it is not plain. */
  lemma PinnedCallIsReadAtLatest(u: Upstream, cfg: Config, data: seq<byte>, replies: seq<Reply>)
    requires ValidConfig(cfg) && cfg.maxCalls >= 2 && Aggregates(u, cfg.address)
    requires |data| + |u.read(Zeros(20), data, "latest").returnData| < 1_000_000
    requires AnsweredAll(u, Aggregated(cfg, Twins(data, FIVE, "")).0, replies)
    ensures Eligible(Twins(data, FIVE, "")[1]) && !Plain(Twins(data, FIVE, "")[1].params)
    ensures var o := Restored(Aggregated(cfg, Twins(data, FIVE, "")).1, replies);
            && o.Decoded? && |o.value| == 2
            && o.value[1] == Reply(Wire(1), AnswerOf(u.read(Zeros(20), data, "latest")))
  {
    TwinsAreReadAlike(u, cfg, data, FIVE, "", replies);
    TwinShape(data, FIVE, "");
    hide Eligible, Restored, Aggregated, AnsweredAll;
  }

  /** A call with a fee cap of its own is read without it, although it is not plain. */
  lemma FeeCapIsDropped(u: Upstream, cfg: Config, data: seq<byte>, replies: seq<Reply>)
    requires ValidConfig(cfg) && cfg.maxCalls >= 2 && Aggregates(u, cfg.address)
    requires |data| + |u.read(Zeros(20), data, "latest").returnData| < 1_000_000
    requires AnsweredAll(u, Aggregated(cfg, Twins(data, NoBlock, FEE_CAP)).0, replies)
    ensures Eligible(Twins(data, NoBlock, FEE_CAP)[1]) && !Plain(Twins(data, NoBlock, FEE_CAP)[1].params)
    ensures var o := Restored(Aggregated(cfg, Twins(data, NoBlock, FEE_CAP)).1, replies);
            && o.Decoded? && |o.value| == 2
            && o.value[1] == Reply(Wire(1), AnswerOf(u.read(Zeros(20), data, "latest")))
  {
    TwinsAreReadAlike(u, cfg, data, NoBlock, FEE_CAP, replies);
    TwinShape(data, NoBlock, FEE_CAP);
    hide Eligible, Restored, Aggregated, AnsweredAll;
  }

  const FEE_CAP := "\"maxFeePerGas\":\"0x1\""

  function TwinCall(id: Id, data: seq<byte>, block: BlockParam, rest: string): Request {
    Request(id, "eth_call", CallParams(HexBytes(Zeros(20)), HexBytes(data), "", "", "", "", rest, block, false))
  }

  function Twins(data: seq<byte>, block: BlockParam, rest: string): (rs: seq<Request>)
    ensures |rs| == 2
  {
    [TwinCall(Wire(0), data, NoBlock, ""), TwinCall(Wire(1), data, block, rest)]
  }

  lemma TwinShape(data: seq<byte>, block: BlockParam, rest: string)
    requires BlockTag(block) == "latest"
    ensures var rs := Twins(data, block, rest);
            && (forall r :: r in rs ==> Eligible(r) && TagOf(r) == "latest")
            && (block.BlockValue? || rest != "" ==> !Plain(rs[1].params))
            && forall j :: 0 <= j < 2 ==> rs[j].id == Wire(j) && CallOf(rs[j].params) == Call3(Zeros(20), true, data)
  {
    assert Zeros(0) + Zeros(20) == Zeros(20);
  }

  lemma TwinPlan(cfg: Config, data: seq<byte>, block: BlockParam, rest: string)
    requires ValidConfig(cfg) && cfg.maxCalls >= 2 && BlockTag(block) == "latest"
    ensures var g := Group(Synthetic(cfg.tickets(0)), "latest", EntriesOf(Twins(data, block, rest)));
            Aggregated(cfg, Twins(data, block, rest)) == ([Fused(cfg, g)], Some(Mapping([g], [])))
  {
    hide Fused;
    var rs := Twins(data, block, rest);
    TwinShape(data, block, rest);
    hide Eligible, TagOf;
    var tags := ["latest"];
    PairSorted(rs);
    var start := StartPlan(rs);
    assert rs[0..2] == rs;
    assert AddChunks(cfg, start, rs, "latest", 0) == AddChunk(cfg, start, rs, "latest");
    assert AddTags(cfg, start, rs, tags, 0) == start;
    assert AddTags(cfg, start, rs, tags, 1) == AddChunk(cfg, start, rs, "latest");
    var g := Group(Synthetic(cfg.tickets(0)), "latest", EntriesOf(rs));
    OneChunk(cfg, rs, g);
  }

  lemma PairSorted(rs: seq<Request>)
    requires |rs| == 2 && forall r :: r in rs ==> Eligible(r) && TagOf(r) == "latest"
    ensures Eligibles(rs) == rs && Ineligibles(rs) == []
    ensures TagOrder(rs) == ["latest"] && WithTag(rs, "latest") == rs
  {
    hide Eligible, TagOf;
    var one := rs[..1];
    assert one == [rs[0]] && one[..0] == [] && rs[0] in rs && rs[1] in rs;
    OneSorted(one, rs[0]);
    assert rs == one + [rs[1]];
  }

  lemma OneSorted(one: seq<Request>, r: Request)
    requires one == [r] && Eligible(r) && TagOf(r) == "latest"
    ensures Eligibles(one) == one && Ineligibles(one) == []
    ensures TagOrder(one) == ["latest"] && WithTag(one, "latest") == one
  {
    hide Eligible, TagOf;
    var none := one[..0];
    assert Eligibles(none) == [] && Ineligibles(none) == [] && TagOrder(none) == [] && WithTag(none, "latest") == [];
    AddedToNone(Eligibles(none), r);
    AddedToNone(TagOrder(none), "latest");
    AddedToNone(WithTag(none, "latest"), r);
  }

  lemma OneChunk(cfg: Config, rs: seq<Request>, g: Group)
    requires |rs| == 2 && Ineligibles(rs) == [] && g == Group(Synthetic(cfg.tickets(0)), "latest", EntriesOf(rs))
    ensures AddChunk(cfg, StartPlan(rs), rs, "latest") == Plan([Fused(cfg, g)], Mapping([g], []), 1)
  {
    hide Fused;
    AddedToNone(StartPlan(rs).out, Fused(cfg, g));
    AddedToNone(StartPlan(rs).mapping.groups, g);
  }

  lemma TwinLoad(u: Upstream, data: seq<byte>, block: BlockParam, rest: string)
    requires |data| + |u.read(Zeros(20), data, "latest").returnData| < 1_000_000 && BlockTag(block) == "latest"
    ensures Load(u, Twins(data, block, rest)) + 100 < TWO_63
  {
    hide CallLoad;
    var rs := Twins(data, block, rest);
    LoadStep(u, rs, 1);
    LoadStep(u, rs, 2);
    assert rs[..2] == rs && Load(u, rs[..0]) == 0;
    TwinCallLoad(u, Wire(0), data, NoBlock, "");
    TwinCallLoad(u, Wire(1), data, block, rest);
  }

  lemma TwinCallLoad(u: Upstream, id: Id, data: seq<byte>, block: BlockParam, rest: string)
    requires BlockTag(block) == "latest"
    ensures CallLoad(u, TwinCall(id, data, block, rest)) ==
            256 + |data| + |u.read(Zeros(20), data, "latest").returnData|
  {
    assert Zeros(0) + Zeros(20) == Zeros(20);
  }

  lemma OneGroup(replies: seq<Reply>, g: Group)
    ensures Restored(Some(Mapping([g], [])), replies) == ExpandGroup(replies, g)
  {
    hide ExpandGroup;
    var none: seq<Group> := [];
    assert [g][..0] == none && ExpandGroups(replies, none) == Decoded([]);
    assert ExpandGroups(replies, [g]).Decoded? <==> ExpandGroup(replies, g).Decoded?;
    if ExpandGroup(replies, g).Decoded? {
      NothingBefore(ExpandGroup(replies, g).value);
    }
  }

  lemma NothingBefore<T>(s: seq<T>)
    ensures [] + s == s && [] + ([] + s) == s
  {
  }

  lemma {:induction false} GroupsAnswered(u: Upstream, cfg: Config, sent: seq<Request>, replies: seq<Reply>,
                                          gs: seq<Group>)
    requires IdsIdentify(sent) && AnsweredAll(u, sent, replies)
    requires forall g :: g in gs ==> Fused(cfg, g) in sent && Faithful(u, cfg, g)
    ensures ExpandGroups(replies, gs) == Decoded(DirectReplies(u, AllMembers(gs)))
  {
    hide Direct, AnsweredAll, Fused, Faithful;
    if gs != [] {
      var n := |gs| - 1;
      GroupsAnswered(u, cfg, sent, replies, gs[..n]);
      GroupAnswered(u, cfg, sent, replies, gs[n]);
      assert DirectReplies(u, AllMembers(gs)) ==
             DirectReplies(u, AllMembers(gs[..n])) + DirectReplies(u, Members(gs[n].entries));
    }
  }

  lemma {:induction false} FusedMember(cfg: Config, gs: seq<Group>, r: Request)
    ensures r in AllFused(cfg, gs) <==> exists i :: 0 <= i < |gs| && r == Fused(cfg, gs[i])
  {
    hide Fused;
    if gs != [] {
      FusedMember(cfg, gs[..|gs| - 1], r);
    }
  }

  lemma TicketsDiffer(cfg: Config, i: nat, j: nat)
    requires ValidConfig(cfg) && cfg.tickets(i) == cfg.tickets(j)
    ensures i == j
  {
  }

  lemma OutMember(cfg: Config, p: Plan, r: Request)
    requires multiset(p.out) == multiset(p.mapping.passthrough) + multiset(AllFused(cfg, p.mapping.groups))
    ensures r in p.out <==>
            r in p.mapping.passthrough
            || exists i :: 0 <= i < |p.mapping.groups| && r == Fused(cfg, p.mapping.groups[i])
  {
    hide Fused;
    FusedMember(cfg, p.mapping.groups, r);
    assert r in p.out <==> r in multiset(p.out);
  }

  /** Synthetic ids never clash with wire ids or with each other. */
  lemma WireIdsIdentify(cfg: Config, rs: seq<Request>, p: Plan, done: seq<Request>)
    requires ValidConfig(cfg) && Sound(cfg, rs, p, done)
    requires IdsIdentify(rs) && forall r :: r in rs ==> !r.id.Synthetic?
    ensures IdsIdentify(p.out)
    ensures forall r :: r in p.mapping.passthrough ==> r in rs && r in p.out
    ensures forall g :: g in p.mapping.groups ==> Made(cfg, rs, g) && Fused(cfg, g) in p.out
  {
    hide Made, Ineligibles, Eligibles, Eligible, AllFused, AllMembers;
    var gs := p.mapping.groups;
    forall r | r in p.mapping.passthrough
      ensures r in p.out
    {
      OutMember(cfg, p, r);
    }
    forall g | g in gs
      ensures Fused(cfg, g) in p.out
    {
      OutMember(cfg, p, Fused(cfg, g));
    }
    forall a, b | a in p.out && b in p.out && a.id == b.id
      ensures a == b
    {
      OutMember(cfg, p, a);
      OutMember(cfg, p, b);
      if a !in p.mapping.passthrough && b !in p.mapping.passthrough {
        var i :| 0 <= i < |gs| && a == Fused(cfg, gs[i]);
        var j :| 0 <= j < |gs| && b == Fused(cfg, gs[j]);
        assert gs[i].id == gs[j].id;
        TicketsDiffer(cfg, i, j);
      }
    }
  }

  /** What processBatch goes on with: the replies, expanded when there is
      something to undo; Fault when the expansion panics. */
  function Restored(mapping: Option<Mapping>, replies: seq<Reply>): Outcome<seq<Reply>> {
    match mapping
    case None => Decoded(replies)
    case Some(m) => Expanded(replies, m)
  }

  /** Fusion preserves meaning. Whatever the batch, and in whatever order the
      upstream answers the wire requests, expansion yields exactly the replies
      the original requests would have had sent one by one. */
  lemma {:induction false} FusionPreservesMeaning(u: Upstream, cfg: Config, rs: seq<Request>, replies: seq<Reply>)
    requires ValidConfig(cfg) && Aggregates(u, cfg.address) && Wellformed(u, rs)
    requires AnsweredAll(u, Aggregated(cfg, rs).0, replies)
    ensures Restored(Aggregated(cfg, rs).1, replies).Decoded?
    ensures AnsweredAll(u, rs, Restored(Aggregated(cfg, rs).1, replies).value)
  {
    hide Direct, Load, Eligible, Plain, Aggregates, Complete, FullPlan, Faithful, Fused, DirectReplies,
         ExpandPassthrough, ExpandGroups, AllMembers, Eligibles;
    if |Eligibles(rs)| >= 2 {
      var p := FullPlan(cfg, rs);
      FullIsComplete(cfg, rs);
      CompleteIsFaithful(u, cfg, rs, p);
      var m := p.mapping;
      PassthroughAnswered(u, p.out, replies, m.passthrough);
      GroupsAnswered(u, cfg, p.out, replies, m.groups);
      DirectRepliesReordered(u, m.passthrough + AllMembers(m.groups), rs);
      DirectRepliesSplit(u, m.passthrough, AllMembers(m.groups));
    }
  }

  lemma CompleteIsFaithful(u: Upstream, cfg: Config, rs: seq<Request>, p: Plan)
    requires ValidConfig(cfg) && Aggregates(u, cfg.address) && Wellformed(u, rs) && Complete(cfg, rs, p)
    ensures IdsIdentify(p.out)
    ensures multiset(p.mapping.passthrough + AllMembers(p.mapping.groups)) == multiset(rs)
    ensures forall r :: r in p.mapping.passthrough ==> r in p.out
    ensures forall g :: g in p.mapping.groups ==> Faithful(u, cfg, g) && Fused(cfg, g) in p.out
  {
    hide Faithful, Fused, Aggregates, Load, Eligible, AsksRead, Plain, AllMembers, Eligibles, TagOf;
    forall g | g in p.mapping.groups
      ensures Faithful(u, cfg, g)
    {
      assert Made(cfg, rs, g);
      var chunk := Members(g.entries);
      forall r | r in chunk
        ensures Plain(r.params)
      {
        FusableAsksRead(r);
      }
      ChunkFaithful(u, cfg, chunk, g.tag, g.id);
      assert g == Group(g.id, g.tag, EntriesOf(chunk));
    }
  }

  lemma SoundConserves(cfg: Config, rs: seq<Request>, p: Plan, done: seq<Request>)
    requires Sound(cfg, rs, p, done)
    ensures multiset(p.mapping.passthrough + AllMembers(p.mapping.groups)) == multiset(Ineligibles(rs)) + multiset(done)
  {
  }

  /* ---------- Order and number of what goes out ---------- */

  /** xs is what s holds at the positions at, in order. */
  ghost predicate At(s: seq<Request>, at: seq<nat>, xs: seq<Request>) {
    && (forall j, k :: 0 <= j < k < |at| ==> at[j] < at[k])
    && (forall j :: 0 <= j < |at| ==> at[j] < |s|)
    && Picked(s, at) == xs
  }

  lemma AtTaken(s: seq<Request>, at: seq<nat>, xs: seq<Request>, r: Request)
    requires At(s, at, xs)
    ensures At(s + [r], at + [|s|], xs + [r])
  {
    assert Picked(s + [r], at + [|s|]) == Picked(s, at) + [r];
  }

  lemma AtLeft(s: seq<Request>, at: seq<nat>, xs: seq<Request>, r: Request)
    requires At(s, at, xs)
    ensures At(s + [r], at, xs) && |s| !in at
  {
    assert Picked(s + [r], at) == Picked(s, at);
  }

  lemma AtMore(s: seq<Request>, at: seq<nat>, xs: seq<Request>, r: Request, take: bool)
    requires At(s, at, xs)
    ensures At(s + [r], if take then at + [|s|] else at, if take then xs + [r] else xs)
    ensures |s| !in at && forall i :: i in (if take then at + [|s|] else at) <==> i in at || (take && i == |s|)
  {
    AtLeft(s, at, xs, r);
    if take {
      AtTaken(s, at, xs, r);
    }
    hide At;
  }

  /** The fusable calls, and the other requests, each in the order of the batch. */
  lemma {:induction false} SplitInOrder(rs: seq<Request>) returns (yes: seq<nat>, no: seq<nat>)
    ensures At(rs, yes, Eligibles(rs)) && At(rs, no, Ineligibles(rs))
    ensures forall i :: 0 <= i < |rs| ==> (i in yes <==> Eligible(rs[i])) && (i in no <==> !Eligible(rs[i]))
  {
    hide Eligible, At;
    yes, no := [], [];
    if rs == [] {
      assert At(rs, yes, []) by { NothingAt(rs); }
    } else {
      var n := |rs| - 1;
      yes, no := SplitInOrder(rs[..n]);
      assert rs == rs[..n] + [rs[n]];
      AtMore(rs[..n], yes, Eligibles(rs[..n]), rs[n], Eligible(rs[n]));
      AtMore(rs[..n], no, Ineligibles(rs[..n]), rs[n], !Eligible(rs[n]));
      AddedNothing(Eligibles(rs[..n]));
      AddedNothing(Ineligibles(rs[..n]));
      assert forall i :: 0 <= i < n ==> rs[..n][i] == rs[i];
      yes, no := if Eligible(rs[n]) then yes + [n] else yes, if Eligible(rs[n]) then no else no + [n];
    }
  }

  lemma NothingAt(rs: seq<Request>)
    ensures At(rs, [], [])
  {
  }

  lemma AddedNothing(s: seq<Request>)
    ensures s + [] == s
  {
  }

  /** Each tag's calls in the order of the fusable calls. */
  lemma {:induction false} TaggedInOrder(es: seq<Request>, tag: string) returns (at: seq<nat>)
    ensures At(es, at, WithTag(es, tag)) && forall i :: 0 <= i < |es| ==> (i in at <==> TagOf(es[i]) == tag)
  {
    hide TagOf, At;
    at := [];
    if es == [] {
      NothingAt(es);
    } else {
      var n := |es| - 1;
      at := TaggedInOrder(es[..n], tag);
      assert es == es[..n] + [es[n]];
      AtMore(es[..n], at, WithTag(es[..n], tag), es[n], TagOf(es[n]) == tag);
      AddedNothing(WithTag(es[..n], tag));
      assert forall i :: 0 <= i < n ==> es[..n][i] == es[i];
      at := if TagOf(es[n]) == tag then at + [n] else at;
    }
  }

  /** No call has the tag. */
  predicate Untagged(es: seq<Request>, tag: string) {
    forall l :: 0 <= l < |es| ==> TagOf(es[l]) != tag
  }

  /** The tags by first appearance: before a later one's first call there is a call of
      every earlier one. */
  lemma {:induction false} TagsByFirstAppearance(es: seq<Request>, i: nat, j: nat) returns (k: nat)
    requires i < j < |TagOrder(es)|
    ensures k < |es| && TagOf(es[k]) == TagOrder(es)[i] && Untagged(es[..k], TagOrder(es)[j])
  {
    hide TagOf;
    var n := |es| - 1;
    var before := TagOrder(es[..n]);
    if j < |before| {
      k := TagsByFirstAppearance(es[..n], i, j);
      assert es[..n][..k] == es[..k];
    } else {
      k := TagAppears(es[..n], i);
      TagOrderDistinct(es[..n]);
      assert forall l :: 0 <= l < k ==> es[..n][l] in es[..n] && es[..k][l] == es[..n][l];
    }
  }

  lemma {:induction false} TagAppears(es: seq<Request>, i: nat) returns (k: nat)
    requires i < |TagOrder(es)|
    ensures k < |es| && TagOf(es[k]) == TagOrder(es)[i]
  {
    hide TagOf;
    var n := |es| - 1;
    if i < |TagOrder(es[..n])| {
      k := TagAppears(es[..n], i);
    } else {
      k := n;
    }
  }

  /** How many chunks of at most size calls n calls make. */
  function Chunks(n: nat, size: nat): nat
    requires size >= 1
  {
    if n == 0 then 0 else if n <= size then 1 else 1 + Chunks(n - size, size)
  }

  /** As few as can hold them. */
  lemma {:induction false} ChunksAreFewest(n: nat, size: nat)
    requires size >= 1
    ensures n <= Chunks(n, size) * size && (n > 0 ==> (Chunks(n, size) - 1) * size < n)
  {
    if n > size {
      ChunksAreFewest(n - size, size);
    }
  }

  lemma {:induction false} ChunksOut(cfg: Config, p: Plan, calls: seq<Request>, tag: string, start: nat)
    requires cfg.maxCalls >= 1 && start <= |calls|
    ensures |AddChunks(cfg, p, calls, tag, start).out| == |p.out| + Chunks(|calls| - start, cfg.maxCalls)
    decreases |calls| - start
  {
    hide Fused;
    if start < |calls| {
      var end := Min(start + cfg.maxCalls, |calls|);
      var q := AddChunk(cfg, p, calls[start..end], tag);
      assert |q.out| == |p.out| + 1;
      if end == |calls| {
        assert AddChunks(cfg, q, calls, tag, start + cfg.maxCalls) == q;
      } else {
        ChunksOut(cfg, q, calls, tag, end);
      }
    }
  }

  /** The chunks of the first k tags. */
  function AllChunks(cfg: Config, es: seq<Request>, tags: seq<string>, k: nat): nat
    requires cfg.maxCalls >= 1 && k <= |tags|
  {
    if k == 0 then 0 else AllChunks(cfg, es, tags, k - 1) + Chunks(|WithTag(es, tags[k - 1])|, cfg.maxCalls)
  }

  lemma {:induction false} TagsOut(cfg: Config, rs: seq<Request>, tags: seq<string>, k: nat)
    requires cfg.maxCalls >= 1 && k <= |tags|
    ensures |AddTags(cfg, StartPlan(rs), Eligibles(rs), tags, k).out|
         == |Ineligibles(rs)| + AllChunks(cfg, Eligibles(rs), tags, k)
  {
    hide AddChunks, WithTag, Eligible;
    if k > 0 {
      TagsOut(cfg, rs, tags, k - 1);
      ChunksOut(cfg, AddTags(cfg, StartPlan(rs), Eligibles(rs), tags, k - 1), WithTag(Eligibles(rs), tags[k - 1]),
                tags[k - 1], 0);
    }
  }

  /** What fusion saves: besides the requests that are not fused, as few wire requests
      per tag as can hold its calls. */
  lemma WireRequestsExactly(cfg: Config, rs: seq<Request>)
    requires cfg.maxCalls >= 1
    ensures var es := Eligibles(rs);
            |Aggregated(cfg, rs).0| ==
            if |es| < 2 then |rs| else |Ineligibles(rs)| + AllChunks(cfg, es, TagOrder(es), |TagOrder(es)|)
    ensures Aggregated(cfg, rs).1.None? <==> |Eligibles(rs)| < 2
  {
    hide AddTags, AllChunks;
    TagsOut(cfg, rs, TagOrder(Eligibles(rs)), |TagOrder(Eligibles(rs))|);
  }
}
