/** Multicalls as requests: the cache looks only at the calls they wrap, while a
    node also looks at the contract they are addressed to, at the rest of the call
    object and at the block. */
module MulticallRequests {
  import opened Words
  import opened Collections
  import opened Codec
  import opened Rpc
  import opened Decoder
  import opened Tracker
  import opened Cache
  import opened Partial
  import Abi

  /** decodeMulticall: the calls an eth_call wraps, if it wraps any; Fault when
      decoding its calldata panics. */
  function WrappedCalls(r: Request): Outcome<seq<Call3>> {
    if r.rpcMethod != "eth_call" || !r.params.CallParams? || r.params.data == Absent then Rejected
    else DecodeCalls(HexToBytes(r.params.data))
  }

  /** buildMulticallBody: the request that carries only the missing sub-calls. */
  function Reduced(r: Request, miss: seq<Call3>): Request
    requires r.params.CallParams?
  {
    Request(r.id, "eth_call",
            CallParams(r.params.to, HexBytes(CallsBytes(miss)), "", "", "", "", "",
                       BlockText(BlockTag(r.params.block)), false))
  }

  lemma WrappedCount(r: Request)
    requires WrappedCalls(r).Decoded?
    ensures 1 <= |WrappedCalls(r).value| <= 10000
    ensures r.rpcMethod == "eth_call" && r.params.CallParams?
  {
    hide CallArray, WordAt;
  }

  /* ---------- What a node looks at ---------- */

  /** The block a request is about: a tag, or whatever an object says. */
  datatype BlockRef = Tag(tag: string) | Object(json: string)

  /** What a request says besides its target and its data. */
  datatype Context = Context(from: string, gas: string, gasPrice: string, value: string, rest: string,
                             overrides: bool, block: BlockRef)

  function BlockOf(b: BlockParam): BlockRef {
    match b
    case NoBlock => Tag("latest")
    case BlockText(text) => Tag(text)
    case BlockValue(json) => Object(json)
  }

  /** The context a request gives. */
  function Given(p: Params): Context
    requires p.CallParams?
  {
    Context(p.from, p.gas, p.gasPrice, p.value, p.rest, p.overrides, BlockOf(p.block))
  }

  /** Nothing but a block tag. */
  function BareAt(tag: string): Context {
    Context("", "", "", "", "", false, Tag(tag))
  }

  /** The context of the request made from it for the missing sub-calls. */
  function Bare(p: Params): Context
    requires p.CallParams?
  {
    BareAt(BlockTag(p.block))
  }

  /** No modifiers, no further members, no overrides, and a block that is absent or
      a non-empty string. */
  predicate Clean(p: Params) {
    && p.CallParams?
    && p.from == "" && p.gas == "" && p.gasPrice == "" && p.value == "" && p.rest == "" && !p.overrides
    && (p.block.NoBlock? || (p.block.BlockText? && p.block.text != ""))
  }

  /** The reduced request is a multicall of exactly the missing sub-calls for the
      same contract, in a context of its own: that of the original exactly when the
      original is clean. */
  lemma {:induction false} ReducedWrapsMisses(r: Request, calls: seq<Call3>, misses: seq<nat>)
    requires WrappedCalls(r) == Decoded(calls) && 0 < |misses| < |calls|
    requires forall j :: 0 <= j < |misses| ==> misses[j] < |calls|
    requires |CallsBytes(Picked(calls, misses))| < TWO_63
    ensures var reduced := Reduced(r, Picked(calls, misses));
            && WrappedCalls(reduced) == Decoded(Picked(calls, misses))
            && reduced.id == r.id && reduced.params.to == r.params.to
            && Given(reduced.params) == Bare(r.params)
            && (Given(reduced.params) == Given(r.params) <==> Clean(r.params))
  {
    WrappedCount(r);
    ReducedCallDecodes(calls, misses);
    hide CallsBytes, DecodeCalls;
  }

  /* ---------- Nodes ---------- */

  /** The chain as the cache takes it to be: the fixed answers of the immutable reads,
      the address of Multicall3, and the block tags at which both are there. */
  datatype World = World(chain: Chain, oracle: Oracle, home: Address, tags: iset<string>)

  /** No answer's data is longer than a terabyte. */
  const LARGEST := 1_000_000_000_000

  ghost predicate Small(up: Evaluation) {
    forall c: Call3 :: |up(c).returnData| <= LARGEST
  }

  function Truth(w: World): Evaluation {
    (c: Call3) => w.oracle(w.chain, c.target, c.callData)
  }

  ghost predicate ValidWorld(w: World) {
    "" !in w.tags && Small(Truth(w))
  }

  /** What a node replies to an eth_call with this target, this data and this context,
      and what each call that Multicall3 makes in a context comes to. */
  datatype Node = Node(reply: (Hex, Hex, Context) -> Payload, call: (Context, Call3) -> CallResult)

  function Within(call: (Context, Call3) -> CallResult, ctx: Context): Evaluation {
    (c: Call3) => call(ctx, c)
  }

  function At(node: Node, ctx: Context): Evaluation {
    Within(node.call, ctx)
  }

  function Asked(node: Node, r: Request): Payload
    requires r.params.CallParams?
  {
    node.reply(r.params.to, r.params.data, Given(r.params))
  }

  /** The contract at home is Multicall3: calldata that encodes some calls is answered
      with what they come to. Of other contracts and other calldata nothing is said. */
  ghost predicate Aggregates(node: Node, home: Address, ctx: Context) {
    forall calls: seq<Call3> :: 1 <= |calls| <= 10000 && |CallsBytes(calls)| < TWO_63 ==>
      Replies(At(node, ctx), calls, node.reply(HexBytes(home), HexBytes(CallsBytes(calls)), ctx))
  }

  /** In this context the world is at this node as the cache takes it to be. */
  ghost predicate HoldsIn(w: World, node: Node, ctx: Context) {
    Aggregates(node, w.home, ctx) && Respects(At(node, ctx), w.oracle, w.chain) && Small(At(node, ctx))
  }

  /** It is in every bare context. */
  ghost predicate Fixed(w: World, node: Node) {
    forall tag :: tag in w.tags ==> HoldsIn(w, node, BareAt(tag))
  }

  /** And in this context too. */
  ghost predicate FixedIn(w: World, node: Node, ctx: Context) {
    Fixed(w, node) && HoldsIn(w, node, ctx)
  }

  /** The request is addressed to Multicall3 and its data is the encoding of the calls. */
  predicate Addressed(w: World, r: Request, calls: seq<Call3>) {
    r.params.CallParams? && r.params.to == HexBytes(w.home) && r.params.data == HexBytes(CallsBytes(calls))
  }

  predicate Timely(w: World, p: Params) {
    p.CallParams? && BlockTag(p.block) in w.tags
  }

  lemma CleanIsBare(p: Params)
    requires p.CallParams?
    ensures Clean(p) <==> Given(p) == Bare(p)
    ensures Clean(p) <==> Given(p).block.Tag? && Given(p).block.tag != "" && Given(p) == BareAt(Given(p).block.tag)
  {
  }

  lemma {:induction false} SmallTails(rs: seq<CallResult>, k: nat)
    requires k <= |rs| && forall i :: 0 <= i < |rs| ==> |rs[i].returnData| <= LARGEST
    ensures |Abi.Tails(ResultValues(rs), k)| <= (LARGEST + 128) * k
  {
    hide Abi.Enc, Abi.Dynamic, Abi.Tail, ResultsBytes, Abi.Heads, ResultValues;
    if k > 0 {
      SmallTails(rs, k - 1);
      ResultsLayout(rs);
      assert |Abi.Tail(ResultValues(rs)[k - 1])| <= LARGEST + 128;
    }
  }

  /** What the client of a multicall makes of the reply. */
  lemma ReplyRead(up: Evaluation, calls: seq<Call3>, reply: Payload)
    requires Replies(up, calls, reply) && Small(up) && |calls| <= 10000
    ensures Fetched(reply, |calls|) == if Tolerated(up, calls) then Decoded(Evaluated(up, calls)) else Rejected
    ensures HasError(reply) <==> !Tolerated(up, calls)
  {
    var rs := Evaluated(up, calls);
    SmallTails(rs, |rs|);
    ResultsLayout(rs);
    hide ResultsBytes, Abi.Tails, Fetched;
    FetchedExactly(up, calls, reply);
  }

  /* ---------- Nodes for the other direction ---------- */

  ghost function Aggregate(up: Evaluation, calls: seq<Call3>): Payload {
    if Tolerated(up, calls) then HexResult(ResultsBytes(Evaluated(up, calls))) else UpstreamError("{}")
  }

  /** The calls that the data encodes, if it encodes any. */
  function CallsIn(data: Hex): seq<Call3> {
    match DecodeCalls(HexToBytes(data))
    case Decoded(calls) => calls
    case _ => []
  }

  /** It encodes them in the standard way. */
  predicate Standard(data: Hex) {
    data.HexBytes? && CallsBytes(CallsIn(data)) == data.bytes
  }

  /** Multicall3 is at home in some contexts; every other request gets another reply. */
  ghost function Running(home: Address, runs: Context -> bool, call: (Context, Call3) -> CallResult,
                         otherwise: Payload): (node: Node)
    ensures node.call == call
    ensures forall to, data, ctx :: node.reply(to, data, ctx) ==
              if runs(ctx) && to == HexBytes(home) && Standard(data) then Aggregate(Within(call, ctx), CallsIn(data))
              else otherwise
  {
    Node((to: Hex, data: Hex, ctx: Context) =>
           if runs(ctx) && to == HexBytes(home) && Standard(data) then Aggregate(Within(call, ctx), CallsIn(data))
           else otherwise,
         call)
  }

  lemma EncodedIsStandard(calls: seq<Call3>)
    requires 1 <= |calls| <= 10000 && |CallsBytes(calls)| < TWO_63
    ensures Standard(HexBytes(CallsBytes(calls))) && CallsIn(HexBytes(CallsBytes(calls))) == calls
  {
    hide DecodeCalls, CallsBytes;
    DecodeCallsInvertsEncode(calls);
  }

  lemma RunningAggregates(home: Address, runs: Context -> bool, call: (Context, Call3) -> CallResult,
                          otherwise: Payload, ctx: Context)
    requires runs(ctx)
    ensures Aggregates(Running(home, runs, call, otherwise), home, ctx)
  {
    hide CallsIn, CallsBytes, ResultsBytes, Standard, Running;
    var node := Running(home, runs, call, otherwise);
    forall calls: seq<Call3> | 1 <= |calls| <= 10000 && |CallsBytes(calls)| < TWO_63
      ensures Replies(At(node, ctx), calls, node.reply(HexBytes(home), HexBytes(CallsBytes(calls)), ctx))
    {
      EncodedIsStandard(calls);
    }
  }

  /** In the bare contexts of the world, and in one more. */
  function RunsIn(w: World, more: Context -> bool): Context -> bool {
    (ctx: Context) => (ctx.block.Tag? && ctx.block.tag in w.tags && ctx == BareAt(ctx.block.tag)) || more(ctx)
  }

  /** The fixed answers for the immutable reads, and one answer for everything else. */
  function Plainly(w: World, rest: Context -> CallResult): (Context, Call3) -> CallResult {
    (ctx: Context, c: Call3) => if Immutable(c.callData) then w.oracle(w.chain, c.target, c.callData) else rest(ctx)
  }

  /** Such a node is fixed, wherever it runs Multicall3. */
  lemma PlainlyHolds(w: World, runs: Context -> bool, rest: Context -> CallResult, otherwise: Payload, ctx: Context)
    requires ValidWorld(w) && runs(ctx) && |rest(ctx).returnData| <= LARGEST
    ensures HoldsIn(w, Running(w.home, runs, Plainly(w, rest), otherwise), ctx)
  {
    hide Immutable, Standard, Aggregates;
    var node := Running(w.home, runs, Plainly(w, rest), otherwise);
    RunningAggregates(w.home, runs, Plainly(w, rest), otherwise, ctx);
    forall c: Call3
      ensures |At(node, ctx)(c).returnData| <= LARGEST
    {
      assert |Truth(w)(c).returnData| <= LARGEST;
    }
  }

  lemma PlainlyFixed(w: World, more: Context -> bool, rest: Context -> CallResult, otherwise: Payload)
    requires ValidWorld(w) && forall ctx :: |rest(ctx).returnData| <= LARGEST
    ensures var node := Running(w.home, RunsIn(w, more), Plainly(w, rest), otherwise);
            && Fixed(w, node)
            && forall ctx :: more(ctx) ==> HoldsIn(w, node, ctx)
  {
    hide Running, Plainly, HoldsIn, ValidWorld;
    forall ctx | RunsIn(w, more)(ctx)
      ensures HoldsIn(w, Running(w.home, RunsIn(w, more), Plainly(w, rest), otherwise), ctx)
    {
      PlainlyHolds(w, RunsIn(w, more), rest, otherwise, ctx);
    }
    assert forall tag :: tag in w.tags ==> RunsIn(w, more)(BareAt(tag));
  }

  /** A request that does not go to Multicall3, or not in one of those contexts, or not
      in the standard encoding, gets the other reply. */
  lemma OtherwiseReplied(w: World, more: Context -> bool, call: (Context, Call3) -> CallResult, otherwise: Payload,
                         r: Request, calls: seq<Call3>)
    requires ValidWorld(w) && WrappedCalls(r) == Decoded(calls) && !more(Given(r.params))
    requires !(Addressed(w, r, calls) && Clean(r.params) && Timely(w, r.params))
    ensures Asked(Running(w.home, RunsIn(w, more), call, otherwise), r) == otherwise
  {
    hide DecodeCalls, CallsBytes, Running;
    CleanIsBare(r.params);
  }

  lemma StrangerReplied(w: World, runs: Context -> bool, call: (Context, Call3) -> CallResult, otherwise: Payload,
                        r: Request, calls: seq<Call3>)
    requires WrappedCalls(r) == Decoded(calls) && !Addressed(w, r, calls)
    ensures Asked(Running(w.home, runs, call, otherwise), r) == otherwise
  {
    hide DecodeCalls, CallsBytes, Running;
  }

  const JUNK := OtherResult("{}")

  /* ---------- Partial serving ---------- */

  /** The reply asked for says the same as the results given for the calls: equal
      results at the positions sent and ones that stand for the cached answers at the
      others. An error says it too if a cached failure is of a call that may not fail. */
  ghost predicate Matches(asked: Payload, calls: seq<Call3>, sent: seq<nat>, rs: seq<CallResult>)
    requires |rs| == |calls|
  {
    match Fetched(asked, |calls|)
    case Decoded(actual) =>
      forall i :: 0 <= i < |calls| ==> if i in sent then rs[i] == actual[i] else StandsFor(rs[i], actual[i])
    case _ =>
      && HasError(asked)
      && exists i :: CachedFailure(rs, sent, i) && !calls[i].allowFailure
  }

  /** What the client gets when the plan is completed is the reply to its own request:
      an error when the reduced request's reply is not usable, and otherwise the
      results filled in. */
  ghost predicate AnswersRequest(node: Node, r: Request, calls: seq<Call3>, results: seq<CallResult>,
                                 misses: seq<nat>)
    requires r.params.CallParams? && |results| == |calls| && forall j :: 0 <= j < |misses| ==> misses[j] < |calls|
  {
    match Fetched(Asked(node, Reduced(r, Picked(calls, misses))), |misses|)
    case Decoded(got) => Matches(Asked(node, r), calls, misses, Overwritten(results, misses, got, |misses|))
    case Rejected => HasError(Asked(node, r))
    case Fault => false
  }

  /** An immutable read that may not fail does: then the whole call does. */
  ghost predicate Doomed(w: World, calls: seq<Call3>) {
    exists i :: && 0 <= i < |calls| && Immutable(calls[i].callData)
                && !Truth(w)(calls[i]).success && !calls[i].allowFailure
  }

  /** The draft of a plan for a request that Go can hold. */
  ghost predicate Planning(w: World, r: Request, calls: seq<Call3>, results: seq<CallResult>, misses: seq<nat>) {
    && ValidWorld(w) && WrappedCalls(r) == Decoded(calls)
    && 0 < |misses| < |calls| == |results| && GoodDraft(w.oracle, w.chain, calls, results, misses)
    && |CallsBytes(calls)| < TWO_63 && |CallsBytes(Picked(calls, misses))| < TWO_63
  }

  /** Both replies of such a node, read. */
  lemma PlanReplies(w: World, r: Request, calls: seq<Call3>, results: seq<CallResult>, misses: seq<nat>, node: Node)
    requires Planning(w, r, calls, results, misses) && Addressed(w, r, calls)
    requires HoldsIn(w, node, Given(r.params)) && HoldsIn(w, node, Bare(r.params))
    ensures forall j :: 0 <= j < |misses| ==> misses[j] < |calls|
    ensures var up, bare, cs := At(node, Given(r.params)), At(node, Bare(r.params)), Picked(calls, misses);
            && Fetched(Asked(node, r), |calls|)
               == (if Tolerated(up, calls) then Decoded(Evaluated(up, calls)) else Rejected)
            && (HasError(Asked(node, r)) <==> !Tolerated(up, calls))
            && Fetched(Asked(node, Reduced(r, cs)), |misses|)
               == (if Tolerated(bare, cs) then Decoded(Evaluated(bare, cs)) else Rejected)
  {
    hide CallsBytes, DecodeCalls, Fetched, Replies, Respects, Small, Tolerated, Immutable, StandsFor;
    var cs := Picked(calls, misses);
    WrappedCount(r);
    ReplyRead(At(node, Given(r.params)), calls, Asked(node, r));
    ReplyRead(At(node, Bare(r.params)), cs, Asked(node, Reduced(r, cs)));
  }

  /** Where Multicall3 evaluates the misses alone as it evaluates them in the whole
      call, completing the plan answers the request. */
  lemma PointwiseIsAnswered(w: World, r: Request, calls: seq<Call3>, results: seq<CallResult>, misses: seq<nat>,
                            node: Node)
    requires Planning(w, r, calls, results, misses) && Addressed(w, r, calls)
    requires HoldsIn(w, node, Given(r.params)) && HoldsIn(w, node, Bare(r.params))
    requires forall j :: 0 <= j < |misses| && misses[j] < |calls| ==>
               At(node, Given(r.params))(calls[misses[j]]) == At(node, Bare(r.params))(calls[misses[j]])
    ensures AnswersRequest(node, r, calls, results, misses)
  {
    PlanReplies(w, r, calls, results, misses, node);
    hide Addressed, Given, Bare, Fetched, Immutable, Aggregates, Small, StandsFor, Asked, At, CallsBytes,
         WrappedCalls, ValidWorld, Reduced;
    var cs, up, bare := Picked(calls, misses), At(node, Given(r.params)), At(node, Bare(r.params));
    assert Evaluated(bare, cs) == Evaluated(up, cs);
    assert Tolerated(bare, cs) == Tolerated(up, cs);
    StandingTolerated(w, up, calls, results, misses);
    if Tolerated(up, cs) {
      MergedMatches(w, up, calls, results, misses, Asked(node, r));
    }
    hide Matches, Tolerated, Respects, GoodDraft;
  }

  lemma MergedMatches(w: World, up: Evaluation, calls: seq<Call3>, results: seq<CallResult>, misses: seq<nat>,
                      asked: Payload)
    requires GoodDraft(w.oracle, w.chain, calls, results, misses) && |results| == |calls|
    requires Respects(up, w.oracle, w.chain) && Tolerated(up, Picked(calls, misses))
    requires Fetched(asked, |calls|) == if Tolerated(up, calls) then Decoded(Evaluated(up, calls)) else Rejected
    requires HasError(asked) <==> !Tolerated(up, calls)
    ensures Matches(asked, calls, misses, Overwritten(results, misses, Evaluated(up, Picked(calls, misses)), |misses|))
  {
    var got := Evaluated(up, Picked(calls, misses));
    MergedAnswers(w.oracle, up, w.chain, calls, results, misses);
    StandingTolerated(w, up, calls, results, misses);
    PlacedFailures(results, misses, got);
    hide Fetched, StandsFor, Respects, Tolerated, Immutable;
  }

  /** The draft's results stand for what the calls come to, wherever immutable reads
      have their fixed answers. */
  lemma StandingTolerated(w: World, up: Evaluation, calls: seq<Call3>, results: seq<CallResult>, misses: seq<nat>)
    requires GoodDraft(w.oracle, w.chain, calls, results, misses) && |results| == |calls|
    requires Respects(up, w.oracle, w.chain)
    ensures Tolerated(up, calls) <==>
              && Tolerated(up, Picked(calls, misses))
              && forall i :: CachedFailure(results, misses, i) ==> calls[i].allowFailure
  {
    hide Immutable;
    ToleratedExactly(up, calls, results, misses);
  }

  /** Filling in the misses leaves the failures the plan holds where they are. */
  lemma PlacedFailures(results: seq<CallResult>, misses: seq<nat>, got: seq<CallResult>)
    requires |got| == |misses| && (forall j :: 0 <= j < |misses| ==> misses[j] < |results|)
    requires forall j, l :: 0 <= j < l < |misses| ==> misses[j] < misses[l]
    ensures forall i :: CachedFailure(Overwritten(results, misses, got, |misses|), misses, i) <==>
                        CachedFailure(results, misses, i)
  {
    OverwrittenAt(results, misses, got, |misses|);
    assert misses[..|misses|] == misses;
  }

  /** Then it is no miss the reduced call tolerates, but a failure the plan holds. */
  lemma DoomedByPlan(w: World, up: Evaluation, calls: seq<Call3>, results: seq<CallResult>, misses: seq<nat>)
    requires GoodDraft(w.oracle, w.chain, calls, results, misses) && |results| == |calls|
    requires Respects(up, w.oracle, w.chain) && Doomed(w, calls)
    ensures !Tolerated(up, calls)
    ensures Tolerated(up, Picked(calls, misses)) ==>
              exists i :: CachedFailure(results, misses, i) && !calls[i].allowFailure
  {
    var i :| 0 <= i < |calls| && Immutable(calls[i].callData) && !Truth(w)(calls[i]).success && !calls[i].allowFailure;
    hide Immutable, GoodDraft;
    assert !up(calls[i]).success;
    StandingTolerated(w, up, calls, results, misses);
  }

  lemma DoomedIsAnswered(w: World, r: Request, calls: seq<Call3>, results: seq<CallResult>, misses: seq<nat>,
                         node: Node)
    requires Planning(w, r, calls, results, misses) && Addressed(w, r, calls) && Doomed(w, calls)
    requires HoldsIn(w, node, Given(r.params)) && HoldsIn(w, node, Bare(r.params))
    ensures AnswersRequest(node, r, calls, results, misses)
  {
    PlanReplies(w, r, calls, results, misses, node);
    hide Addressed, Given, Bare, Fetched, Aggregates, Small, Asked, At, CallsBytes, WrappedCalls, ValidWorld, Reduced,
         Immutable, Doomed, Tolerated, StandsFor, Respects;
    var cs, up, bare := Picked(calls, misses), At(node, Given(r.params)), At(node, Bare(r.params));
    DoomedByPlan(w, up, calls, results, misses);
    DoomedByPlan(w, bare, calls, results, misses);
    PlacedFailures(results, misses, Evaluated(bare, cs));
  }

  lemma JunkIsNoAnswer(node: Node, r: Request, calls: seq<Call3>, results: seq<CallResult>, misses: seq<nat>)
    requires r.params.CallParams? && |results| == |calls| && forall j :: 0 <= j < |misses| ==> misses[j] < |calls|
    requires Asked(node, r) == JUNK
    ensures !AnswersRequest(node, r, calls, results, misses)
  {
    hide DecodeResults, CallsBytes, Asked;
  }

  /** A missed call that comes to something else in the request's own context than in
      a bare one has the wrong result at its position. */
  lemma DifferentIsWrong(w: World, r: Request, calls: seq<Call3>, results: seq<CallResult>, misses: seq<nat>, j: nat,
                         node: Node)
    requires Planning(w, r, calls, results, misses) && Addressed(w, r, calls)
    requires HoldsIn(w, node, Given(r.params)) && HoldsIn(w, node, Bare(r.params))
    requires j < |misses| && misses[j] < |calls|
    requires At(node, Given(r.params))(calls[misses[j]]) != At(node, Bare(r.params))(calls[misses[j]])
    requires Tolerated(At(node, Given(r.params)), calls) && Tolerated(At(node, Bare(r.params)), Picked(calls, misses))
    ensures !AnswersRequest(node, r, calls, results, misses)
  {
    PlanReplies(w, r, calls, results, misses, node);
    hide Addressed, Given, Bare, Fetched, Asked, At, CallsBytes, WrappedCalls, ValidWorld, Reduced, Immutable,
         Tolerated, HoldsIn;
    OverwrittenAt(results, misses, Evaluated(At(node, Bare(r.params)), Picked(calls, misses)), |misses|);
    assert misses[j] in misses;
  }

  lemma MutableIsWrong(w: World, r: Request, calls: seq<Call3>, results: seq<CallResult>, misses: seq<nat>, j: nat)
    requires Planning(w, r, calls, results, misses) && Addressed(w, r, calls) && Timely(w, r.params)
    requires !Clean(r.params) && !Doomed(w, calls)
    requires j < |misses| && misses[j] < |calls| && !Immutable(calls[misses[j]].callData)
    requires forall l :: 0 <= l < |misses| ==> misses[l] < |calls|
    ensures exists node :: FixedIn(w, node, Given(r.params)) && !AnswersRequest(node, r, calls, results, misses)
  {
    hide DecodeCalls, CallsBytes, GoodDraft, Tolerated, HoldsIn, AnswersRequest;
    var given, bare := Given(r.params), Bare(r.params);
    var rest := (ctx: Context) => CallResult(true, [if ctx == given then 0 else 1]);
    var own := (ctx: Context) => ctx == given;
    PlainlyFixed(w, own, rest, JUNK);
    var node := Running(w.home, RunsIn(w, own), Plainly(w, rest), JUNK);
    CleanIsBare(r.params);
    NotDoomed(w, rest, given, calls);
    NotDoomedMisses(w, rest, bare, calls, misses);
    assert HoldsIn(w, node, given) && HoldsIn(w, node, bare);
    assert At(node, given)(calls[misses[j]]).returnData[0] == 0;
    assert At(node, bare)(calls[misses[j]]).returnData[0] == 1;
    hide Immutable;
    DifferentIsWrong(w, r, calls, results, misses, j, node);
  }

  lemma NotDoomedMisses(w: World, rest: Context -> CallResult, ctx: Context, calls: seq<Call3>, misses: seq<nat>)
    requires !Doomed(w, calls) && rest(ctx).success && forall j :: 0 <= j < |misses| ==> misses[j] < |calls|
    ensures Tolerated(Within(Plainly(w, rest), ctx), Picked(calls, misses))
  {
    hide Immutable;
    NotDoomed(w, rest, ctx, Picked(calls, misses));
  }

  lemma NotDoomed(w: World, rest: Context -> CallResult, ctx: Context, calls: seq<Call3>)
    requires !Doomed(w, calls) && rest(ctx).success
    ensures Tolerated(Within(Plainly(w, rest), ctx), calls)
  {
    hide Immutable;
  }

  /** A request for Multicall3 at a block tag without its contracts: what the reduced
      request is replied to can bring the decoder down. */
  lemma UntimelyIsWrong(w: World, r: Request, calls: seq<Call3>, results: seq<CallResult>, misses: seq<nat>)
    requires Planning(w, r, calls, results, misses) && !Timely(w, r.params) && !Clean(r.params)
    requires r.params.CallParams? && forall j :: 0 <= j < |misses| ==> misses[j] < |calls|
    ensures exists node :: FixedIn(w, node, Given(r.params)) && !AnswersRequest(node, r, calls, results, misses)
  {
    hide DecodeResults, DecodeCalls, CallsBytes, Plainly, Running, HoldsIn, GoodDraft, Picked;
    var ones: seq<byte> := seq(32, _ => 255);
    AllOnesOffsetFaults();
    var given := Given(r.params);
    var own := (ctx: Context) => ctx == given;
    var rest := (ctx: Context) => UNSET;
    PlainlyFixed(w, own, rest, HexResult(ones + ones));
    var node := Running(w.home, RunsIn(w, own), Plainly(w, rest), HexResult(ones + ones));
    CleanIsBare(r.params);
    var reduced := Reduced(r, Picked(calls, misses));
    WrappedCount(r);
    ReducedCallDecodes(calls, misses);
    OtherwiseReplied(w, own, Plainly(w, rest), HexResult(ones + ones), reduced, Picked(calls, misses));
    assert Fetched(Asked(node, reduced), |misses|).Fault?;
    assert !AnswersRequest(node, r, calls, results, misses);
  }

  /** Completing a plan answers the request at every node where the world is as the
      cache takes it to be, exactly when the request goes to Multicall3, says nothing
      else, and names a block where the contracts are. Among nodes where the world is
      so in the request's own context too, the condition is that it goes to Multicall3
      and, unless it says nothing else, that the block tag put in its place is such a
      one and the missed calls are all immutable reads, or the call as a whole fails. */
  lemma {:induction false} PartialServingExactly(w: World, r: Request, calls: seq<Call3>, results: seq<CallResult>,
                                                 misses: seq<nat>)
    requires Planning(w, r, calls, results, misses)
    ensures r.params.CallParams? && forall j :: 0 <= j < |misses| ==> misses[j] < |calls|
    ensures (forall node :: Fixed(w, node) ==> AnswersRequest(node, r, calls, results, misses)) <==>
            Addressed(w, r, calls) && Clean(r.params) && Timely(w, r.params)
    ensures (forall node :: FixedIn(w, node, Given(r.params)) ==> AnswersRequest(node, r, calls, results, misses)) <==>
            && Addressed(w, r, calls)
            && (|| Clean(r.params)
                || (Timely(w, r.params)
                    && (Doomed(w, calls) || forall j :: 0 <= j < |misses| ==> Immutable(calls[misses[j]].callData))))
  {
    assert forall j :: 0 <= j < |misses| ==> misses[j] < |calls|;
    FixedIsAnsweredExactly(w, r, calls, results, misses);
    FixedInIsAnsweredExactly(w, r, calls, results, misses);
  }

  lemma FixedIsAnsweredExactly(w: World, r: Request, calls: seq<Call3>, results: seq<CallResult>, misses: seq<nat>)
    requires Planning(w, r, calls, results, misses)
    requires r.params.CallParams? && forall j :: 0 <= j < |misses| ==> misses[j] < |calls|
    ensures (forall node :: Fixed(w, node) ==> AnswersRequest(node, r, calls, results, misses)) <==>
            Addressed(w, r, calls) && Clean(r.params) && Timely(w, r.params)
  {
    hide GoodDraft, AnswersRequest, HoldsIn, Immutable, DecodeCalls, CallsBytes;
    CleanIsBare(r.params);
    if Addressed(w, r, calls) && Clean(r.params) && Timely(w, r.params) {
      forall node | Fixed(w, node)
        ensures AnswersRequest(node, r, calls, results, misses)
      {
        PointwiseIsAnswered(w, r, calls, results, misses, node);
      }
    } else {
      var none := (ctx: Context) => false;
      PlainlyFixed(w, none, _ => UNSET, JUNK);
      var node := Running(w.home, RunsIn(w, none), Plainly(w, _ => UNSET), JUNK);
      OtherwiseReplied(w, none, Plainly(w, _ => UNSET), JUNK, r, calls);
      JunkIsNoAnswer(node, r, calls, results, misses);
    }
  }

  lemma FixedInIsAnsweredExactly(w: World, r: Request, calls: seq<Call3>, results: seq<CallResult>, misses: seq<nat>)
    requires Planning(w, r, calls, results, misses)
    requires r.params.CallParams? && forall j :: 0 <= j < |misses| ==> misses[j] < |calls|
    ensures (forall node :: FixedIn(w, node, Given(r.params)) ==> AnswersRequest(node, r, calls, results, misses)) <==>
            && Addressed(w, r, calls)
            && (|| Clean(r.params)
                || (Timely(w, r.params)
                    && (Doomed(w, calls) || forall j :: 0 <= j < |misses| ==> Immutable(calls[misses[j]].callData))))
  {
    hide GoodDraft, AnswersRequest, HoldsIn, Immutable, DecodeCalls, CallsBytes, Running, Plainly, Doomed;
    CleanIsBare(r.params);
    if !Addressed(w, r, calls) {
      var own, rest := (ctx: Context) => ctx == Given(r.params), (ctx: Context) => UNSET;
      PlainlyFixed(w, own, rest, JUNK);
      var node := Running(w.home, RunsIn(w, own), Plainly(w, rest), JUNK);
      StrangerReplied(w, RunsIn(w, own), Plainly(w, rest), JUNK, r, calls);
      JunkIsNoAnswer(node, r, calls, results, misses);
    } else if !Clean(r.params) && !Timely(w, r.params) {
      UntimelyIsWrong(w, r, calls, results, misses);
    } else if !Clean(r.params) && !Doomed(w, calls)
              && exists j :: 0 <= j < |misses| && !Immutable(calls[misses[j]].callData) {
      var j :| 0 <= j < |misses| && !Immutable(calls[misses[j]].callData);
      MutableIsWrong(w, r, calls, results, misses, j);
    } else {
      forall node | FixedIn(w, node, Given(r.params))
        ensures AnswersRequest(node, r, calls, results, misses)
      {
        assert HoldsIn(w, node, Given(r.params)) && HoldsIn(w, node, Bare(r.params));
        if Doomed(w, calls) {
          DoomedIsAnswered(w, r, calls, results, misses, node);
        } else {
          SameMisses(w, r.params, calls, misses, node);
          PointwiseIsAnswered(w, r, calls, results, misses, node);
        }
      }
    }
  }

  lemma SameMisses(w: World, p: Params, calls: seq<Call3>, misses: seq<nat>, node: Node)
    requires p.CallParams? && HoldsIn(w, node, Given(p)) && HoldsIn(w, node, Bare(p))
    requires forall j :: 0 <= j < |misses| ==> misses[j] < |calls|
    requires Clean(p) || forall j :: 0 <= j < |misses| ==> Immutable(calls[misses[j]].callData)
    ensures forall j :: 0 <= j < |misses| ==>
              At(node, Given(p))(calls[misses[j]]) == At(node, Bare(p))(calls[misses[j]])
  {
    hide Immutable, Aggregates;
    CleanIsBare(p);
  }

  /* ---------- Whole serving ---------- */

  /** What was served is the reply to the request. */
  ghost predicate ServesRequest(node: Node, r: Request, calls: seq<Call3>, rs: seq<CallResult>)
    requires r.params.CallParams? && |rs| == |calls|
  {
    Matches(Asked(node, r), calls, [], rs)
  }

  lemma ServedIsAnswered(cfg: Settings, w: World, s: Store, r: Request, calls: seq<Call3>, clock: Clock, node: Node)
    requires Addressed(w, r, calls) && WrappedCalls(r) == Decoded(calls) && |CallsBytes(calls)| < TWO_63
    requires Agrees(w.oracle, s) && Served(cfg, s, w.chain, calls, clock, |calls|).1.Some?
    requires HoldsIn(w, node, Given(r.params))
    ensures ServesRequest(node, r, calls, Served(cfg, s, w.chain, calls, clock, |calls|).1.value)
  {
    hide Agrees, Served, CallsBytes, DecodeCalls, Fetched, Replies, Respects, Small;
    var up, rs := At(node, Given(r.params)), Served(cfg, s, w.chain, calls, clock, |calls|).1.value;
    WrappedCount(r);
    ReplyRead(up, calls, Asked(node, r));
    ServedAnswers(cfg, w.oracle, up, s, w.chain, calls, clock, |calls|);
    ServedToleratedExactly(cfg, w.oracle, up, s, w.chain, calls, clock);
    hide StandsFor, Tolerated, Asked, At;
    var none: seq<nat> := [];
    forall i | 0 <= i < |calls| && !rs[i].success
      ensures CachedFailure(rs, none, i)
    {
    }
  }

  /** Whole serving answers the request at every such node exactly when the request
      goes to Multicall3, says nothing else, and names a block where the contracts are;
      among nodes where the world is as it should be in the request's own context,
      exactly when it goes to Multicall3. */
  lemma {:induction false} WholeServingExactly(cfg: Settings, w: World, s: Store, r: Request, calls: seq<Call3>,
                                               clock: Clock)
    requires ValidWorld(w) && Agrees(w.oracle, s)
    requires WrappedCalls(r) == Decoded(calls) && |CallsBytes(calls)| < TWO_63
    requires Served(cfg, s, w.chain, calls, clock, |calls|).1.Some?
    ensures r.params.CallParams?
    ensures var rs := Served(cfg, s, w.chain, calls, clock, |calls|).1.value;
            && ((forall node :: Fixed(w, node) ==> ServesRequest(node, r, calls, rs)) <==>
                  Addressed(w, r, calls) && Clean(r.params) && Timely(w, r.params))
            && ((forall node :: FixedIn(w, node, Given(r.params)) ==> ServesRequest(node, r, calls, rs)) <==>
                  Addressed(w, r, calls))
  {
    hide Agrees, Served, HoldsIn, DecodeCalls, CallsBytes, Running, Plainly, ServesRequest;
    var rs := Served(cfg, s, w.chain, calls, clock, |calls|).1.value;
    CleanIsBare(r.params);
    if Addressed(w, r, calls) {
      forall node | HoldsIn(w, node, Given(r.params))
        ensures ServesRequest(node, r, calls, rs)
      {
        ServedIsAnswered(cfg, w, s, r, calls, clock, node);
      }
    }
    var none, rest := (ctx: Context) => false, (ctx: Context) => UNSET;
    if !(Addressed(w, r, calls) && Clean(r.params) && Timely(w, r.params)) {
      PlainlyFixed(w, none, rest, JUNK);
      var node := Running(w.home, RunsIn(w, none), Plainly(w, rest), JUNK);
      OtherwiseReplied(w, none, Plainly(w, rest), JUNK, r, calls);
      JunkIsNotServed(node, r, calls, rs);
    }
    if !Addressed(w, r, calls) {
      var own := (ctx: Context) => ctx == Given(r.params);
      PlainlyFixed(w, own, rest, JUNK);
      var node := Running(w.home, RunsIn(w, own), Plainly(w, rest), JUNK);
      StrangerReplied(w, RunsIn(w, own), Plainly(w, rest), JUNK, r, calls);
      JunkIsNotServed(node, r, calls, rs);
    }
  }

  lemma JunkIsNotServed(node: Node, r: Request, calls: seq<Call3>, rs: seq<CallResult>)
    requires r.params.CallParams? && |rs| == |calls| && Asked(node, r) == JUNK
    ensures !ServesRequest(node, r, calls, rs)
  {
    hide Asked;
  }

  /* ---------- What is stored ---------- */

  /** Storing the reply to the request keeps the cache truthful. */
  ghost predicate StoresTruth(cfg: Settings, w: World, s: Store, r: Request, calls: seq<Call3>,
                              times: nat -> Instant, node: Node)
    requires r.params.CallParams?
  {
    match Fetched(Asked(node, r), |calls|)
    case Decoded(rs) => Agrees(w.oracle, Remembered(cfg, s, w.chain, calls, rs, times, |calls|))
    case _ => true
  }

  /** Storing the upstream's reply to what is taken for a multicall keeps the cache
      truthful at every such node exactly when the request goes to Multicall3, says
      nothing else and names a block where the contracts are, or wraps no immutable
      read; among nodes where the world is as it should be in the request's own
      context, exactly when it goes to Multicall3 or wraps no immutable read. */
  lemma {:induction false} StoringExactly(cfg: Settings, w: World, s: Store, r: Request, calls: seq<Call3>,
                                          times: nat -> Instant)
    requires cfg.enabled && ValidWorld(w) && Agrees(w.oracle, s)
    requires WrappedCalls(r) == Decoded(calls) && |CallsBytes(calls)| < TWO_63
    ensures r.params.CallParams?
    ensures var harmless := forall i :: 0 <= i < |calls| ==> !Immutable(calls[i].callData);
            && ((forall node :: Fixed(w, node) ==> StoresTruth(cfg, w, s, r, calls, times, node)) <==>
                  harmless || (Addressed(w, r, calls) && Clean(r.params) && Timely(w, r.params)))
            && ((forall node :: FixedIn(w, node, Given(r.params)) ==>
                                  StoresTruth(cfg, w, s, r, calls, times, node)) <==>
                  harmless || Addressed(w, r, calls))
  {
    hide Agrees, HoldsIn, DecodeCalls, CallsBytes, Running, Plainly, StoresTruth, Immutable, Remembered;
    CleanIsBare(r.params);
    WrappedCount(r);
    if forall i :: 0 <= i < |calls| ==> !Immutable(calls[i].callData) {
      forall node
        ensures StoresTruth(cfg, w, s, r, calls, times, node)
      {
        NothingStored(cfg, w, s, r, calls, times, node);
      }
    } else {
      var i :| 0 <= i < |calls| && Immutable(calls[i].callData);
      if Addressed(w, r, calls) {
        forall node | HoldsIn(w, node, Given(r.params))
          ensures StoresTruth(cfg, w, s, r, calls, times, node)
        {
          TruthIsStored(cfg, w, s, r, calls, times, node);
        }
      }
      var lies := HexResult(ResultsBytes(Evaluated(Lie(w), calls)));
      var none, rest := (ctx: Context) => false, (ctx: Context) => UNSET;
      if !(Addressed(w, r, calls) && Clean(r.params) && Timely(w, r.params)) {
        PlainlyFixed(w, none, rest, lies);
        var node := Running(w.home, RunsIn(w, none), Plainly(w, rest), lies);
        OtherwiseReplied(w, none, Plainly(w, rest), lies, r, calls);
        LiesAreStored(cfg, w, s, r, calls, times, i, node);
      }
      if !Addressed(w, r, calls) {
        var own := (ctx: Context) => ctx == Given(r.params);
        PlainlyFixed(w, own, rest, lies);
        var node := Running(w.home, RunsIn(w, own), Plainly(w, rest), lies);
        StrangerReplied(w, RunsIn(w, own), Plainly(w, rest), lies, r, calls);
        LiesAreStored(cfg, w, s, r, calls, times, i, node);
      }
    }
  }

  lemma TruthIsStored(cfg: Settings, w: World, s: Store, r: Request, calls: seq<Call3>, times: nat -> Instant,
                      node: Node)
    requires Addressed(w, r, calls) && WrappedCalls(r) == Decoded(calls) && |CallsBytes(calls)| < TWO_63
    requires Agrees(w.oracle, s) && HoldsIn(w, node, Given(r.params))
    ensures StoresTruth(cfg, w, s, r, calls, times, node)
  {
    hide Agrees, Remembered, CallsBytes, DecodeCalls, Fetched, Replies, Respects, Small;
    var up := At(node, Given(r.params));
    WrappedCount(r);
    ReplyRead(up, calls, Asked(node, r));
    RememberedAgrees(cfg, w.oracle, up, s, w.chain, calls, Evaluated(up, calls), times, |calls|);
  }

  lemma {:induction false} NothingIsStored(cfg: Settings, s: Store, chain: Chain, calls: seq<Call3>,
                                           rs: seq<CallResult>, times: nat -> Instant, k: nat)
    requires k <= |calls| == |rs| && forall i :: 0 <= i < |calls| ==> !Immutable(calls[i].callData)
    ensures Remembered(cfg, s, chain, calls, rs, times, k) == s
  {
    hide Immutable;
    if k > 0 {
      NothingIsStored(cfg, s, chain, calls, rs, times, k - 1);
    }
  }

  lemma NothingStored(cfg: Settings, w: World, s: Store, r: Request, calls: seq<Call3>, times: nat -> Instant,
                      node: Node)
    requires r.params.CallParams? && Agrees(w.oracle, s)
    requires forall i :: 0 <= i < |calls| ==> !Immutable(calls[i].callData)
    ensures StoresTruth(cfg, w, s, r, calls, times, node)
  {
    hide Agrees, Remembered, Asked, Immutable, DecodeResults;
    var got := Fetched(Asked(node, r), |calls|);
    if got.Decoded? {
      NothingIsStored(cfg, s, w.chain, calls, got.value, times, |calls|);
    }
  }

  /** A success with the wrong data for every call. */
  function Lie(w: World): Evaluation {
    (c: Call3) => CallResult(true, if Truth(w)(c).returnData == [] then [0] else [])
  }

  /** The wrong body written for a sub-call stays under its key. */
  lemma {:induction false} LieStays(cfg: Settings, w: World, s: Store, calls: seq<Call3>, times: nat -> Instant,
                                    i: nat, k: nat)
    requires cfg.enabled && i < k <= |calls| && Immutable(calls[i].callData)
    ensures var rs := Evaluated(Lie(w), calls);
            var t := Remembered(cfg, s, w.chain, calls, rs, times, k);
            SubKey(w.chain, calls[i]) in t.mem && t.mem[SubKey(w.chain, calls[i])].body == rs[i].returnData
  {
    hide Immutable;
    var rs := Evaluated(Lie(w), calls);
    if i < k - 1 {
      LieStays(cfg, w, s, calls, times, i, k - 1);
    }
    var c, t := calls[k - 1], Remembered(cfg, s, w.chain, calls, rs, times, k - 1);
    SuccessRemembered(cfg, t, w.chain, c, rs[k - 1], times(k - 1));
    assert SubKey(w.chain, c) == SubKey(w.chain, calls[i]) ==> Truth(w)(c) == Truth(w)(calls[i]);
    hide Remember, Lie;
  }

  /** Writing a success down touches no key but its own. */
  lemma SuccessRemembered(cfg: Settings, s: Store, chain: Chain, c: Call3, r: CallResult, now: Instant)
    requires cfg.enabled && r.success
    ensures var t := Remember(cfg, s, chain, c, r, now);
            && (forall key :: key in s.mem && key != SubKey(chain, c) ==> key in t.mem && t.mem[key] == s.mem[key])
            && (Immutable(c.callData) ==>
                  SubKey(chain, c) in t.mem && t.mem[SubKey(chain, c)].body == r.returnData)
            && (!Immutable(c.callData) ==> t == s)
  {
    hide Immutable;
  }

  lemma LiesAreStored(cfg: Settings, w: World, s: Store, r: Request, calls: seq<Call3>, times: nat -> Instant, i: nat,
                      node: Node)
    requires cfg.enabled && r.params.CallParams? && |calls| <= 10000 && i < |calls| && Immutable(calls[i].callData)
    requires ValidWorld(w) && Asked(node, r) == HexResult(ResultsBytes(Evaluated(Lie(w), calls)))
    ensures !StoresTruth(cfg, w, s, r, calls, times, node)
  {
    hide Immutable, Remembered, Asked, Fetched, Agrees;
    var rs := Evaluated(Lie(w), calls);
    LiesAreRead(w, calls, Asked(node, r));
    LieStays(cfg, w, s, calls, times, i, |calls|);
    LieIsUntrue(w, Remembered(cfg, s, w.chain, calls, rs, times, |calls|), calls[i]);
  }

  lemma LiesAreRead(w: World, calls: seq<Call3>, reply: Payload)
    requires |calls| <= 10000 && reply == HexResult(ResultsBytes(Evaluated(Lie(w), calls)))
    ensures Fetched(reply, |calls|) == Decoded(Evaluated(Lie(w), calls))
  {
    hide ResultsBytes, Abi.Tails, Fetched;
    var rs := Evaluated(Lie(w), calls);
    SmallTails(rs, |rs|);
    ResultsLayout(rs);
    FetchedExactly(Lie(w), calls, reply);
  }

  lemma LieIsUntrue(w: World, t: Store, c: Call3)
    requires SubKey(w.chain, c) in t.mem && t.mem[SubKey(w.chain, c)].body == Lie(w)(c).returnData
    ensures !Agrees(w.oracle, t)
  {
    var key := SubKey(w.chain, c);
    assert |Lie(w)(c).returnData| == if |Truth(w)(c).returnData| == 0 then 1 else 0;
    assert !Truthful(w.oracle, key, t.mem[key]);
  }
}
