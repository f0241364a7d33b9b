/** Concrete requests for which the cache goes wrong: pinned to a block by an object,
    sent with state overrides, and addressed to another contract than Multicall3. */
module MulticallCases {
  import opened Options
  import opened Words
  import opened Collections
  import opened Codec
  import opened Rpc
  import opened Decoder
  import opened Cache
  import opened Partial
  import opened MulticallRequests
  import Tracker
  import Abi

  /* ---------- A token and its node ---------- */

  const DECIMALS: seq<byte> := [0x31, 0x3c, 0xe5, 0x67]

  const TOTAL_SUPPLY: seq<byte> := [0x18, 0x16, 0x0d, 0xdd]

  /** The default of the configuration. */
  const MULTICALL3: Address :=
    [0xca, 0x11, 0xbd, 0xe0, 0x59, 0x77, 0xb3, 0x63, 0x11, 0x67,
     0x02, 0x88, 0x62, 0xbe, 0x2a, 0x17, 0x39, 0x76, 0xca, 0x11]

  function CallOn(data: seq<byte>): Call3 {
    Call3(Zeros(20), true, data)
  }

  function Wrapping(to: Hex, calls: seq<Call3>, block: BlockParam, overrides: bool): (r: Request)
    ensures r.params.CallParams?
  {
    Request(Wire(0), "eth_call", CallParams(to, HexBytes(CallsBytes(calls)), "", "", "", "", "", block, overrides))
  }

  /** Six decimals and, at latest, a supply of two that was one at block 5; under
      overrides, seven decimals. */
  function TokenCall(): (Context, Call3) -> CallResult {
    (ctx: Context, c: Call3) =>
      CallResult(true, if c.callData == DECIMALS then [if ctx.overrides then 7 else 6]
                       else if c.callData == TOTAL_SUPPLY then [if ctx.block.Object? then 1 else 2]
                       else [])
  }

  function TokenWorld(): World {
    World("1", (chain: Tracker.Chain, target: Address, callData: seq<byte>) =>
                 CallResult(true, if callData == DECIMALS then [6] else []),
          MULTICALL3, iset{"latest"})
  }

  /** The node, with Multicall3 in every context, and what its other contracts reply. */
  ghost function Token(otherwise: Payload): Node {
    Running(MULTICALL3, _ => true, TokenCall(), otherwise)
  }

  const TOKEN_SETTINGS := Settings(true, map["1" := 64], 250_000_000, 86_400_000_000_000)

  const PINNED := BlockValue("{\"blockNumber\":\"0x5\"}")

  lemma Selectors()
    ensures Immutable(DECIMALS) && !Immutable(TOTAL_SUPPLY)
  {
    assert DECIMALS[..4] == DECIMALS && TOTAL_SUPPLY[..4] == TOTAL_SUPPLY;
  }

  /** The world is at the node as the cache takes it to be, unless there are overrides. */
  lemma TokenHolds(otherwise: Payload, ctx: Context)
    requires !ctx.overrides
    ensures HoldsIn(TokenWorld(), Token(otherwise), ctx)
  {
    hide Standard, Aggregate;
    RunningAggregates(MULTICALL3, _ => true, TokenCall(), otherwise, ctx);
    Selectors();
    hide Immutable, Aggregates;
  }

  lemma TokenFixed(otherwise: Payload)
    ensures ValidWorld(TokenWorld()) && Fixed(TokenWorld(), Token(otherwise))
  {
    hide HoldsIn, Token;
    TokenHolds(otherwise, BareAt("latest"));
  }

  lemma {:induction false} ShortTails(calls: seq<Call3>, k: nat)
    requires k <= |calls| && forall i :: 0 <= i < |calls| ==> |calls[i].callData| == 4
    ensures |Abi.Tails(CallValues(calls), k)| == 160 * k
  {
    hide Abi.Enc, Abi.Dynamic, Abi.Tail;
    CallsLayout(calls);
    if k > 0 {
      ShortTails(calls, k - 1);
    }
  }

  ghost predicate Short(calls: seq<Call3>) {
    1 <= |calls| <= 10 && forall i :: 0 <= i < |calls| ==> |calls[i].callData| == 4
  }

  /** The cache takes such a request for the calls it wraps, whatever its target. */
  lemma WrappingWraps(to: Hex, calls: seq<Call3>, block: BlockParam, overrides: bool)
    requires Short(calls)
    ensures WrappedCalls(Wrapping(to, calls, block, overrides)) == Decoded(calls)
    ensures |CallsBytes(calls)| < TWO_63
  {
    CallsLayout(calls);
    ShortTails(calls, |calls|);
    DecodeCallsInvertsEncode(calls);
    hide DecodeCalls, CallsBytes;
  }

  /** What the node replies to a request for Multicall3. */
  lemma TokenReplies(otherwise: Payload, calls: seq<Call3>, block: BlockParam, overrides: bool)
    requires Short(calls)
    ensures var r, node := Wrapping(HexBytes(MULTICALL3), calls, block, overrides), Token(otherwise);
            Fetched(Asked(node, r), |calls|) == Decoded(Evaluated(At(node, Given(r.params)), calls))
  {
    var r, node := Wrapping(HexBytes(MULTICALL3), calls, block, overrides), Token(otherwise);
    WrappingWraps(HexBytes(MULTICALL3), calls, block, overrides);
    RunningAggregates(MULTICALL3, _ => true, TokenCall(), otherwise, Given(r.params));
    TokenIsSmall(otherwise, Given(r.params));
    hide CallsBytes, Token, Fetched, Standard, Replies, Small, WrappedCalls;
    ReplyRead(At(node, Given(r.params)), calls, Asked(node, r));
  }

  lemma TokenIsSmall(otherwise: Payload, ctx: Context)
    ensures Small(At(Token(otherwise), ctx)) && forall calls :: Tolerated(At(Token(otherwise), ctx), calls)
  {
    hide Aggregate, Standard;
  }

  lemma TokenMakes(otherwise: Payload, ctx: Context)
    ensures At(Token(otherwise), ctx)(CallOn(DECIMALS)) == CallResult(true, [if ctx.overrides then 7 else 6])
    ensures At(Token(otherwise), ctx)(CallOn(TOTAL_SUPPLY)) == CallResult(true, [if ctx.block.Object? then 1 else 2])
  {
    hide Aggregate, Standard;
    assert DECIMALS[0] != TOTAL_SUPPLY[0];
  }

  /* ---------- Pinned to a block by an object ---------- */

  function TokenCalls(): (calls: seq<Call3>)
    ensures |calls| == 2
  {
    [CallOn(DECIMALS), CallOn(TOTAL_SUPPLY)]
  }

  /** The plan for both calls when the first is cached. */
  function TokenDraft(): Draft {
    var now: Instant := 0;
    Planned(TOKEN_SETTINGS, After(TOKEN_SETTINGS, [PutImmortal(SubKey("1", CallOn(DECIMALS)), [6], "1")]), "1",
            TokenCalls(), Clock(_ => now, _ => now), 2)
  }

  lemma TokenStored()
    ensures After(TOKEN_SETTINGS, [PutImmortal(SubKey("1", CallOn(DECIMALS)), [6], "1")]) == Stored([6])
  {
    var e: Event := PutImmortal(SubKey("1", CallOn(DECIMALS)), [6], "1");
    var none: seq<Event> := [];
    assert none + [e] == [e];
    Extended(TOKEN_SETTINGS, none, e);
  }

  lemma TokenDraftIs()
    ensures TokenDraft().results == [CallResult(true, [6]), UNSET] && TokenDraft().misses == [1]
  {
    var now: Instant := 0;
    TokenStored();
    var s, calls := Stored([6]), TokenCalls();
    Selectors();
    hide Immutable, After;
    assert Hit(TOKEN_SETTINGS, s, "1", calls[0], now, now) == Some(CallResult(true, [6]));
    assert Probed(TOKEN_SETTINGS, s, "1", calls[0], now, now) == s;
    assert Planned(TOKEN_SETTINGS, s, "1", calls, Clock(_ => now, _ => now), 1) ==
        Draft(s, [CallResult(true, [6])], []);
  }

  lemma OneOverwritten(a: CallResult, b: CallResult, got: seq<CallResult>)
    requires |got| == 1
    ensures Overwritten([a, b], [1], got, 1) == [a, got[0]]
  {
    assert Overwritten([a, b], [1], got, 0) == [a, b];
  }

  function Pinned(): (r: Request)
    ensures r.params.CallParams?
  {
    Wrapping(HexBytes(MULTICALL3), TokenCalls(), PINNED, false)
  }

  function Missed(): seq<Call3> {
    [CallOn(TOTAL_SUPPLY)]
  }

  lemma PinnedContext()
    ensures Given(Pinned().params).block.Object? && !Given(Pinned().params).overrides
  {
    hide CallsBytes, TokenCalls;
  }

  /** What the two calls come to at block 5. */
  lemma PinnedReply(otherwise: Payload)
    ensures Fetched(Asked(Token(otherwise), Pinned()), 2) == Decoded([CallResult(true, [6]), CallResult(true, [1])])
  {
    TokenReplies(otherwise, TokenCalls(), PINNED, false);
    TokenMakes(otherwise, Given(Pinned().params));
    PinnedContext();
    hide Token, Fetched, CallsBytes, Asked, CallOn, Wrapping, Given;
    assert Evaluated(At(Token(otherwise), Given(Pinned().params)), TokenCalls())
        == [CallResult(true, [6]), CallResult(true, [1])];
  }

  /** And the one that missed, at latest. */
  lemma ReducedReply(otherwise: Payload)
    ensures Fetched(Asked(Token(otherwise), Reduced(Pinned(), Missed())), 1) == Decoded([CallResult(true, [2])])
  {
    var latest := BlockText("latest");
    var reduced := Wrapping(HexBytes(MULTICALL3), Missed(), latest, false);
    TokenReplies(otherwise, Missed(), latest, false);
    TokenMakes(otherwise, Given(reduced.params));
    hide Token, Fetched, CallsBytes, Asked, CallOn;
    assert Reduced(Pinned(), Missed()) == reduced;
    assert Evaluated(At(Token(otherwise), Given(reduced.params)), Missed()) == [CallResult(true, [2])];
  }

  lemma WrongSupply(node: Node, r: Request)
    requires r.params.CallParams?
    requires Fetched(Asked(node, r), 2) == Decoded([CallResult(true, [6]), CallResult(true, [1])])
    requires Fetched(Asked(node, Reduced(r, Missed())), 1) == Decoded([CallResult(true, [2])])
    ensures !AnswersRequest(node, r, TokenCalls(), [CallResult(true, [6]), UNSET], [1])
  {
    hide Asked, Fetched, Reduced, CallOn;
    assert Picked(TokenCalls(), [1]) == Missed();
    OneOverwritten(CallResult(true, [6]), UNSET, [CallResult(true, [2])]);
    SupplyMismatch(Asked(node, r));
    hide Matches;
  }

  lemma SupplyMismatch(asked: Payload)
    requires Fetched(asked, 2) == Decoded([CallResult(true, [6]), CallResult(true, [1])])
    ensures !Matches(asked, TokenCalls(), [1], [CallResult(true, [6]), CallResult(true, [2])])
  {
    hide Fetched, CallOn;
    assert [CallResult(true, [6]), CallResult(true, [2])][1].returnData[0] == 2;
    assert 1 in [1 as nat];
  }

  /** A multicall pinned to block 5 by an object, with one of its two calls cached:
      the plan's other position is filled with the supply at latest, two, where the
      request asks for that at block 5, one. */
  lemma {:induction false} PinnedMulticallGoesWrong(otherwise: Payload)
    ensures WrappedCalls(Pinned()) == Decoded(TokenCalls())
    ensures Addressed(TokenWorld(), Pinned(), TokenCalls())
    ensures FixedIn(TokenWorld(), Token(otherwise), Given(Pinned().params))
    ensures TokenDraft().results == [CallResult(true, [6]), UNSET] && TokenDraft().misses == [1]
    ensures !AnswersRequest(Token(otherwise), Pinned(), TokenCalls(), [CallResult(true, [6]), UNSET], [1])
  {
    WrappingWraps(HexBytes(MULTICALL3), TokenCalls(), PINNED, false);
    TokenDraftIs();
    TokenFixed(otherwise);
    TokenHolds(otherwise, Given(Pinned().params));
    PinnedReply(otherwise);
    ReducedReply(otherwise);
    WrongSupply(Token(otherwise), Pinned());
    hide TokenDraft, WrappedCalls, Token, HoldsIn, Fixed, Fetched, Asked, AnswersRequest, Reduced, CallsBytes;
  }

  /* ---------- Stored for good ---------- */

  /** The store after the answer to decimals() has been stored from a multicall. */
  function Stored(body: seq<byte>): Store {
    Written(Opened, ImmortalWrite(SubKey("1", CallOn(DECIMALS)), body, "1"))
  }

  lemma DecimalsStored(body: seq<byte>)
    ensures var now: Instant := 0;
            var calls := [CallOn(DECIMALS)];
            && Remembered(TOKEN_SETTINGS, Opened, "1", calls, [CallResult(true, body)], _ => now, 1) == Stored(body)
            && Served(TOKEN_SETTINGS, Stored(body), "1", calls, Clock(_ => now, _ => now), 1).1
               == Some([CallResult(true, body)])
            && Found(TOKEN_SETTINGS, Stored(body), SubKey("1", CallOn(DECIMALS)), now) == Some(body)
  {
    var now: Instant := 0;
    var calls, rs := [CallOn(DECIMALS)], [CallResult(true, body)];
    Selectors();
    hide Immutable;
    assert Remembered(TOKEN_SETTINGS, Opened, "1", calls, rs, _ => now, 0) == Opened;
    var e: Event := PutImmortal(SubKey("1", calls[0]), body, "1");
    var s := Stored(body);
    assert s == Remember(TOKEN_SETTINGS, Opened, "1", calls[0], rs[0], now) == Step(TOKEN_SETTINGS, Opened, e);
    assert Hit(TOKEN_SETTINGS, s, "1", calls[0], now, now) == Some(CallResult(true, body));
    var none: seq<CallResult> := [];
    assert none + rs == rs;
  }

  /** The answer to a multicall under state overrides is stored for good, and a clean
      request is then served seven decimals where the chain says six. */
  lemma {:induction false} OverriddenAnswerIsKept(otherwise: Payload)
    ensures var now: Instant := 0;
            var calls, node := [CallOn(DECIMALS)], Token(otherwise);
            var overridden := Wrapping(HexBytes(MULTICALL3), calls, NoBlock, true);
            var clean := Wrapping(HexBytes(MULTICALL3), calls, NoBlock, false);
            var got := Fetched(Asked(node, overridden), 1);
            && Fixed(TokenWorld(), node)
            && WrappedCalls(overridden) == Decoded(calls) && got.Decoded?
            && Served(TOKEN_SETTINGS, Remembered(TOKEN_SETTINGS, Opened, "1", calls, got.value, _ => now, 1), "1",
                      calls, Clock(_ => now, _ => now), 1).1 == Some([CallResult(true, [7])])
            && Clean(clean.params) && Fetched(Asked(node, clean), 1) == Decoded([CallResult(true, [6])])
  {
    var calls, node := [CallOn(DECIMALS)], Token(otherwise);
    var overridden := Wrapping(HexBytes(MULTICALL3), calls, NoBlock, true);
    WrappingWraps(HexBytes(MULTICALL3), calls, NoBlock, true);
    TokenFixed(otherwise);
    SixDecimals(otherwise);
    TokenReplies(otherwise, calls, NoBlock, true);
    TokenMakes(otherwise, Given(overridden.params));
    DecimalsStored([7]);
    hide Token, Fetched, CallsBytes, WrappedCalls, Served, Remembered, Asked, Fixed;
    assert Evaluated(At(node, Given(overridden.params)), calls) == [CallResult(true, [7])];
  }

  lemma SixDecimals(otherwise: Payload)
    ensures var clean := Wrapping(HexBytes(MULTICALL3), [CallOn(DECIMALS)], NoBlock, false);
            Clean(clean.params) && Fetched(Asked(Token(otherwise), clean), 1) == Decoded([CallResult(true, [6])])
  {
    var calls, node := [CallOn(DECIMALS)], Token(otherwise);
    var clean := Wrapping(HexBytes(MULTICALL3), calls, NoBlock, false);
    TokenReplies(otherwise, calls, NoBlock, false);
    TokenMakes(otherwise, Given(clean.params));
    hide Token, Fetched, CallsBytes, Asked;
    assert Evaluated(At(node, Given(clean.params)), calls) == [CallResult(true, [6])];
  }

  /** A request to any other contract at all, with the calldata of a multicall: whatever
      body that contract returns for decimals() is stored for good, and then served to
      a multicall that does go to Multicall3, where the chain says six, and to
      decimals() read on its own, which shares the key. */
  lemma {:induction false} StrangerIsBelieved(to: Hex, body: seq<byte>)
    requires to != HexBytes(MULTICALL3) && |body| <= LARGEST
    ensures var now: Instant := 0;
            var calls, node := [CallOn(DECIMALS)], Token(HexResult(ResultsBytes([CallResult(true, body)])));
            var strange := Wrapping(to, calls, NoBlock, false);
            var clean := Wrapping(HexBytes(MULTICALL3), calls, NoBlock, false);
            var got := Fetched(Asked(node, strange), 1);
            && Fixed(TokenWorld(), node)
            && WrappedCalls(strange) == Decoded(calls) && Clean(strange.params) && got.Decoded?
            && var s := Remembered(TOKEN_SETTINGS, Opened, "1", calls, got.value, _ => now, 1);
               && Served(TOKEN_SETTINGS, s, "1", calls, Clock(_ => now, _ => now), 1).1
                  == Some([CallResult(true, body)])
               && Found(TOKEN_SETTINGS, s, SubKey("1", CallOn(DECIMALS)), now) == Some(body)
               && Clean(clean.params) && Fetched(Asked(node, clean), 1) == Decoded([CallResult(true, [6])])
  {
    var calls, rs := [CallOn(DECIMALS)], [CallResult(true, body)];
    var otherwise := HexResult(ResultsBytes(rs));
    var node, strange := Token(otherwise), Wrapping(to, calls, NoBlock, false);
    WrappingWraps(to, calls, NoBlock, false);
    TokenFixed(otherwise);
    SixDecimals(otherwise);
    StrangerReplied(TokenWorld(), _ => true, TokenCall(), otherwise, strange, calls);
    BodyRead(body);
    DecimalsStored(body);
    hide Token, Fetched, CallsBytes, ResultsBytes, WrappedCalls, Served, Remembered, Asked, Fixed, Found;
  }

  lemma BodyRead(body: seq<byte>)
    requires |body| <= LARGEST
    ensures Fetched(HexResult(ResultsBytes([CallResult(true, body)])), 1) == Decoded([CallResult(true, body)])
  {
    var rs := [CallResult(true, body)];
    SmallTails(rs, 1);
    ResultsLayout(rs);
    DecodeResultsInvertsEncode(rs);
    hide ResultsBytes, DecodeResults;
  }
}
