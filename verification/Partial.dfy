/** Serving a multicall from the cache, wholly or in part: what the plan, the
    completion and the store of an aggregate3 call's sub-calls compute, and why
    the caller cannot tell the difference. */
module Partial {
  import opened Options
  import opened Words
  import opened Collections
  import opened Codec
  import opened Rpc
  import opened Tracker
  import opened Cache
  import opened Decoder

  /** decimals, symbol, name, token0 and token1 */
  const IMMUTABLE: set<seq<byte>> :=
    {[0x31, 0x3c, 0xe5, 0x67], [0x95, 0xd8, 0x9b, 0x41], [0x06, 0xfd, 0xde, 0x03],
     [0x0d, 0xfe, 0x16, 0x81], [0xd2, 0x12, 0x20, 0xa7]}

  /** isImmutableSelector */
  predicate Immutable(callData: seq<byte>) {
    |callData| >= 4 && callData[..4] in IMMUTABLE
  }

  /** A read is immutable by its selector alone, whatever arguments follow; less than a
      selector is none. */
  lemma {:induction false} ImmutableExactly(selector: seq<byte>, arguments: seq<byte>)
    requires |selector| == 4
    ensures Immutable(selector + arguments) <==>
              || selector == [0x31, 0x3c, 0xe5, 0x67] || selector == [0x95, 0xd8, 0x9b, 0x41]
              || selector == [0x06, 0xfd, 0xde, 0x03] || selector == [0x0d, 0xfe, 0x16, 0x81]
              || selector == [0xd2, 0x12, 0x20, 0xa7]
    ensures forall k :: 0 <= k < 4 ==> !Immutable(selector[..k])
  {
    assert (selector + arguments)[..4] == selector;
  }

  /** When each sub-call's success key and failure key are looked up. */
  datatype Clock = Clock(success: nat -> Instant, failure: nat -> Instant)

  const UNSET := CallResult(false, [])

  function SubKey(chain: Chain, c: Call3): Key {
    Sub(chain, c.target, c.callData)
  }

  function NegKey(chain: Chain, c: Call3): Key {
    Neg(chain, c.target, c.callData)
  }

  /** What the cache says about one sub-call, given the store as each of its two
      keys is looked up. */
  function HitIn(cfg: Settings, s: Store, s': Store, chain: Chain, c: Call3, t: Instant,
                 u: Instant): Option<CallResult> {
    if !Immutable(c.callData) then None
    else
      match Found(cfg, s, SubKey(chain, c), t)
      case Some(body) => Some(CallResult(true, body))
      case None => if Found(cfg, s', NegKey(chain, c), u).Some? then Some(UNSET) else None
  }

  /** The same when nothing else happens to the store in between. */
  function Hit(cfg: Settings, s: Store, chain: Chain, c: Call3, t: Instant, u: Instant): Option<CallResult> {
    HitIn(cfg, s, Looked(cfg, s, SubKey(chain, c), t), chain, c, t, u)
  }

  function Probed(cfg: Settings, s: Store, chain: Chain, c: Call3, t: Instant, u: Instant): Store {
    if !Immutable(c.callData) then s
    else
      var s' := Looked(cfg, s, SubKey(chain, c), t);
      if Found(cfg, s, SubKey(chain, c), t).Some? then s' else Looked(cfg, s', NegKey(chain, c), u)
  }

  /** A plan under construction: results filled so far and the calls that missed. */
  datatype Draft = Draft(store: Store, results: seq<CallResult>, misses: seq<nat>)

  /** PlanMulticall's loop, after k calls. */
  function Planned(cfg: Settings, s: Store, chain: Chain, calls: seq<Call3>, clock: Clock, k: nat): Draft
    requires k <= |calls|
  {
    if k == 0 then Draft(s, [], [])
    else
      var d, c := Planned(cfg, s, chain, calls, clock, k - 1), calls[k - 1];
      var t, u := clock.success(k - 1), clock.failure(k - 1);
      match Hit(cfg, d.store, chain, c, t, u)
      case Some(r) => Draft(Probed(cfg, d.store, chain, c, t, u), d.results + [r], d.misses)
      case None => Draft(Probed(cfg, d.store, chain, c, t, u), d.results + [UNSET], d.misses + [k - 1])
  }

  /** The stores that the lookups of a plan meet, call by call: other operations
      may run between any two of them. */
  datatype Views = Views(success: nat -> Store, failure: nat -> Store)

  /** The results and misses of a plan whose lookups meet those stores. */
  function Drafted(cfg: Settings, views: Views, chain: Chain, calls: seq<Call3>, clock: Clock, k: nat):
    (seq<CallResult>, seq<nat>)
    requires k <= |calls|
  {
    if k == 0 then ([], [])
    else
      var (results, misses) := Drafted(cfg, views, chain, calls, clock, k - 1);
      var i := k - 1;
      match HitIn(cfg, views.success(i), views.failure(i), chain, calls[i], clock.success(i), clock.failure(i))
      case Some(r) => (results + [r], misses)
      case None => (results + [UNSET], misses + [i])
  }

  /** Writing down what became of one sub-call. */
  function Remember(cfg: Settings, s: Store, chain: Chain, c: Call3, r: CallResult, now: Instant): Store {
    if !Immutable(c.callData) then s
    else if r.success then Step(cfg, s, PutImmortal(SubKey(chain, c), r.returnData, chain))
    else Step(cfg, s, PutNegative(chain, c.target, c.callData, now))
  }

  /** The store after the first k results are written down. */
  function Remembered(cfg: Settings, s: Store, chain: Chain, cs: seq<Call3>, rs: seq<CallResult>,
                      times: nat -> Instant, k: nat): Store
    requires k <= |cs| && k <= |rs|
  {
    if k == 0 then s
    else Remember(cfg, Remembered(cfg, s, chain, cs, rs, times, k - 1), chain, cs[k - 1], rs[k - 1], times(k - 1))
  }

  /** The results an upstream reply carries, if it is a decodable result of the
      expected length; Fault when decoding it panics. */
  function Fetched(reply: Payload, n: nat): Outcome<seq<CallResult>> {
    if !reply.HexResult? then Rejected
    else
      match DecodeResults(reply.bytes)
      case Decoded(got) => if |got| == n then Decoded(got) else Rejected
      case other => other
  }

  /** serveMulticall's loop: None as soon as one call is not cached. */
  function Served(cfg: Settings, s: Store, chain: Chain, calls: seq<Call3>, clock: Clock, k: nat):
    (r: (Store, Option<seq<CallResult>>))
    requires k <= |calls|
    ensures r.1.Some? ==> |r.1.value| == k
  {
    if k == 0 then (s, Some([]))
    else
      var (s', rs) := Served(cfg, s, chain, calls, clock, k - 1);
      var c, t, u := calls[k - 1], clock.success(k - 1), clock.failure(k - 1);
      if rs.None? then (s', None)
      else
        match Hit(cfg, s', chain, c, t, u)
        case Some(r) => (Probed(cfg, s', chain, c, t, u), Some(rs.value + [r]))
        case None => (Probed(cfg, s', chain, c, t, u), None)
  }

  /* ---------- What the chain answers ---------- */

  /** The fixed answer to every immutable read. */
  type Oracle = (Chain, Address, seq<byte>) -> CallResult

  /** A call evaluated by the node a request goes to, at the request's block. */
  type Evaluation = Call3 -> CallResult

  /** Immutable reads have their fixed answer at every block. */
  ghost predicate Respects(up: Evaluation, oracle: Oracle, chain: Chain) {
    forall c: Call3 :: Immutable(c.callData) ==> up(c) == oracle(chain, c.target, c.callData)
  }

  ghost predicate Truthful(oracle: Oracle, key: Key, e: CacheEntry) {
    match key
    case Sub(chain, target, callData) => oracle(chain, target, callData) == CallResult(true, e.body)
    case Neg(chain, target, callData) => !oracle(chain, target, callData).success
    case Canonical(_) => true
  }

  /** Every cached sub-call agrees with the oracle. */
  ghost predicate Agrees(oracle: Oracle, s: Store) {
    forall key :: (key in s.mem ==> Truthful(oracle, key, s.mem[key]))
               && (key in s.disk ==> Truthful(oracle, key, s.disk[key]))
  }

  /** aggregate3 succeeds unless a call that may not fail does. */
  ghost predicate Tolerated(up: Evaluation, calls: seq<Call3>) {
    forall i :: 0 <= i < |calls| && !up(calls[i]).success ==> calls[i].allowFailure
  }

  function Evaluated(up: Evaluation, calls: seq<Call3>): (rs: seq<CallResult>)
    ensures |rs| == |calls| && forall i :: 0 <= i < |calls| ==> rs[i] == up(calls[i])
  {
    seq(|calls|, i requires 0 <= i < |calls| => up(calls[i]))
  }

  /** Multicall3's reply to aggregate3(calls). The cache takes any contract for it:
      MulticallRequests says what becomes of requests to others. */
  ghost predicate Replies(up: Evaluation, calls: seq<Call3>, reply: Payload) {
    if Tolerated(up, calls) then reply == HexResult(ResultsBytes(Evaluated(up, calls))) else HasError(reply)
  }

  /** A cached answer stands for the real one, except for a failure's data. */
  predicate StandsFor(cached: CallResult, actual: CallResult) {
    cached == if actual.success then actual else UNSET
  }

  /* ---------- Agreement is kept ---------- */

  /** Every operation of the store keeps agreement as long as what it writes is true. */
  lemma {:induction false} StepKeepsAgreement(cfg: Settings, oracle: Oracle, s: Store, e: Event)
    requires Agrees(oracle, s)
    requires WriteOf(cfg, s, e).Some? ==>
               Truthful(oracle, WriteOf(cfg, s, e).value.key, WriteOf(cfg, s, e).value.entry)
    ensures Agrees(oracle, Step(cfg, s, e))
  {
    forall key
      ensures key in Step(cfg, s, e).mem ==> Truthful(oracle, key, Step(cfg, s, e).mem[key])
      ensures key in Step(cfg, s, e).disk ==> Truthful(oracle, key, Step(cfg, s, e).disk[key])
    {
      StepAt(cfg, s, e, key);
      hide Step, WriteOf, Truthful;
    }
  }

  lemma LookKeepsAgreement(cfg: Settings, oracle: Oracle, s: Store, key: Key, now: Instant)
    requires Agrees(oracle, s)
    ensures Agrees(oracle, Looked(cfg, s, key, now))
  {
    hide Looked, Agrees;
    var e: Event := Get(key, now);
    StepKeepsAgreement(cfg, oracle, s, e);
  }

  lemma FoundIsTruthful(cfg: Settings, oracle: Oracle, s: Store, key: Key, now: Instant)
    requires Agrees(oracle, s) && Found(cfg, s, key, now).Some?
    ensures key.Sub? ==> oracle(key.chain, key.target, key.callData) == CallResult(true, Found(cfg, s, key, now).value)
    ensures key.Neg? ==> !oracle(key.chain, key.target, key.callData).success
  {
    hide EntryValid;
    var e := if Serves(cfg, s, s.mem, key, now) then s.mem[key] else s.disk[key];
    assert Truthful(oracle, key, e);
  }

  lemma HitIsTruthful(cfg: Settings, oracle: Oracle, s: Store, s': Store, chain: Chain, c: Call3, t: Instant,
                      u: Instant)
    requires Agrees(oracle, s) && Agrees(oracle, s')
    ensures HitIn(cfg, s, s', chain, c, t, u).Some? ==>
              && Immutable(c.callData)
              && StandsFor(HitIn(cfg, s, s', chain, c, t, u).value, oracle(chain, c.target, c.callData))
  {
    hide Found, Agrees, Immutable;
    if Found(cfg, s, SubKey(chain, c), t).Some? {
      FoundIsTruthful(cfg, oracle, s, SubKey(chain, c), t);
    } else if Found(cfg, s', NegKey(chain, c), u).Some? {
      FoundIsTruthful(cfg, oracle, s', NegKey(chain, c), u);
    }
  }

  lemma ProbeIsTruthful(cfg: Settings, oracle: Oracle, s: Store, chain: Chain, c: Call3, t: Instant, u: Instant)
    requires Agrees(oracle, s)
    ensures Agrees(oracle, Looked(cfg, s, SubKey(chain, c), t))
    ensures Agrees(oracle, Probed(cfg, s, chain, c, t, u))
    ensures Hit(cfg, s, chain, c, t, u).Some? ==>
              && Immutable(c.callData)
              && StandsFor(Hit(cfg, s, chain, c, t, u).value, oracle(chain, c.target, c.callData))
  {
    hide Found, Looked, Agrees, Immutable, HitIn;
    var s' := Looked(cfg, s, SubKey(chain, c), t);
    LookKeepsAgreement(cfg, oracle, s, SubKey(chain, c), t);
    LookKeepsAgreement(cfg, oracle, s', NegKey(chain, c), u);
    HitIsTruthful(cfg, oracle, s, s', chain, c, t, u);
  }

  lemma RememberKeepsAgreement(cfg: Settings, oracle: Oracle, s: Store, chain: Chain, c: Call3, r: CallResult,
                               now: Instant)
    requires Agrees(oracle, s)
    requires Immutable(c.callData) ==> r == oracle(chain, c.target, c.callData)
    ensures Agrees(oracle, Remember(cfg, s, chain, c, r, now))
  {
    hide Agrees, Immutable, Step;
    if Immutable(c.callData) {
      var e: Event := if r.success then PutImmortal(SubKey(chain, c), r.returnData, chain)
                      else PutNegative(chain, c.target, c.callData, now);
      StepKeepsAgreement(cfg, oracle, s, e);
    }
  }

  lemma {:induction false} RememberedAgrees(cfg: Settings, oracle: Oracle, up: Evaluation, s: Store, chain: Chain,
                                            cs: seq<Call3>, rs: seq<CallResult>, times: nat -> Instant, k: nat)
    requires Agrees(oracle, s) && Respects(up, oracle, chain)
    requires k <= |cs| && rs == Evaluated(up, cs)
    ensures Agrees(oracle, Remembered(cfg, s, chain, cs, rs, times, k))
  {
    hide Agrees, Remember;
    if k > 0 {
      RememberedAgrees(cfg, oracle, up, s, chain, cs, rs, times, k - 1);
      RememberKeepsAgreement(cfg, oracle, Remembered(cfg, s, chain, cs, rs, times, k - 1), chain,
                             cs[k - 1], rs[k - 1], times(k - 1));
    }
  }

  /* ---------- Plans ---------- */

  /** The misses are distinct positions in order, and every other position holds
      an answer that stands for the real one. */
  ghost predicate GoodDraft(oracle: Oracle, chain: Chain, calls: seq<Call3>, results: seq<CallResult>,
                            misses: seq<nat>) {
    && |misses| <= |results| <= |calls|
    && (forall j :: 0 <= j < |misses| ==> misses[j] < |results|)
    && (forall j, l :: 0 <= j < l < |misses| ==> misses[j] < misses[l])
    && (forall i :: 0 <= i < |results| && i !in misses ==>
          && Immutable(calls[i].callData)
          && StandsFor(results[i], oracle(chain, calls[i].target, calls[i].callData)))
  }

  /** Every store the plan's lookups meet agrees with the oracle. */
  ghost predicate ViewsAgree(oracle: Oracle, views: Views, n: nat) {
    forall i: nat :: i < n ==> Agrees(oracle, views.success(i)) && Agrees(oracle, views.failure(i))
  }

  /** Missed positions and served positions partition the calls, whatever happens
      to the store between the plan's lookups. */
  lemma {:induction false} PlanPartitions(cfg: Settings, oracle: Oracle, views: Views, chain: Chain, calls: seq<Call3>,
                                          clock: Clock, k: nat)
    requires ViewsAgree(oracle, views, |calls|) && k <= |calls|
    ensures var (results, misses) := Drafted(cfg, views, chain, calls, clock, k);
            |results| == k && GoodDraft(oracle, chain, calls, results, misses)
  {
    hide Agrees, HitIn, Immutable, StandsFor;
    if k > 0 {
      PlanPartitions(cfg, oracle, views, chain, calls, clock, k - 1);
      HitIsTruthful(cfg, oracle, views.success(k - 1), views.failure(k - 1), chain, calls[k - 1],
                    clock.success(k - 1), clock.failure(k - 1));
      DraftGrows(cfg, oracle, views, chain, calls, clock, k);
    }
  }

  lemma DraftGrows(cfg: Settings, oracle: Oracle, views: Views, chain: Chain, calls: seq<Call3>, clock: Clock, k: nat)
    requires 0 < k <= |calls|
    requires var (results, misses) := Drafted(cfg, views, chain, calls, clock, k - 1);
             |results| == k - 1 && GoodDraft(oracle, chain, calls, results, misses)
    requires var hit := HitIn(cfg, views.success(k - 1), views.failure(k - 1), chain, calls[k - 1],
                              clock.success(k - 1), clock.failure(k - 1));
             hit.Some? ==>
               && Immutable(calls[k - 1].callData)
               && StandsFor(hit.value, oracle(chain, calls[k - 1].target, calls[k - 1].callData))
    ensures var (results, misses) := Drafted(cfg, views, chain, calls, clock, k);
            |results| == k && GoodDraft(oracle, chain, calls, results, misses)
  {
    hide HitIn, Immutable, StandsFor;
  }

  /** The stores met when nothing runs in between. */
  function OwnViews(cfg: Settings, s: Store, chain: Chain, calls: seq<Call3>, clock: Clock): Views {
    Views((i: nat) => if i < |calls| then Planned(cfg, s, chain, calls, clock, i).store else s,
          (i: nat) => if i < |calls| then
                        Looked(cfg, Planned(cfg, s, chain, calls, clock, i).store, SubKey(chain, calls[i]),
                            clock.success(i))
                      else s)
  }

  /** PlanMulticall's own loop is one such plan. */
  lemma {:induction false} PlannedIsDrafted(cfg: Settings, s: Store, chain: Chain, calls: seq<Call3>, clock: Clock,
                                            k: nat)
    requires k <= |calls|
    ensures var d := Planned(cfg, s, chain, calls, clock, k);
            (d.results, d.misses) == Drafted(cfg, OwnViews(cfg, s, chain, calls, clock), chain, calls, clock, k)
  {
    hide HitIn, Hit, Probed, OwnViews;
    if k > 0 {
      PlannedIsDrafted(cfg, s, chain, calls, clock, k - 1);
      OwnHit(cfg, s, chain, calls, clock, k - 1);
    }
  }

  lemma OwnHit(cfg: Settings, s: Store, chain: Chain, calls: seq<Call3>, clock: Clock, i: nat)
    requires i < |calls|
    ensures var views, at := OwnViews(cfg, s, chain, calls, clock), Planned(cfg, s, chain, calls, clock, i).store;
            HitIn(cfg, views.success(i), views.failure(i), chain, calls[i], clock.success(i), clock.failure(i))
            == Hit(cfg, at, chain, calls[i], clock.success(i), clock.failure(i))
  {
    hide HitIn, Planned, Looked;
  }

  /** And it keeps the cache truthful all along. */
  lemma {:induction false} PlannedAgrees(cfg: Settings, oracle: Oracle, s: Store, chain: Chain, calls: seq<Call3>,
                                         clock: Clock, k: nat)
    requires Agrees(oracle, s) && k <= |calls|
    ensures Agrees(oracle, Planned(cfg, s, chain, calls, clock, k).store)
  {
    hide Agrees, Hit, Probed, Immutable;
    if k > 0 {
      PlannedAgrees(cfg, oracle, s, chain, calls, clock, k - 1);
      var d := Planned(cfg, s, chain, calls, clock, k - 1);
      ProbeIsTruthful(cfg, oracle, d.store, chain, calls[k - 1], clock.success(k - 1), clock.failure(k - 1));
    }
  }

  lemma OwnViewsAgree(cfg: Settings, oracle: Oracle, s: Store, chain: Chain, calls: seq<Call3>, clock: Clock)
    requires Agrees(oracle, s)
    ensures ViewsAgree(oracle, OwnViews(cfg, s, chain, calls, clock), |calls|)
  {
    hide Agrees, Planned, Looked;
    forall i: nat | i < |calls|
      ensures Agrees(oracle, OwnViews(cfg, s, chain, calls, clock).success(i))
      ensures Agrees(oracle, OwnViews(cfg, s, chain, calls, clock).failure(i))
    {
      PlannedAgrees(cfg, oracle, s, chain, calls, clock, i);
      var at := Planned(cfg, s, chain, calls, clock, i).store;
      LookKeepsAgreement(cfg, oracle, at, SubKey(chain, calls[i]), clock.success(i));
    }
  }

  /** The reduced request carries exactly the misses, in order. */
  lemma ReducedCallDecodes(calls: seq<Call3>, misses: seq<nat>)
    requires |calls| <= 10000 && 0 < |misses| < |calls|
    requires forall j :: 0 <= j < |misses| ==> misses[j] < |calls|
    requires |CallsBytes(Picked(calls, misses))| < TWO_63
    ensures DecodeCalls(CallsBytes(Picked(calls, misses))) == Decoded(Picked(calls, misses))
  {
    DecodeCallsInvertsEncode(Picked(calls, misses));
  }

  /* ---------- Partial serving refines full serving ---------- */

  /** A reply to the reduced call is usable exactly when no miss was fatal. */
  lemma FetchedExactly(up: Evaluation, cs: seq<Call3>, reply: Payload)
    requires Replies(up, cs, reply) && |cs| <= 10000 && |ResultsBytes(Evaluated(up, cs))| < TWO_63
    ensures Fetched(reply, |cs|) == if Tolerated(up, cs) then Decoded(Evaluated(up, cs)) else Rejected
  {
    if Tolerated(up, cs) {
      DecodeResultsInvertsEncode(Evaluated(up, cs));
    }
  }

  /** The answer for each call is the real one, except that a cached failure
      carries no data. */
  ghost predicate Answers(up: Evaluation, calls: seq<Call3>, misses: seq<nat>, rs: seq<CallResult>) {
    && |rs| == |calls|
    && forall i :: 0 <= i < |calls| ==>
         if i in misses then rs[i] == up(calls[i]) else StandsFor(rs[i], up(calls[i]))
  }

  lemma MergedAnswers(oracle: Oracle, up: Evaluation, chain: Chain, calls: seq<Call3>, results: seq<CallResult>,
                      misses: seq<nat>)
    requires GoodDraft(oracle, chain, calls, results, misses) && |results| == |calls| && Respects(up, oracle, chain)
    ensures Answers(up, calls, misses, Overwritten(results, misses, Evaluated(up, Picked(calls, misses)), |misses|))
  {
    hide Immutable;
    var got := Evaluated(up, Picked(calls, misses));
    OverwrittenAt(results, misses, got, |misses|);
    assert misses[..|misses|] == misses;
    var rs := Overwritten(results, misses, got, |misses|);
    forall i | 0 <= i < |calls|
      ensures if i in misses then rs[i] == up(calls[i]) else StandsFor(rs[i], up(calls[i]))
    {
      if i in misses {
        var j :| 0 <= j < |misses| && misses[j] == i;
        assert rs[misses[j]] == got[j];
      }
    }
  }

  /** A position the plan filled with a failure. */
  predicate CachedFailure(results: seq<CallResult>, misses: seq<nat>, i: int) {
    0 <= i < |results| && i !in misses && !results[i].success
  }

  /** The whole multicall is tolerated exactly when the misses are and the plan
      holds no failure of a call that may not fail. */
  lemma {:induction false} ToleratedExactly(up: Evaluation, calls: seq<Call3>, results: seq<CallResult>,
                                            misses: seq<nat>)
    requires |results| == |calls| && forall j :: 0 <= j < |misses| ==> misses[j] < |calls|
    requires forall i :: 0 <= i < |calls| && i !in misses ==> StandsFor(results[i], up(calls[i]))
    ensures Tolerated(up, calls) <==>
              && Tolerated(up, Picked(calls, misses))
              && forall i :: CachedFailure(results, misses, i) ==> calls[i].allowFailure
  {
    var cs := Picked(calls, misses);
    if Tolerated(up, calls) {
      forall j | 0 <= j < |cs| && !up(cs[j]).success
        ensures cs[j].allowFailure
      {
        assert cs[j] == calls[misses[j]];
      }
    } else {
      var i :| 0 <= i < |calls| && !up(calls[i]).success && !calls[i].allowFailure;
      if i in misses {
        var j :| 0 <= j < |misses| && misses[j] == i;
        assert cs[j] == calls[i];
      } else {
        assert CachedFailure(results, misses, i);
      }
    }
  }

  /** Completing a plan on Multicall3's reply to the reduced call gives the
      answers that call's context gives to all the calls, in order, and keeps the
      cache truthful, whatever else the store did between the plan's lookups and
      while the reply was awaited. It fails exactly when a missed call was fatal,
      and then the whole call fails too. The whole call would have succeeded as well
      unless the plan holds a failure of a call that may not fail, which can be seen
      before anything is sent: that, and only that, is where partial serving answers
      and the chain would not. */
  lemma PartialRefinesFull(cfg: Settings, oracle: Oracle, up: Evaluation, views: Views, chain: Chain, calls: seq<Call3>,
                           clock: Clock, later: Store, reply: Payload, times: nat -> Instant)
    requires ViewsAgree(oracle, views, |calls|) && Agrees(oracle, later) && Respects(up, oracle, chain)
    requires |calls| <= 10000
    requires var misses := Drafted(cfg, views, chain, calls, clock, |calls|).1;
             && (forall j :: 0 <= j < |misses| ==> misses[j] < |calls|)
             && |ResultsBytes(Evaluated(up, Picked(calls, misses)))| < TWO_63
             && Replies(up, Picked(calls, misses), reply)
    ensures var (results, misses) := Drafted(cfg, views, chain, calls, clock, |calls|);
            var got := Fetched(reply, |misses|);
            var cs := Picked(calls, misses);
            && |results| == |calls|
            && !got.Fault?
            && (got.Decoded? <==> Tolerated(up, cs))
            && (got.Rejected? ==> !Tolerated(up, calls))
            && (got.Decoded? ==>
                  && Answers(up, calls, misses, Overwritten(results, misses, got.value, |misses|))
                  && Agrees(oracle, Remembered(cfg, later, chain, cs, got.value, times, |misses|))
                  && (Tolerated(up, calls) <==>
                        forall i :: CachedFailure(results, misses, i) ==> calls[i].allowFailure))
  {
    var (results, misses) := Drafted(cfg, views, chain, calls, clock, |calls|);
    var cs := Picked(calls, misses);
    PlanPartitions(cfg, oracle, views, chain, calls, clock, |calls|);
    FetchedExactly(up, cs, reply);
    ToleratedExactly(up, calls, results, misses);
    hide Drafted, Agrees, Replies, Tolerated, Fetched, Respects;
    if Fetched(reply, |misses|).Decoded? {
      MergedAnswers(oracle, up, chain, calls, results, misses);
      RememberedAgrees(cfg, oracle, up, later, chain, cs, Evaluated(up, cs), times, |misses|);
    }
  }

  /** Why the condition is needed: decimals() of the zero address is known to
      fail and may not fail, and name() is not cached. The whole call reverts, the
      partial one answers. */
  lemma CachedFailureIsNotFatal(oracle: Oracle, up: Evaluation)
    requires Respects(up, oracle, "1")
    requires !oracle("1", Zeros(20), [0x31, 0x3c, 0xe5, 0x67]).success
    requires oracle("1", Zeros(20), [0x06, 0xfd, 0xde, 0x03]).success
    ensures var cfg, now: Instant := Settings(true, map[], 250_000_000, 1_000_000_000), 0;
            var calls := [Call3(Zeros(20), false, [0x31, 0x3c, 0xe5, 0x67]),
                          Call3(Zeros(20), true, [0x06, 0xfd, 0xde, 0x03])];
            var s := After(cfg, [PutNegative("1", Zeros(20), [0x31, 0x3c, 0xe5, 0x67], now)]);
            var d := Planned(cfg, s, "1", calls, Clock(_ => now, _ => now), 2);
            d.misses == [1] && Tolerated(up, [calls[1]]) && !Tolerated(up, calls)
  {
    var cfg, now: Instant := Settings(true, map[], 250_000_000, 1_000_000_000), 0;
    var decimals, name: seq<byte> := [0x31, 0x3c, 0xe5, 0x67], [0x06, 0xfd, 0xde, 0x03];
    var calls := [Call3(Zeros(20), false, decimals), Call3(Zeros(20), true, name)];
    var e: Event := PutNegative("1", Zeros(20), decimals, now);
    var none: seq<Event> := [];
    assert none + [e] == [e];
    Extended(cfg, none, e);
    var s := After(cfg, [e]);
    assert s == Written(Opened, NegativeWrite(cfg, "1", Zeros(20), decimals, now));
    var clock := Clock(_ => now, _ => now);
    assert decimals[..4] == decimals && name[..4] == name;
    assert Immutable(decimals) && Immutable(name);
    assert Hit(cfg, s, "1", calls[0], now, now) == Some(UNSET);
    var s1 := Probed(cfg, s, "1", calls[0], now, now);
    assert s1 == s;
    assert Hit(cfg, s1, "1", calls[1], now, now) == None;
    assert Planned(cfg, s, "1", calls, clock, 1) == Draft(s, [UNSET], []);
  }

  /* ---------- Whole serving, and what stays known ---------- */

  /** A multicall served wholly from the cache gets the answers of the real one. */
  lemma {:induction false} ServedAnswers(cfg: Settings, oracle: Oracle, up: Evaluation, s: Store, chain: Chain,
                                         calls: seq<Call3>, clock: Clock, k: nat)
    requires Agrees(oracle, s) && Respects(up, oracle, chain) && k <= |calls|
    ensures var (s', rs) := Served(cfg, s, chain, calls, clock, k);
            && Agrees(oracle, s')
            && (rs.Some? ==> forall i :: 0 <= i < k ==> StandsFor(rs.value[i], up(calls[i])))
  {
    hide Agrees, Hit, Probed, Immutable, StandsFor;
    if k > 0 {
      ServedAnswers(cfg, oracle, up, s, chain, calls, clock, k - 1);
      var s' := Served(cfg, s, chain, calls, clock, k - 1).0;
      ProbeIsTruthful(cfg, oracle, s', chain, calls[k - 1], clock.success(k - 1), clock.failure(k - 1));
    }
  }

  /** Where whole serving answers and the chain would not: exactly when a served
      failure is of a call that may not fail. */
  lemma ServedToleratedExactly(cfg: Settings, oracle: Oracle, up: Evaluation, s: Store, chain: Chain,
                               calls: seq<Call3>, clock: Clock)
    requires Agrees(oracle, s) && Respects(up, oracle, chain)
    requires Served(cfg, s, chain, calls, clock, |calls|).1.Some?
    ensures var rs := Served(cfg, s, chain, calls, clock, |calls|).1.value;
            Tolerated(up, calls) <==> forall i :: 0 <= i < |calls| && !rs[i].success ==> calls[i].allowFailure
  {
    ServedAnswers(cfg, oracle, up, s, chain, calls, clock, |calls|);
    hide Served, Agrees, Respects;
    var rs := Served(cfg, s, chain, calls, clock, |calls|).1.value;
    forall i | 0 <= i < |calls|
      ensures rs[i].success == up(calls[i]).success
    {
      assert StandsFor(rs[i], up(calls[i]));
    }
  }

  /** The disk holds an entry under the key that no reorg can outdate and that
      lasts until the given millisecond, and memory holds nothing else. */
  ghost predicate Lasts(s: Store, key: Key, until: int) {
    key in s.disk && Rests(s, key, s.disk[key]) && s.disk[key].hash == "" && s.disk[key].expiry >= until
  }

  /** The sub-call's answer is known until then. */
  ghost predicate Known(oracle: Oracle, s: Store, chain: Chain, c: Call3, until: int) {
    Lasts(s, if oracle(chain, c.target, c.callData).success then SubKey(chain, c) else NegKey(chain, c), until)
  }

  lemma LooksKeepLasting(cfg: Settings, s: Store, look: Key, now: Instant, key: Key, until: int)
    requires Lasts(s, key, until)
    ensures Lasts(Looked(cfg, s, look, now), key, until)
  {
    hide Looked, HashValid;
    var e: Event := Get(look, now);
    RestsOn(cfg, s, e, key, s.disk[key]);
  }

  lemma WritesKeepLasting(s: Store, w: Write, key: Key, until: int)
    requires Lasts(s, key, until) || w.key == key
    requires w.key == key ==> w.durable && w.entry.hash == "" && w.entry.expiry >= until
    ensures Lasts(Written(s, w), key, until)
  {
  }

  lemma LastingIsFound(cfg: Settings, s: Store, key: Key, until: int, now: Instant)
    requires cfg.enabled && Lasts(s, key, until) && Millis(now) <= until
    ensures Found(cfg, s, key, now).Some?
  {
    EmptyHashValid(cfg, s, s.disk[key]);
    hide EntryValid;
  }

  lemma ProbeKeepsKnown(cfg: Settings, oracle: Oracle, s: Store, chain: Chain, c: Call3, t: Instant, u: Instant,
                        other: Call3, until: int)
    requires Known(oracle, s, chain, other, until)
    ensures Known(oracle, Probed(cfg, s, chain, c, t, u), chain, other, until)
  {
    hide Lasts, Looked, Found, Immutable;
    var key := if oracle(chain, other.target, other.callData).success then SubKey(chain, other)
        else NegKey(chain, other);
    if Immutable(c.callData) {
      LooksKeepLasting(cfg, s, SubKey(chain, c), t, key, until);
      LooksKeepLasting(cfg, Looked(cfg, s, SubKey(chain, c), t), NegKey(chain, c), u, key, until);
    }
  }

  /** A known sub-call is a hit. */
  lemma KnownIsHit(cfg: Settings, oracle: Oracle, s: Store, chain: Chain, c: Call3, t: Instant, u: Instant, until: int)
    requires cfg.enabled && Agrees(oracle, s) && Immutable(c.callData)
    requires Known(oracle, s, chain, c, until) && Millis(t) <= until && Millis(u) <= until
    ensures Hit(cfg, s, chain, c, t, u).Some?
  {
    hide Lasts, Looked, Found, Immutable, Agrees;
    if oracle(chain, c.target, c.callData).success {
      LastingIsFound(cfg, s, SubKey(chain, c), until, t);
    } else {
      LooksKeepLasting(cfg, s, SubKey(chain, c), t, NegKey(chain, c), until);
      LastingIsFound(cfg, Looked(cfg, s, SubKey(chain, c), t), NegKey(chain, c), until, u);
    }
  }

  /** Writing a true answer down keeps every known sub-call known, and makes its own so. */
  lemma RememberMakesKnown(cfg: Settings, oracle: Oracle, s: Store, chain: Chain, c: Call3, r: CallResult, now: Instant,
                           other: Call3, until: int)
    requires cfg.enabled && ValidSettings(cfg) && Immutable(c.callData) && r == oracle(chain, c.target, c.callData)
    requires Known(oracle, s, chain, other, until) || other == c
    requires until <= NEVER && until <= Millis(now + cfg.ttlBlock)
    ensures Known(oracle, Remember(cfg, s, chain, c, r, now), chain, other, until)
  {
    hide Lasts, Immutable;
    var key := if oracle(chain, other.target, other.callData).success then SubKey(chain, other)
        else NegKey(chain, other);
    var w := if r.success then ImmortalWrite(SubKey(chain, c), r.returnData, chain)
             else NegativeWrite(cfg, chain, c.target, c.callData, now);
    assert Remember(cfg, s, chain, c, r, now) == Written(s, w);
    WritesKeepLasting(s, w, key, until);
  }

  lemma {:induction false} RememberedKnows(cfg: Settings, oracle: Oracle, up: Evaluation, s: Store, chain: Chain,
                                           cs: seq<Call3>, times: nat -> Instant, k: nat, i: nat, until: int)
    requires cfg.enabled && ValidSettings(cfg) && Respects(up, oracle, chain) && i < k <= |cs|
    requires forall j :: 0 <= j < |cs| ==> Immutable(cs[j].callData)
    requires until <= NEVER && forall j: nat :: j < |cs| ==> until <= Millis(times(j) + cfg.ttlBlock)
    ensures Known(oracle, Remembered(cfg, s, chain, cs, Evaluated(up, cs), times, k), chain, cs[i], until)
  {
    hide Known, Remember, Immutable, ValidSettings;
    if i < k - 1 {
      RememberedKnows(cfg, oracle, up, s, chain, cs, times, k - 1, i, until);
    }
    RememberMakesKnown(cfg, oracle, Remembered(cfg, s, chain, cs, Evaluated(up, cs), times, k - 1), chain, cs[k - 1],
                       up(cs[k - 1]), times(k - 1), cs[i], until);
  }

  lemma {:induction false} KnownIsServed(cfg: Settings, oracle: Oracle, up: Evaluation, s: Store, chain: Chain,
                                         calls: seq<Call3>, clock: Clock, k: nat, until: int)
    requires cfg.enabled && Agrees(oracle, s) && Respects(up, oracle, chain) && k <= |calls|
    requires forall j :: 0 <= j < |calls| ==> Immutable(calls[j].callData)
    requires forall j :: 0 <= j < |calls| ==> Known(oracle, s, chain, calls[j], until)
    requires forall j: nat :: j < |calls| ==> Millis(clock.success(j)) <= until && Millis(clock.failure(j)) <= until
    ensures var (s', rs) := Served(cfg, s, chain, calls, clock, k);
            rs.Some? && forall j :: 0 <= j < |calls| ==> Known(oracle, s', chain, calls[j], until)
  {
    hide Agrees, Hit, Probed, Immutable, Known;
    if k > 0 {
      KnownIsServed(cfg, oracle, up, s, chain, calls, clock, k - 1, until);
      ServedAnswers(cfg, oracle, up, s, chain, calls, clock, k - 1);
      var s', c := Served(cfg, s, chain, calls, clock, k - 1).0, calls[k - 1];
      var t, u := clock.success(k - 1), clock.failure(k - 1);
      KnownIsHit(cfg, oracle, s', chain, c, t, u, until);
      forall j | 0 <= j < |calls|
        ensures Known(oracle, Probed(cfg, s', chain, c, t, u), chain, calls[j], until)
      {
        ProbeKeepsKnown(cfg, oracle, s', chain, c, t, u, calls[j], until);
      }
    }
  }

  /** Once Multicall3's reply to a multicall of immutable reads has been stored, the
      same multicall is served from the cache, with the real answers, until the first
      of its failures lapses. */
  lemma {:induction false} StoredThenServed(cfg: Settings, oracle: Oracle, up: Evaluation, s: Store, chain: Chain,
                                            calls: seq<Call3>, reply: Payload, times: nat -> Instant, clock: Clock,
                                            until: int)
    requires cfg.enabled && ValidSettings(cfg) && Agrees(oracle, s) && Respects(up, oracle, chain)
    requires Replies(up, calls, reply) && Fetched(reply, |calls|).Decoded?
    requires |calls| <= 10000 && |ResultsBytes(Evaluated(up, calls))| < TWO_63
    requires forall j :: 0 <= j < |calls| ==> Immutable(calls[j].callData)
    requires until <= NEVER && forall j: nat :: j < |calls| ==> until <= Millis(times(j) + cfg.ttlBlock)
    requires forall j: nat :: j < |calls| ==> Millis(clock.success(j)) <= until && Millis(clock.failure(j)) <= until
    ensures |Fetched(reply, |calls|).value| == |calls|
    ensures var stored := Remembered(cfg, s, chain, calls, Fetched(reply, |calls|).value, times, |calls|);
            var served := Served(cfg, stored, chain, calls, clock, |calls|).1;
            served.Some? && forall i :: 0 <= i < |calls| ==> StandsFor(served.value[i], up(calls[i]))
  {
    FetchedExactly(up, calls, reply);
    hide Agrees, Immutable, Known, Remembered, Served, StandsFor, ValidSettings, Respects, Fetched, Replies, Tolerated,
         ResultsBytes;
    var stored := Remembered(cfg, s, chain, calls, Evaluated(up, calls), times, |calls|);
    RememberedAgrees(cfg, oracle, up, s, chain, calls, Evaluated(up, calls), times, |calls|);
    forall j | 0 <= j < |calls|
      ensures Known(oracle, stored, chain, calls[j], until)
    {
      RememberedKnows(cfg, oracle, up, s, chain, calls, times, |calls|, j, until);
    }
    KnownIsServed(cfg, oracle, up, stored, chain, calls, clock, |calls|, until);
    ServedAnswers(cfg, oracle, up, stored, chain, calls, clock, |calls|);
  }

  /** A plan never sends a known sub-call upstream. */
  lemma {:induction false} KnownIsNotSent(cfg: Settings, oracle: Oracle, s: Store, chain: Chain, calls: seq<Call3>,
                                          clock: Clock, k: nat, i: nat, until: int)
    requires cfg.enabled && Agrees(oracle, s) && i < |calls| && k <= |calls|
    requires Immutable(calls[i].callData) && Known(oracle, s, chain, calls[i], until)
    requires Millis(clock.success(i)) <= until && Millis(clock.failure(i)) <= until
    ensures var d := Planned(cfg, s, chain, calls, clock, k);
            i !in d.misses && Known(oracle, d.store, chain, calls[i], until)
  {
    hide Agrees, Hit, Probed, Immutable, Known, ViewsAgree, OwnViews;
    if k > 0 {
      KnownIsNotSent(cfg, oracle, s, chain, calls, clock, k - 1, i, until);
      PlannedAgrees(cfg, oracle, s, chain, calls, clock, k - 1);
      var d, c := Planned(cfg, s, chain, calls, clock, k - 1), calls[k - 1];
      var t, u := clock.success(k - 1), clock.failure(k - 1);
      ProbeKeepsKnown(cfg, oracle, d.store, chain, c, t, u, calls[i], until);
      if k - 1 == i {
        KnownIsHit(cfg, oracle, d.store, chain, c, t, u, until);
      }
    }
  }
}
