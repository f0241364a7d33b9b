/** The store as the object it is: two tiers and a block index that its methods
    update in place, each changing the state exactly as the cache's step
    functions say. Go's nil tiers of a disabled store are empty maps here. */
module CacheStore {
  import opened Options
  import opened Words
  import opened Collections
  import opened Codec
  import opened Rpc
  import opened Tracker
  import opened Cache
  import opened Partial
  import opened Decoder
  import opened MulticallRequests

  /** The state between PlanMulticall and CompleteMulticall. */
  class MulticallPlan {
    const id: Id
    const calls: seq<Call3>
    const missIndices: seq<nat>
    const reduced: Request
    var results: seq<CallResult>

    ghost predicate Valid()
      reads this
    {
      |results| == |calls| && forall j :: 0 <= j < |missIndices| ==> missIndices[j] < |calls|
    }

    constructor (id: Id, calls: seq<Call3>, missIndices: seq<nat>, reduced: Request, results: seq<CallResult>)
      ensures this.id == id && this.calls == calls && this.missIndices == missIndices
      ensures this.reduced == reduced && this.results == results
    {
      this.id, this.calls, this.missIndices, this.reduced, this.results := id, calls, missIndices, reduced, results;
    }
  }

  class CacheStore {
    const cfg: Cache.Settings
    var blockHashes: map<Chain, map<Height, Hash>>
    var latestBlocks: map<Chain, Height>
    var latestHashes: map<Chain, Hash>
    var mem: map<Key, CacheEntry>
    var db: map<Key, CacheEntry>

    ghost function View(): Store
      reads this
    {
      Store(Index(blockHashes, latestBlocks, latestHashes), mem, db)
    }

    ghost function BlockIndex(): Index
      reads this
    {
      Index(blockHashes, latestBlocks, latestHashes)
    }

    /** A disabled store has neither tier. */
    ghost predicate Valid()
      reads this
    {
      !cfg.enabled ==> mem == map[] && db == map[]
    }

    /** Open: lifetimes that are not positive get their defaults. */
    constructor (enabled: bool, depths: Depths, ttlLatest: int, ttlBlock: int)
      ensures Valid() && Cache.ValidSettings(cfg) && View() == Opened
      ensures cfg.enabled == enabled && cfg.depths == depths
      ensures cfg.ttlLatest == if ttlLatest > 0 then ttlLatest else 250 * NANOS_PER_MILLI
      ensures cfg.ttlBlock == if ttlBlock > 0 then ttlBlock else 24 * 60 * 60 * 1000 * NANOS_PER_MILLI
    {
      cfg := Cache.Settings(enabled, depths, if ttlLatest <= 0 then 250_000_000 else ttlLatest,
                            if ttlBlock <= 0 then 86_400_000_000_000 else ttlBlock);
      blockHashes, latestBlocks, latestHashes := map[], map[], map[];
      mem, db := map[], map[];
    }

    /** detectReorg: three probes, of which the second repeats the first for
        heights up to the tip. */
    method DetectReorg(head: Head) returns (reorg: bool)
      requires head.chain in blockHashes
      ensures reorg == Contradicts(BlockIndex(), head)
    {
      var known := blockHashes[head.chain];
      if head.number in known {
        if known[head.number] != head.hash {
          return true;
        }
      }
      var tip := if head.chain in latestBlocks then latestBlocks[head.chain] else 0;
      if head.number > 0 && head.number <= tip {
        if head.number in known {
          if known[head.number] != head.hash {
            return true;
          }
        }
      }
      if head.number > 1 && head.parent.Some? {
        var parentNumber := head.number - 1;
        if parentNumber in known {
          if head.parent.value != "" {
            if head.parent.value != known[parentNumber] {
              return true;
            }
          }
        }
      }
      return false;
    }

    /** purgeChain: one pass over the keys of the memory tier. */
    method PurgeChain(chain: Chain)
      modifies this`mem
      ensures mem == Purged(old(mem), chain)
    {
      var keys := mem.Keys;
      while keys != {}
        invariant keys <= mem.Keys <= old(mem).Keys
        invariant forall k :: k in mem ==> mem[k] == old(mem)[k]
        invariant forall k :: k in mem && k !in keys ==> mem[k].chain != chain
        invariant forall k :: k in old(mem) && old(mem)[k].chain != chain ==> k in mem
        decreases |keys|
      {
        var key :| key in keys;
        keys := keys - {key};
        if mem[key].chain == chain {
          mem := mem - {key};
        }
      }
    }

    /** cleanupOldBlockHashes */
    method CleanupOldBlockHashes(chain: Chain)
      requires chain in blockHashes
      modifies this`blockHashes
      ensures BlockIndex() == Cleaned(cfg.depths, old(BlockIndex()), chain)
    {
      var window := 2 * ReorgDepth(cfg.depths, chain);
      var tip := if chain in latestBlocks then latestBlocks[chain] else 0;
      if |blockHashes[chain]| <= window || tip < window {
        return;
      }
      var cutoff := tip - window;
      ghost var before := blockHashes[chain];
      var kept := blockHashes[chain];
      var heights := kept.Keys;
      while heights != {}
        invariant heights <= kept.Keys <= before.Keys
        invariant forall n :: n in kept ==> kept[n] == before[n]
        invariant forall n :: n in kept && n !in heights ==> n >= cutoff
        invariant forall n :: n in before && n >= cutoff ==> n in kept
        decreases |heights|
      {
        var n :| n in heights;
        heights := heights - {n};
        if n < cutoff {
          kept := kept - {n};
        }
      }
      assert kept == Pruned(before, cutoff);
      blockHashes := blockHashes[chain := kept];
    }

    /** The writes UpdateLatestBlock makes to the index before it cleans up. */
    method RecordHead(head: Head)
      requires head.chain in blockHashes
      modifies this`blockHashes, this`latestBlocks, this`latestHashes
      ensures head.chain in blockHashes && BlockIndex() == Recorded(old(BlockIndex()), head)
    {
      var chain := head.chain;
      var known: map<Height, Hash> := blockHashes[chain];
      known := known[head.number := head.hash];
      blockHashes := blockHashes[chain := known];
      var tip := if chain in latestBlocks then latestBlocks[chain] else 0;
      if head.number > tip {
        latestBlocks := latestBlocks[chain := head.number];
        latestHashes := latestHashes[chain := head.hash];
      }
    }

    /** UpdateLatestBlock */
    method UpdateLatestBlock(head: Head)
      requires Valid()
      modifies this
      ensures Valid() && View() == Reported(cfg, old(View()), head)
    {
      hide Contradicts, Recorded, Cleaned, Purged;
      ghost var before := BlockIndex();
      if head.chain !in blockHashes {
        blockHashes := blockHashes[head.chain := map[]];
      }
      EmptyIsAbsent(before, BlockIndex(), head);
      var reorg := DetectReorg(head);
      if reorg && cfg.enabled {
        PurgeChain(head.chain);
      }
      NothingPurged(head.chain);
      RecordHead(head);
      CleanupOldBlockHashes(head.chain);
    }

    /** IsBlockHashValid */
    method IsBlockHashValid(chain: Chain, hash: Hash, number: Height) returns (valid: bool)
      ensures valid == HashValid(cfg.depths, BlockIndex(), chain, hash, number)
    {
      if hash == "" {
        return true;
      }
      if chain in blockHashes {
        if number in blockHashes[chain] {
          return blockHashes[chain][number] == hash;
        }
      }
      var tip := if chain in latestBlocks then latestBlocks[chain] else 0;
      if tip > 0 && (tip - number) % TWO_64 <= ReorgDepth(cfg.depths, chain) {
        return false;
      }
      return true;
    }

    /** Get */
    method Get(key: Key, now: Instant) returns (body: Option<seq<byte>>)
      requires Valid()
      modifies this`mem, this`db
      ensures Valid() && View() == Looked(cfg, old(View()), key, now)
      ensures body == Found(cfg, old(View()), key, now)
    {
      hide HashValid;
      if !cfg.enabled {
        return None;
      }
      if key in mem && mem[key].expiry >= Millis(now) {
        var valid := IsBlockHashValid(mem[key].chain, mem[key].hash, mem[key].number);
        if valid {
          return Some(mem[key].body);
        }
        mem := mem - {key};
      }
      if key !in db {
        return None;
      }
      var e := db[key];
      if e.expiry >= Millis(now) {
        var valid := IsBlockHashValid(e.chain, e.hash, e.number);
        if valid {
          mem := mem[key := e];
          return Some(e.body);
        }
        db := db - {key};
      }
      return None;
    }

    /** Put: the clock is read when the expiry is set and again by shortLived. */
    method Put(key: Key, body: seq<byte>, ttl: int, chain: Chain, callNumber: Height, callHash: Hash,
               now: Instant, later: Instant)
      requires Valid()
      modifies this`mem, this`db
      ensures Valid()
      ensures View() == Step(cfg, old(View()), Event.Put(key, body, ttl, chain, callNumber, callHash, now, later))
    {
      if !cfg.enabled || ttl <= 0 {
        return;
      }
      var tip := if chain in latestBlocks then latestBlocks[chain] else 0;
      var tipHash := if chain in latestHashes then latestHashes[chain] else "";
      var number, hash := callNumber, callHash;
      if number == 0 {
        number, hash := tip, tipHash;
      }
      var expiry := Millis(now + ttl);
      if callNumber > 0 && tip > callNumber && tip - callNumber > ReorgDepth(cfg.depths, chain) {
        expiry := NEVER;
      }
      var e := CacheEntry(expiry, body, chain, hash, number);
      mem := mem[key := e];
      if expiry == NEVER || expiry - Millis(later) > Millis(cfg.ttlLatest) {
        db := db[key := e];
      }
    }

    /** putNegative */
    method PutNegative(chain: Chain, target: Address, callData: seq<byte>, now: Instant)
      requires Valid()
      modifies this`mem, this`db
      ensures Valid() && View() == Step(cfg, old(View()), Event.PutNegative(chain, target, callData, now))
    {
      if !cfg.enabled || cfg.ttlBlock <= 0 {
        return;
      }
      var e := CacheEntry(Millis(now + cfg.ttlBlock), [], chain, "", 0);
      mem := mem[Neg(chain, target, callData) := e];
      db := db[Neg(chain, target, callData) := e];
    }

    /** PutImmortal */
    method PutImmortal(key: Key, body: seq<byte>, chain: Chain)
      requires Valid()
      modifies this`mem, this`db
      ensures Valid() && View() == Step(cfg, old(View()), Event.PutImmortal(key, body, chain))
    {
      if !cfg.enabled {
        return;
      }
      var e := CacheEntry(NEVER, body, chain, "", 0);
      mem := mem[key := e];
      db := db[key := e];
    }

    /** The lookup serveMulticall and PlanMulticall make for one sub-call. */
    method Probe(chain: Chain, c: Call3, t: Instant, u: Instant) returns (hit: Option<CallResult>)
      requires Valid()
      modifies this`mem, this`db
      ensures Valid() && View() == Probed(cfg, old(View()), chain, c, t, u)
      ensures hit == Hit(cfg, old(View()), chain, c, t, u)
    {
      hide Looked, Found;
      if Immutable(c.callData) {
        var body := Get(SubKey(chain, c), t);
        if body.Some? {
          return Some(CallResult(true, body.value));
        }
        var negative := Get(NegKey(chain, c), u);
        if negative.Some? {
          return Some(CallResult(false, []));
        }
      }
      return None;
    }

    /** serveMulticall */
    method ServeMulticall(chain: Chain, calls: seq<Call3>, clock: Clock) returns (answer: Option<Payload>)
      requires Valid()
      modifies this`mem, this`db
      ensures Valid()
      ensures var (s', rs) := Served(cfg, old(View()), chain, calls, clock, |calls|);
              && View() == s'
              && answer == if rs.Some? then Some(HexResult(ResultsBytes(rs.value))) else None
    {
      hide Hit, Probed;
      var results: seq<CallResult> := [];
      for i := 0 to |calls|
        invariant Valid()
        invariant Served(cfg, old(View()), chain, calls, clock, i) == (View(), Some(results))
      {
        var hit := Probe(chain, calls[i], clock.success(i), clock.failure(i));
        if hit.None? {
          assert Served(cfg, old(View()), chain, calls, clock, i + 1) == (View(), None);
          MissEndsServing(cfg, old(View()), chain, calls, clock, i + 1, |calls|);
          return None;
        }
        results := results + [hit.value];
      }
      return Some(HexResult(ResultsBytes(results)));
    }

    /** PlanMulticall's loop. */
    method PlanCalls(chain: Chain, calls: seq<Call3>, clock: Clock)
      returns (results: seq<CallResult>, missIndices: seq<nat>, miss: seq<Call3>)
      requires Valid()
      modifies this`mem, this`db
      ensures Valid()
      ensures Planned(cfg, old(View()), chain, calls, clock, |calls|) == Draft(View(), results, missIndices)
      ensures |missIndices| <= |results| == |calls| && forall j :: 0 <= j < |missIndices| ==> missIndices[j] < |calls|
      ensures miss == Picked(calls, missIndices)
    {
      hide Hit, Probed;
      results, missIndices, miss := [], [], [];
      for i := 0 to |calls|
        invariant Valid()
        invariant Planned(cfg, old(View()), chain, calls, clock, i) == Draft(View(), results, missIndices)
        invariant |missIndices| <= |results| == i
        invariant forall j :: 0 <= j < |missIndices| ==> missIndices[j] < |calls|
        invariant miss == Picked(calls, missIndices)
      {
        var hit := Probe(chain, calls[i], clock.success(i), clock.failure(i));
        if hit.Some? {
          results := results + [hit.value];
        } else {
          results := results + [UNSET];
          missIndices := missIndices + [i];
          miss := miss + [calls[i]];
        }
      }
    }

    /** PlanMulticall: a plan only when some, but not all, of the calls missed. The
        method panics where decoding the calldata does. */
    method PlanMulticall(chain: Chain, r: Request, clock: Clock) returns (plan: MulticallPlan?, panicked: bool)
      requires Valid()
      modifies this`mem, this`db
      ensures Valid()
      ensures panicked <==> cfg.enabled && WrappedCalls(r).Fault?
      ensures !cfg.enabled || !WrappedCalls(r).Decoded? ==> plan == null && View() == old(View())
      ensures cfg.enabled && WrappedCalls(r).Decoded? ==>
                var calls := WrappedCalls(r).value;
                var d := Planned(cfg, old(View()), chain, calls, clock, |calls|);
                && View() == d.store
                && (plan != null <==> 0 < |d.misses| < |calls|)
                && (plan != null ==>
                      && fresh(plan) && plan.Valid() && plan.id == r.id && plan.calls == calls
                      && plan.missIndices == d.misses && plan.results == d.results
                      && plan.reduced == Reduced(r, Picked(calls, d.misses)))
    {
      if !cfg.enabled || r.rpcMethod != "eth_call" || !r.params.CallParams? || r.params.data == Absent {
        return null, false;
      }
      hide Planned, Reduced;
      var decoded := DecodeAggregate3Calls(HexToBytes(r.params.data));
      if !decoded.Decoded? {
        return null, decoded.Fault?;
      }
      var calls := decoded.value;
      var results, missIndices, miss := PlanCalls(chain, calls, clock);
      if |miss| == 0 || |miss| == |calls| {
        return null, false;
      }
      plan := new MulticallPlan(r.id, calls, missIndices, Reduced(r, miss), results);
      panicked := false;
    }

    /** Writing down one fetched sub-call. */
    method RememberCall(chain: Chain, c: Call3, r: CallResult, now: Instant)
      requires Valid()
      modifies this`mem, this`db
      ensures Valid() && View() == Remember(cfg, old(View()), chain, c, r, now)
    {
      if Immutable(c.callData) {
        if r.success {
          PutImmortal(SubKey(chain, c), r.returnData, chain);
        } else {
          PutNegative(chain, c.target, c.callData, now);
        }
      }
    }

    /** CompleteMulticall's loop: fill the plan's misses and write each one down. */
    method FillMisses(chain: Chain, plan: MulticallPlan, got: seq<CallResult>, times: nat -> Instant)
      requires Valid() && plan.Valid() && |got| == |plan.missIndices|
      modifies this`mem, this`db, plan
      ensures Valid() && plan.Valid()
      ensures View() == Remembered(cfg, old(View()), chain, Picked(plan.calls, plan.missIndices), got, times, |got|)
      ensures plan.results == Overwritten(old(plan.results), plan.missIndices, got, |got|)
    {
      hide Remember;
      ghost var cs := Picked(plan.calls, plan.missIndices);
      for j := 0 to |plan.missIndices|
        invariant Valid() && plan.Valid()
        invariant View() == Remembered(cfg, old(View()), chain, cs, got, times, j)
        invariant plan.results == Overwritten(old(plan.results), plan.missIndices, got, j)
      {
        var idx := plan.missIndices[j];
        plan.results := plan.results[idx := got[j]];
        RememberCall(chain, plan.calls[idx], got[j], times(j));
      }
    }

    /** CompleteMulticall: fills the plan's misses in place. errorMember says that
        the reply has an error member, which counts against it even when null. Fault
        is a panic in the decoder, before anything is written. */
    method CompleteMulticall(chain: Chain, plan: MulticallPlan, reply: Payload, errorMember: bool,
                             times: nat -> Instant)
      returns (answer: Outcome<Payload>)
      requires Valid() && plan.Valid()
      modifies this`mem, this`db, plan
      ensures Valid() && plan.Valid()
      ensures var got := if errorMember then Rejected else Fetched(reply, |plan.missIndices|);
              if got.Decoded? then
                && View() == Remembered(cfg, old(View()), chain, Picked(plan.calls, plan.missIndices), got.value, times,
                                        |plan.missIndices|)
                && plan.results == Overwritten(old(plan.results), plan.missIndices, got.value, |plan.missIndices|)
                && answer == Decoded(HexResult(ResultsBytes(plan.results)))
              else
                View() == old(View()) && plan.results == old(plan.results)
                    && answer == (if got.Fault? then Fault else Rejected)
    {
      hide Remembered, Overwritten, ResultsBytes;
      if errorMember || !reply.HexResult? {
        return Rejected;
      }
      var decoded := DecodeAggregate3Result(reply.bytes);
      if decoded.Fault? {
        return Fault;
      }
      if decoded.Rejected? || |decoded.value| != |plan.missIndices| {
        return Rejected;
      }
      FillMisses(chain, plan, decoded.value, times);
      return Decoded(HexResult(ResultsBytes(plan.results)));
    }

    /** cacheMulticallSubcalls' loop. */
    method RememberCalls(chain: Chain, calls: seq<Call3>, results: seq<CallResult>, times: nat -> Instant)
      requires Valid() && |results| == |calls|
      modifies this`mem, this`db
      ensures Valid() && View() == Remembered(cfg, old(View()), chain, calls, results, times, |calls|)
    {
      hide Remember;
      for i := 0 to |calls|
        invariant Valid()
        invariant View() == Remembered(cfg, old(View()), chain, calls, results, times, i)
      {
        RememberCall(chain, calls[i], results[i], times(i));
      }
    }

    /** cacheMulticallSubcalls; it panics where decoding the reply does. */
    method CacheMulticallSubcalls(chain: Chain, calls: seq<Call3>, reply: Payload, times: nat -> Instant)
      returns (panicked: bool)
      requires Valid()
      modifies this`mem, this`db
      ensures Valid()
      ensures panicked <==> Fetched(reply, |calls|).Fault?
      ensures View() == if Fetched(reply, |calls|).Decoded?
                        then Remembered(cfg, old(View()), chain, calls, Fetched(reply, |calls|).value, times, |calls|)
                        else old(View())
    {
      if !reply.HexResult? {
        return false;
      }
      var decoded := DecodeAggregate3Result(reply.bytes);
      if !decoded.Decoded? || |decoded.value| != |calls| {
        return decoded.Fault?;
      }
      hide Remembered;
      RememberCalls(chain, calls, decoded.value, times);
      return false;
    }
  }

  lemma NothingPurged(chain: Chain)
    ensures Purged(map[], chain) == map[]
  {
  }

  /** A chain with no hashes yet and a chain not yet in the map are the same to a report. */
  lemma EmptyIsAbsent(ix: Index, made: Index, head: Head)
    requires made.latest == ix.latest && made.latestHash == ix.latestHash
    requires made.hashes == if head.chain in ix.hashes then ix.hashes else ix.hashes[head.chain := map[]]
    ensures Recorded(made, head) == Recorded(ix, head)
    ensures Contradicts(made, head) == Contradicts(ix, head)
  {
  }

  lemma {:induction false} MissEndsServing(cfg: Cache.Settings, s: Store, chain: Chain, calls: seq<Call3>, clock: Clock,
                                           j: nat, k: nat)
    requires j <= k <= |calls| && Served(cfg, s, chain, calls, clock, j).1.None?
    ensures Served(cfg, s, chain, calls, clock, k) == Served(cfg, s, chain, calls, clock, j)
  {
    hide Hit, Probed;
    if j < k {
      MissEndsServing(cfg, s, chain, calls, clock, j, k - 1);
    }
  }
}
