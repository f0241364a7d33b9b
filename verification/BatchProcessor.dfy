/** The batch processor as the object it is: each method is one critical
    section under bp.mu, and changes the state exactly as its step of the
    protocol says. Batches and calls are kept by number, so that the protocol's
    theorems about runs apply to the object's own states. */
module BatchProcessing {
  import opened Rpc
  import opened Protocol
  import opened ProtocolProofs
  import opened Options

  class BatchProcessor {
    const cfg: Settings
    var batches: map<Url, nat>
    var workers: map<Url, nat>
    var started: seq<Batch>
    var accepted: seq<Call>

    ghost function View(): State
      reads this
    {
      State(batches, workers, started, accepted)
    }

    ghost predicate Valid()
      reads this
    {
      ValidSettings(cfg) && Inv(cfg, View())
    }

    /** NewBatchProcessor */
    constructor (cfg: Settings)
      requires ValidSettings(cfg)
      ensures Valid() && this.cfg == cfg && View() == Start()
    {
      this.cfg := cfg;
      batches, workers, started, accepted := map[], map[], [], [];
    }

    /** poolLocked: the backend's worker channel, made on first use. */
    method EnsurePool(url: Url)
      modifies this`workers
      ensures View() == PoolLocked(old(View()), url)
    {
      if url !in workers {
        workers := workers[url := 0];
      }
      assert workers == old(workers)[url := Tokens(old(View()), url)];
    }

    /** A range scan gets a batch of its own, dispatched at once. */
    method AddSolo(url: Url, request: Request)
      modifies this
      ensures View() == PoolLocked(old(View()), url).(
                          all := old(started) + [Close(NewBatch(url, |old(accepted)|))],
                          calls := old(accepted) + [Call(request, |old(started)|, 0, false, None, [])])
    {
      EnsurePool(url);
      var solo := NewBatch(url, |accepted|);
      accepted := accepted + [Call(request, |started|, 0, false, None, [])];
      started := started + [Close(solo)];
    }

    /** An empty batch for a backend that has none, with its processor running. */
    method OpenBatch(url: Url) returns (b: nat)
      modifies this
      ensures b == |old(started)|
      ensures View() == Opened(old(View()), url)
    {
      EnsurePool(url);
      b := |started|;
      started := started + [NewBatch(url, |accepted|).(entries := [])];
      batches := batches[url := b];
    }

    /** Append to the batch; when full, take it out of the map and dispatch it. */
    method Append(url: Url, b: nat, request: Request)
      requires b < |started|
      modifies this
      ensures View() == Appended(cfg, old(View()), url, b, request)
    {
      var entries := started[b].entries + [|accepted|];
      var full := |entries| >= cfg.maxBatchSize;
      accepted := accepted + [Call(request, b, |entries| - 1, false, None, [])];
      started := started[b := started[b].(entries := entries)];
      if full {
        batches := batches - {url};
        started := started[b := Close(started[b])];
      }
    }

    /** AddRequest: the call's number stands for the channel returned. */
    method AddRequest(url: Url, request: Request) returns (c: nat)
      requires Valid()
      modifies this
      ensures Valid() && View() == Protocol.AddRequest(cfg, old(View()), url, request)
      ensures c == |old(accepted)|
    {
      ghost var before := View();
      AddKeeps(cfg, before, url, request);
      assert forall u :: u in batches ==> batches[u] < |started|;
      hide Inv;
      c := |accepted|;
      if RangeScan(request.rpcMethod) {
        AddSolo(url, request);
        return;
      }
      hide Protocol.AddRequest;
      AddedView(cfg, before, url, request);
      var b: nat;
      if url !in batches {
        b := OpenBatch(url);
      } else {
        b := batches[url];
      }
      Append(url, b, request);
    }

    /** The claim processBatch makes before it reads its entries. */
    method ClaimBatch(b: nat)
      requires Valid() && b < |started| && started[b].phase.Claiming?
      modifies this
      ensures Valid() && View() == Protocol.ClaimBatch(old(View()), b)
    {
      ClaimKeeps(cfg, View(), b);
      hide Inv;
      var url := started[b].url;
      if url in batches && batches[url] == b {
        batches := batches - {url};
      }
      started := started[b := started[b].(phase := Snapshotting)];
    }

    /** The body of FlushAll's loop. */
    method FlushBatch(url: Url)
      requires url in batches && batches[url] < |started|
      modifies this
      ensures View() == FlushedAt(old(View()), url)
    {
      var b := batches[url];
      batches := batches - {url};
      started := started[b := Close(started[b])];
    }

    /** FlushAll: every pending batch is taken out of the map and dispatched. */
    method FlushAll()
      requires Valid()
      modifies this
      ensures Valid() && View() == Flush(old(View()))
    {
      ghost var before := View();
      FlushKeeps(cfg, before);
      FlushStarts(before);
      hide Inv, PartlyFlushed, Flush, FlushedAt;
      while batches != map[]
        invariant PartlyFlushed(before, View())
        decreases |batches|
      {
        var url :| url in batches;
        FlushedOne(cfg, before, View(), url);
        FlushBatch(url);
      }
      FlushEnds(before, View());
    }

    /** GetBatchCount: how many batches a later AddRequest may still join. */
    method GetBatchCount() returns (n: nat)
      requires Valid()
      ensures n == |Joinable(View())|
    {
      CountJoinable(cfg, View());
      n := |batches|;
    }
  }

  /** The batches that are neither claimed nor dispatched. */
  ghost function Joinable(s: State): set<nat> {
    set b: nat | b < |s.all| && Unclaimed(s.all[b])
  }

  lemma {:induction false} ValuesCount(m: map<Url, nat>)
    requires forall u, v :: u in m && v in m && u != v ==> m[u] != m[v]
    ensures |m.Values| == |m|
  {
    if m.Keys == {} {
      assert m.Values == {};
    } else {
      var url :| url in m.Keys;
      ValuesWithout(m, url);
      ValuesCount(m - {url});
      assert m[url] in m.Values && |m.Values - {m[url]}| == |m.Values| - 1;
    }
  }

  /** The map counts the joinable batches: it holds each of them once, and no others. */
  lemma CountJoinable(cfg: Settings, s: State)
    requires Inv(cfg, s)
    ensures |s.batches| == |Joinable(s)|
  {
    forall u, v | u in s.batches && v in s.batches && u != v
      ensures s.batches[u] != s.batches[v]
    {
      MapInjective(cfg, s, u, v);
    }
    ValuesCount(s.batches);
    hide BatchInv, PoolInv, CallInv;
    assert s.batches.Values == Joinable(s);
  }

  function Opened(s: State, url: Url): State {
    PoolLocked(s, url).(batches := s.batches[url := |s.all|],
                        all := s.all + [NewBatch(url, |s.calls|).(entries := [])])
  }

  function Appended(cfg: Settings, s: State, url: Url, b: nat, request: Request): State
    requires b < |s.all|
  {
    var x := s.all[b].(entries := s.all[b].entries + [|s.calls|]);
    var full := |x.entries| >= cfg.maxBatchSize;
    s.(batches := if full then s.batches - {url} else s.batches,
       all := s.all[b := if full then Close(x) else x],
       calls := s.calls + [Call(request, b, |x.entries| - 1, false, None, [])])
  }

  /** Opening a batch when there is none and appending to it is the protocol's step. */
  lemma AddedView(cfg: Settings, s: State, url: Url, request: Request)
    requires forall u :: u in s.batches ==> s.batches[u] < |s.all|
    requires !RangeScan(request.rpcMethod) && cfg.maxBatchSize >= 1
    ensures url in s.batches ==>
              Appended(cfg, s, url, s.batches[url], request) == Protocol.AddRequest(cfg, s, url, request)
    ensures url !in s.batches ==>
              Appended(cfg, Opened(s, url), url, |s.all|, request) == Protocol.AddRequest(cfg, s, url, request)
  {
    if url !in s.batches {
      assert s.batches[url := |s.all|] - {url} == s.batches;
      var x := NewBatch(url, |s.calls|);
      var none: seq<nat> := [];
      assert none + [|s.calls|] == [|s.calls|];
      assert (s.all + [x.(entries := [])])[|s.all| := x] == s.all + [x];
      assert (s.all + [x.(entries := [])])[|s.all| := Close(x)] == s.all + [Close(x)];
    }
  }

  /** t is s with some of its pending batches flushed. */
  ghost predicate PartlyFlushed(s: State, t: State) {
    && t.workers == s.workers && t.calls == s.calls && |t.all| == |s.all|
    && (forall u :: u in t.batches ==> u in s.batches && t.batches[u] == s.batches[u])
    && forall d :: 0 <= d < |s.all| ==>
         t.all[d] == if d in s.batches.Values && d !in t.batches.Values then Close(s.all[d]) else s.all[d]
  }

  lemma FlushStarts(s: State)
    ensures PartlyFlushed(s, s)
  {
  }

  lemma FlushEnds(s: State, t: State)
    requires PartlyFlushed(s, t) && t.batches == map[]
    ensures t == Flush(s)
  {
    assert t.all == Flush(s).all;
  }

  function FlushedAt(t: State, url: Url): State
    requires url in t.batches && t.batches[url] < |t.all|
  {
    var b := t.batches[url];
    State(t.batches - {url}, t.workers, t.all[b := Close(t.all[b])], t.calls)
  }

  lemma ValuesWithout(m: map<Url, nat>, url: Url)
    requires url in m && forall u :: u in m && u != url ==> m[u] != m[url]
    ensures (m - {url}).Values == m.Values - {m[url]}
    ensures |m - {url}| == |m| - 1
  {
    var rest := m - {url};
    assert rest.Keys == m.Keys - {url};
    assert |rest.Keys| == |m.Keys| - 1;
    forall d | d in m.Values && d != m[url]
      ensures d in rest.Values
    {
      var u :| u in m && m[u] == d;
      assert u in rest && rest[u] == d;
    }
  }

  /** No two URLs lead to the same batch. */
  lemma MapInjective(cfg: Settings, s: State, u: Url, v: Url)
    requires Inv(cfg, s) && u in s.batches && v in s.batches && u != v
    ensures s.batches[u] != s.batches[v] && s.batches[u] < |s.all|
  {
    hide BatchInv, PoolInv, CallInv;
    assert s.all[s.batches[u]].url == u && s.all[s.batches[v]].url == v;
  }

  lemma FlushedOne(cfg: Settings, s: State, t: State, url: Url)
    requires Inv(cfg, s) && PartlyFlushed(s, t) && url in t.batches
    ensures t.batches[url] < |t.all| && PartlyFlushed(s, FlushedAt(t, url))
    ensures |FlushedAt(t, url).batches| < |t.batches|
  {
    assert s.batches[url] < |s.all|;
    hide Inv;
    forall u | u in t.batches && u != url
      ensures t.batches[u] != t.batches[url]
    {
      MapInjective(cfg, s, u, url);
    }
    FlushedRest(s, t, url);
  }

  lemma FlushedRest(s: State, t: State, url: Url)
    requires PartlyFlushed(s, t) && url in t.batches && t.batches[url] < |t.all|
    requires forall u :: u in t.batches && u != url ==> t.batches[u] != t.batches[url]
    ensures PartlyFlushed(s, FlushedAt(t, url)) && |FlushedAt(t, url).batches| < |t.batches|
  {
    ValuesWithout(t.batches, url);
    var b, r := t.batches[url], FlushedAt(t, url);
    assert b in s.batches.Values && b in t.batches.Values;
    forall d | 0 <= d < |s.all|
      ensures r.all[d] == if d in s.batches.Values && d !in r.batches.Values then Close(s.all[d]) else s.all[d]
    {
      hide Close;
      assert d != b ==> r.all[d] == t.all[d];
    }
  }
}
