/** The latency record of a chain's backends and the weights drawn from it.
    Weights are real numbers; raising a ratio to the power of -gamma is a
    function given from outside. */
module Latency {
  import opened Words
  import opened Collections
  import Balancer

  datatype Measured = Measured(healthUp: bool, history: seq<nat>, average: nat)

  /** math.MaxInt64 */
  const SLOWEST: nat := MAX_INT64

  const FLOOR: real := 0.1

  type Power = real -> real

  /** What x to the power of -gamma does for gamma >= 0. */
  ghost predicate Decays(pow: Power) {
    pow(1.0) == 1.0 && forall x: real, y: real :: 1.0 <= x <= y ==> pow(y) <= pow(x)
  }

  function Total(history: seq<nat>): nat {
    if history == [] then 0 else Total(history[..|history| - 1]) + history[|history| - 1]
  }

  function Mean(history: seq<nat>): nat
    requires history != []
  {
    Total(history) / |history|
  }

  /** The backend after one more measurement. */
  function Measure(b: Measured, latency: nat, samples: nat): Measured
    requires samples >= 1
  {
    var kept := if |b.history| >= samples then b.history[1..] else b.history;
    var history := kept + [latency];
    b.(history := history, average := Mean(history))
  }

  /** The backend can be ranked by its latency. */
  predicate Ranked(b: Measured) {
    b.healthUp && b.average > 0
  }

  /** The least average among the ranked backends. */
  function Fastest(bes: seq<Measured>): nat {
    if bes == [] then SLOWEST
    else
      var b, best := bes[|bes| - 1], Fastest(bes[..|bes| - 1]);
      if Ranked(b) && b.average < best then b.average else best
  }

  function Weight(b: Measured, fastest: nat, pow: Power): real
    requires fastest > 0
  {
    if fastest == SLOWEST || !Ranked(b) then 1.0
    else
      var w := pow(b.average as real / fastest as real);
      if w < FLOOR then FLOOR else w
  }

  function Weights(bes: seq<Measured>, pow: Power): (ws: seq<real>)
    ensures |ws| == |bes|
    ensures Fastest(bes) > 0 && forall i :: 0 <= i < |bes| ==> ws[i] == Weight(bes[i], Fastest(bes), pow)
  {
    FastestBounds(bes);
    seq(|bes|, i requires 0 <= i < |bes| => Weight(bes[i], Fastest(bes), pow))
  }

  lemma {:induction false} FastestBounds(bes: seq<Measured>)
    ensures 0 < Fastest(bes) <= SLOWEST
    ensures forall i :: 0 <= i < |bes| && Ranked(bes[i]) ==> Fastest(bes) <= bes[i].average
    ensures Fastest(bes) < SLOWEST ==> exists i :: 0 <= i < |bes| && Ranked(bes[i]) && bes[i].average == Fastest(bes)
  {
    if bes != [] {
      var n := |bes| - 1;
      FastestBounds(bes[..n]);
      if Fastest(bes) < SLOWEST && Fastest(bes) == Fastest(bes[..n]) {
        var i :| 0 <= i < n && Ranked(bes[..n][i]) && bes[..n][i].average == Fastest(bes[..n]);
        assert bes[i] == bes[..n][i];
      }
    }
  }

  /** The balancer's record of one chain. */
  class LoadBalancer {
    var backends: seq<Measured>
    const weights: array<real>

    ghost predicate Valid()
      reads this
    {
      weights.Length == |backends|
    }

    /** NewLoadBalancer: nothing measured, all weights 1. */
    constructor (up: seq<bool>)
      ensures Valid() && fresh(weights)
      ensures backends == seq(|up|, i requires 0 <= i < |up| => Measured(up[i], [], 0))
      ensures forall i :: 0 <= i < |up| ==> weights[i] == 1.0
    {
      backends := seq(|up|, i requires 0 <= i < |up| => Measured(up[i], [], 0));
      weights := new real[|up|](_ => 1.0);
    }

    static method TotalLatency(history: seq<nat>) returns (total: nat)
      ensures total == Total(history)
    {
      total := 0;
      for k := 0 to |history|
        invariant total == Total(history[..k])
      {
        assert history[..k + 1][..k] == history[..k];
        total := total + history[k];
      }
      assert history[..|history|] == history;
    }

    /** UpdateLatency */
    method UpdateLatency(i: nat, latency: nat, samples: nat, pow: Power)
      requires Valid() && i < |backends| && samples >= 1
      modifies this, weights
      ensures Valid() && backends == old(backends)[i := Measure(old(backends)[i], latency, samples)]
      ensures weights[..] == Weights(backends, pow)
    {
      var history := backends[i].history;
      if |history| >= samples {
        history := history[1..];
      }
      history := history + [latency];
      var total := TotalLatency(history);
      hide Total, Weights;
      assert Mean(history) == total / |history|;
      backends := backends[i := backends[i].(history := history, average := total / |history|)];
      Weigh(pow);
    }

    /** weigh: overwrites every weight of the chain. */
    method Weigh(pow: Power)
      requires Valid()
      modifies weights
      ensures weights[..] == Weights(backends, pow)
    {
      if |backends| == 0 {
        return;
      }
      var fastest := SLOWEST;
      for k := 0 to |backends|
        invariant fastest == Fastest(backends[..k])
      {
        assert backends[..k + 1][..k] == backends[..k];
        var b := backends[k];
        if b.healthUp && b.average > 0 && b.average < fastest {
          fastest := b.average;
        }
      }
      assert backends[..|backends|] == backends;
      FastestBounds(backends);
      if fastest == SLOWEST {
        for k := 0 to weights.Length
          invariant forall j :: 0 <= j < k ==> weights[j] == 1.0
        {
          weights[k] := 1.0;
        }
        return;
      }
      for k := 0 to |backends|
        invariant forall j :: 0 <= j < k ==> weights[j] == Weight(backends[j], fastest, pow)
      {
        var b := backends[k];
        if !b.healthUp || b.average <= 0 {
          weights[k] := 1.0;
          continue;
        }
        var weight := pow(b.average as real / fastest as real);
        if weight < 0.1 {
          weight := 0.1;
        }
        weights[k] := weight;
      }
    }
  }

  /* ---------- Histories ---------- */

  /** The backend after a run of measurements. */
  function AfterAll(up: bool, latencies: seq<nat>, samples: nat): Measured
    requires samples >= 1
  {
    if latencies == [] then Measured(up, [], 0)
    else Measure(AfterAll(up, latencies[..|latencies| - 1], samples), latencies[|latencies| - 1], samples)
  }

  /** The last k elements, or all of them when there are fewer. */
  function LastOf(s: seq<nat>, k: nat): seq<nat> {
    if |s| <= k then s else s[|s| - k..]
  }

  lemma LastOfLonger(s: seq<nat>, x: nat, k: nat)
    requires k >= 1
    ensures |LastOf(s, k)| >= k <==> |s| >= k
    ensures LastOf(s + [x], k) == (if |s| >= k then LastOf(s, k)[1..] else LastOf(s, k)) + [x]
  {
  }

  lemma Measurement(b: Measured, latency: nat, samples: nat)
    requires samples >= 1
    ensures var m := Measure(b, latency, samples);
            && m.history == (if |b.history| >= samples then b.history[1..] else b.history) + [latency]
            && m.average == Mean(m.history)
  {
  }

  /** The history is always the last min(k, samples) latencies. */
  lemma {:induction false} HistoryIsLast(up: bool, latencies: seq<nat>, samples: nat)
    requires samples >= 1
    ensures AfterAll(up, latencies, samples).history == LastOf(latencies, samples)
  {
    if latencies != [] {
      var init, last := latencies[..|latencies| - 1], latencies[|latencies| - 1];
      HistoryIsLast(up, init, samples);
      Measurement(AfterAll(up, init, samples), last, samples);
      hide Measure, LastOf, Mean;
      LastOfLonger(init, last, samples);
      assert latencies == init + [last];
    }
  }

  /** And the average is the mean of those. */
  lemma {:induction false} AverageIsOfLast(up: bool, latencies: seq<nat>, samples: nat)
    requires samples >= 1 && latencies != []
    ensures AfterAll(up, latencies, samples).average == Mean(LastOf(latencies, samples))
  {
    HistoryIsLast(up, latencies, samples);
    Measurement(AfterAll(up, latencies[..|latencies| - 1], samples), latencies[|latencies| - 1], samples);
    hide Mean, Measure;
  }

  /** The mean is the sum over the number, rounded down, and no measurement counts for
      more than another. */
  lemma {:induction false} MeanExactly(history: seq<nat>)
    requires history != []
    ensures Mean(history) * |history| <= Total(history) < (Mean(history) + 1) * |history|
    ensures forall other: seq<nat> :: multiset(other) == multiset(history) ==> Total(other) == Total(history)
  {
    forall other: seq<nat> | multiset(other) == multiset(history)
      ensures Total(other) == Total(history)
    {
      TotalReordered(history, other);
    }
  }

  lemma {:induction false} TotalWithout(s: seq<nat>, j: nat)
    requires j < |s|
    ensures Total(s) == Total(s[..j] + s[j + 1..]) + s[j]
  {
    var n := |s| - 1;
    if j == n {
      assert s[..j] + s[j + 1..] == s[..n];
    } else {
      TotalWithout(s[..n], j);
      var rest := s[..j] + s[j + 1..];
      assert rest[..|rest| - 1] == s[..n][..j] + s[..n][j + 1..] && rest[|rest| - 1] == s[n];
    }
  }

  lemma {:induction false} TotalReordered(a: seq<nat>, b: seq<nat>)
    requires multiset(a) == multiset(b)
    ensures Total(a) == Total(b)
    decreases |a|
  {
    if a == [] {
      assert |multiset(b)| == |b|;
    } else {
      var n := |a| - 1;
      assert a == a[..n] + [a[n]] && a[n] in multiset(b);
      assert Total(a) == Total(a[..n]) + a[n];
      hide Total;
      var j :| 0 <= j < |b| && b[j] == a[n];
      TotalWithout(b, j);
      SameWithout(a, b, j);
      TotalReordered(a[..n], b[..j] + b[j + 1..]);
    }
  }

  lemma SameWithout(a: seq<nat>, b: seq<nat>, j: nat)
    requires a != [] && multiset(a) == multiset(b) && j < |b| && b[j] == a[|a| - 1]
    ensures multiset(a[..|a| - 1]) == multiset(b[..j] + b[j + 1..])
  {
    var n := |a| - 1;
    assert a == a[..n] + [a[n]] && b == b[..j] + ([b[j]] + b[j + 1..]);
    SameRest(multiset(a), multiset(a[..n]), multiset(b[..j] + b[j + 1..]), a[n]);
  }

  /* ---------- Weights ---------- */

  lemma RatioOrder(a: nat, b: nat, fastest: nat)
    requires 0 < fastest <= a <= b
    ensures 1.0 <= a as real / fastest as real <= b as real / fastest as real
  {
    var f, x, y := fastest as real, a as real, b as real;
    Divided(f, f, x);
    Divided(f, x, y);
  }

  lemma Divided(f: real, x: real, y: real)
    requires 0.0 < f && x <= y
    ensures x / f <= y / f && f / f == 1.0
  {
  }

  lemma WeightBounds(b: Measured, fastest: nat, pow: Power)
    requires Decays(pow) && fastest > 0 && (Ranked(b) ==> fastest <= b.average)
    ensures FLOOR <= Weight(b, fastest, pow) <= 1.0
    ensures b.average == fastest ==> Weight(b, fastest, pow) == 1.0
  {
    if Ranked(b) {
      RatioOrder(fastest, b.average, fastest);
      Divided(fastest as real, 0.0, 0.0);
      assert pow(1.0) == 1.0;
    }
  }

  lemma WeightOrder(a: Measured, b: Measured, fastest: nat, pow: Power)
    requires Decays(pow) && Ranked(a) && Ranked(b) && 0 < fastest <= a.average <= b.average
    ensures Weight(b, fastest, pow) <= Weight(a, fastest, pow)
  {
    RatioOrder(a.average, b.average, fastest);
  }

  /** Every weight lies between 0.1 and 1; a ranked backend with the least
      average has weight 1; and a slower ranked backend never outweighs a faster. */
  lemma {:induction false} WeightsRank(bes: seq<Measured>, pow: Power, i: nat, j: nat)
    requires Decays(pow) && i < |bes| && j < |bes|
    ensures FLOOR <= Weights(bes, pow)[i] <= 1.0
    ensures Ranked(bes[i]) && (forall k :: 0 <= k < |bes| && Ranked(bes[k]) ==> bes[i].average <= bes[k].average) ==>
              Weights(bes, pow)[i] == 1.0
    ensures Ranked(bes[i]) && Ranked(bes[j]) && bes[i].average <= bes[j].average ==>
              Weights(bes, pow)[j] <= Weights(bes, pow)[i]
  {
    FastestBounds(bes);
    hide Weight, Decays, Ranked, Fastest;
    WeightBounds(bes[i], Fastest(bes), pow);
    if Ranked(bes[i]) && Ranked(bes[j]) && bes[i].average <= bes[j].average {
      WeightOrder(bes[i], bes[j], Fastest(bes), pow);
    }
    if Fastest(bes) == SLOWEST {
      SlowestWeighsOne(bes[i], pow);
    }
  }

  /** What a weight is: 1 for a backend that cannot be ranked, and otherwise the power of
      its latency relative to the fastest, down to the floor. */
  lemma {:induction false} WeightsExactly(bes: seq<Measured>, pow: Power, fast: nat, i: nat)
    requires Decays(pow) && i < |bes| && fast < |bes| && Ranked(bes[fast])
    requires forall k :: 0 <= k < |bes| && Ranked(bes[k]) ==> bes[fast].average <= bes[k].average <= SLOWEST
    ensures var w := Weights(bes, pow)[i];
            && (!(bes[i].healthUp && bes[i].average > 0) ==> w == 1.0)
            && (bes[i].healthUp && bes[i].average > 0 ==>
                  var p := pow(bes[i].average as real / bes[fast].average as real);
                  w == if p < 0.1 then 0.1 else p)
  {
    FastestBounds(bes);
    if Fastest(bes) == SLOWEST {
      Divided(SLOWEST as real, 0.0, 0.0);
    }
    hide Fastest;
  }

  lemma SlowestWeighsOne(b: Measured, pow: Power)
    ensures Weight(b, SLOWEST, pow) == 1.0
  {
  }

  lemma {:induction false} PrefixAtLeast(ws: seq<real>, n: nat)
    requires n <= |ws| && forall i :: 0 <= i < |ws| ==> ws[i] >= FLOOR
    ensures Balancer.Prefix(ws, n) >= FLOOR * n as real
  {
    if n > 0 {
      PrefixAtLeast(ws, n - 1);
    }
  }

  /** The ready backends always have a positive total weight, so selection goes by
      weight and never falls to the plain random index. */
  lemma {:induction false} ReadyTotalIsPositive(bes: seq<Measured>, pow: Power, ready: seq<nat>)
    requires Decays(pow) && ready != [] && forall k :: 0 <= k < |ready| ==> ready[k] < |bes|
    ensures var ws := Balancer.ReadyWeights(Weights(bes, pow), ready);
            Balancer.Prefix(ws, |ws|) > 0.0
  {
    var ws := Balancer.ReadyWeights(Weights(bes, pow), ready);
    forall k | 0 <= k < |ws|
      ensures ws[k] >= FLOOR
    {
      WeightsRank(bes, pow, ready[k], ready[k]);
    }
    PrefixAtLeast(ws, |ws|);
  }
}
