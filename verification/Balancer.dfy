/** Selection: which backend serves a request, and the weights that bias it.
    Weights are real numbers here; the random draws, the rate limiters' answers
    and the power function are inputs. */
module Balancer {
  import opened Options
  import opened Words
  import opened HeadKnowledge

  /** What selection reads of a backend. */
  datatype Backend = Backend(healthUp: bool, http: bool, ws: bool, head: Height, limited: bool)

  /** What one pass of selection draws from outside: each limiter's Allow and the
      delay of its reservation, whether the caller's context ends in the wait,
      and the two random draws. */
  datatype Draws = Draws(allow: nat -> bool, delay: nat -> int, cancelled: bool, uniform: real, index: nat)

  datatype Choice = Picked(i: nat) | NoBackends | NoCandidate | Cancelled

  /** The delay of a reservation that can never be met. */
  const FOREVER: int := MAX_INT64

  /** candidate */
  predicate Candidate(b: Backend, scheme: string, minHead: Height) {
    && b.healthUp
    && (scheme == "ws" ==> b.ws)
    && (scheme == "http" ==> b.http)
    && Reaches(b.head, minHead)
  }

  /** Who is a candidate: a backend that is up, has an endpoint for the scheme if it is
      one of the two that need one, and is not known to trail; nothing is known of a
      head of 0, and nothing asked by a minHead of 0. */
  lemma {:induction false} CandidateExactly(b: Backend, scheme: string, minHead: Height)
    ensures Candidate(b, scheme, minHead) <==>
              && b.healthUp
              && scheme !in Unserved(b)
              && !(0 < b.head < minHead)
  {
  }

  /** The schemes for which the backend has no endpoint. */
  function Unserved(b: Backend): set<string> {
    (if b.ws then {} else {"ws"}) + if b.http then {} else {"http"}
  }

  predicate Allowed(b: Backend, d: Draws, i: nat) {
    !b.limited || d.allow(i)
  }

  /** How long a reservation with the backend's limiter has to wait. */
  function Wait(b: Backend, d: Draws, i: nat): int {
    if b.limited then d.delay(i) else 0
  }

  /** A candidate that will be ready after a finite wait. */
  predicate Waitable(bes: seq<Backend>, scheme: string, minHead: Height, d: Draws, i: int) {
    0 <= i < |bes| && Candidate(bes[i], scheme, minHead) && Wait(bes[i], d, i) < FOREVER
  }

  /** A candidate that is ready now or will be after a finite wait. */
  predicate Servable(bes: seq<Backend>, scheme: string, minHead: Height, d: Draws, i: int) {
    || Waitable(bes, scheme, minHead, d, i)
    || (0 <= i < |bes| && Candidate(bes[i], scheme, minHead) && Allowed(bes[i], d, i))
  }

  /** The candidates ready now, in order. */
  function Ready(bes: seq<Backend>, scheme: string, minHead: Height, d: Draws, n: nat): (ready: seq<nat>)
    requires n <= |bes|
    ensures forall k :: 0 <= k < |ready| ==> ready[k] < n
  {
    if n == 0 then []
    else
      var i := n - 1;
      Ready(bes, scheme, minHead, d, i) +
      if Candidate(bes[i], scheme, minHead) && Allowed(bes[i], d, i) then [i] else []
  }

  lemma {:induction false} ReadyExactly(bes: seq<Backend>, scheme: string, minHead: Height, d: Draws, n: nat, i: nat)
    requires n <= |bes|
    ensures i in Ready(bes, scheme, minHead, d, n) <==>
              i < n && Candidate(bes[i], scheme, minHead) && Allowed(bes[i], d, i)
  {
    if n > 0 {
      ReadyExactly(bes, scheme, minHead, d, n - 1, i);
    }
  }

  /* ---------- The weighted choice ---------- */

  /** The sum of the first n weights. */
  function Prefix(weights: seq<real>, n: nat): real
    requires n <= |weights|
  {
    if n == 0 then 0.0 else Prefix(weights, n - 1) + weights[n - 1]
  }

  /** Position k's share of the line: from the end of the share before it, the
      first reaching down and the last up without end. */
  predicate InShare(weights: seq<real>, k: nat, r: real)
    requires k < |weights|
  {
    (k == 0 || Prefix(weights, k) < r) && (k == |weights| - 1 || r <= Prefix(weights, k + 1))
  }

  /** The choice among ready backends: with a positive total, the one in whose
      share the draw falls; otherwise the index draw decides. */
  method Weighted(weights: seq<real>, uniform: real, index: nat) returns (k: nat)
    requires |weights| >= 1 && index < |weights|
    ensures k < |weights|
    ensures Prefix(weights, |weights|) > 0.0 ==> InShare(weights, k, uniform * Prefix(weights, |weights|))
    ensures Prefix(weights, |weights|) <= 0.0 ==> k == index
  {
    var total := 0.0;
    for i := 0 to |weights|
      invariant total == Prefix(weights, i)
    {
      total := total + weights[i];
    }
    if total <= 0.0 {
      return index;
    }
    var r := uniform * total;
    var current := 0.0;
    for i := 0 to |weights|
      invariant current == Prefix(weights, i)
      invariant i > 0 ==> r > current
      invariant i > 1 ==> r > Prefix(weights, i - 1)
    {
      current := current + weights[i];
      if r <= current {
        return i;
      }
    }
    return |weights| - 1;
  }

  lemma {:induction false} PrefixGrows(weights: seq<real>, j: nat, k: nat)
    requires j <= k <= |weights| && forall i :: 0 <= i < |weights| ==> weights[i] >= 0.0
    ensures Prefix(weights, j) <= Prefix(weights, k)
  {
    if j < k {
      PrefixGrows(weights, j, k - 1);
    }
  }

  /** Shares do not overlap: the draw fixes the choice. */
  lemma SharesDisjoint(weights: seq<real>, j: nat, k: nat, r: real)
    requires j < k < |weights| && forall i :: 0 <= i < |weights| ==> weights[i] >= 0.0
    requires InShare(weights, k, r)
    ensures !InShare(weights, j, r)
  {
    PrefixGrows(weights, j + 1, k);
  }

  /** A draw of at most 1 falls in a share exactly when it lies in the
      stretch of the prefix sums that belongs to it. */
  lemma ShareIsStretch(weights: seq<real>, k: nat, u: real)
    requires k < |weights| && u <= 1.0 && Prefix(weights, |weights|) > 0.0
    ensures var r := Drawn(weights, u);
            InShare(weights, k, r) <==> (k == 0 || Prefix(weights, k) < r) && r <= Prefix(weights, k + 1)
  {
    hide Prefix, InShare;
    ScaledDown(u, Prefix(weights, |weights|));
    LastShareEnds(weights, k, u * Prefix(weights, |weights|));
  }

  lemma LastShareEnds(weights: seq<real>, k: nat, r: real)
    requires k < |weights| && r <= Prefix(weights, |weights|)
    ensures InShare(weights, k, r) <==> (k == 0 || Prefix(weights, k) < r) && r <= Prefix(weights, k + 1)
  {
    hide Prefix;
  }

  lemma ScaledDown(u: real, total: real)
    requires u <= 1.0 && total > 0.0
    ensures u * total <= total
  {
    assert total - u * total == (1.0 - u) * total;
  }

  /* ---------- PickAtLeast ---------- */

  /** The candidate with the shortest finite wait, the first of equals; an
      unlimited one ends the search. */
  method LeastDelay(bes: seq<Backend>, scheme: string, minHead: Height, d: Draws)
    returns (found: Option<nat>, wait: int)
    requires forall i: nat :: d.delay(i) >= 0
    ensures found.Some? <==> exists i :: Waitable(bes, scheme, minHead, d, i)
    ensures found.Some? ==> Soonest(bes, scheme, minHead, d, found.value)
    ensures found.Some? ==> wait == Wait(bes[found.value], d, found.value)
  {
    found, wait := None, FOREVER;
    for i := 0 to |bes|
      invariant found.None? ==> wait == FOREVER && forall k :: k < i ==> !Waitable(bes, scheme, minHead, d, k)
      invariant found.Some? ==>
                  && found.value < i && Waitable(bes, scheme, minHead, d, found.value)
                  && wait == Wait(bes[found.value], d, found.value)
                  && forall k :: k < i && Waitable(bes, scheme, minHead, d, k) ==> wait <= Wait(bes[k], d, k)
    {
      if !Candidate(bes[i], scheme, minHead) {
        continue;
      }
      if !bes[i].limited {
        wait, found := 0, Some(i);
        break;
      }
      var delay := d.delay(i);
      if delay < wait {
        wait, found := delay, Some(i);
      }
    }
    assert found.Some? ==> Waitable(bes, scheme, minHead, d, found.value);
  }

  /** No waitable candidate has a shorter wait. */
  ghost predicate Soonest(bes: seq<Backend>, scheme: string, minHead: Height, d: Draws, i: int) {
    && Waitable(bes, scheme, minHead, d, i)
    && forall k :: Waitable(bes, scheme, minHead, d, k) ==> Wait(bes[i], d, i) <= Wait(bes[k], d, k)
  }

  /** How a pass over the candidates for minHead must end. */
  ghost predicate PassEnds(bes: seq<Backend>, weights: seq<real>, scheme: string, minHead: Height, d: Draws, c: Choice)
    requires |weights| == |bes|
  {
    var ready := Ready(bes, scheme, minHead, d, |bes|);
    if ready != [] then
      exists k :: 0 <= k < |ready| && c == Picked(ready[k]) && (|ready| > 1 ==> Preferred(weights, ready, d, k))
    else if exists i :: Waitable(bes, scheme, minHead, d, i) then
      exists i :: Soonest(bes, scheme, minHead, d, i)
               && c == if Wait(bes[i], d, i) > 0 && d.cancelled then Cancelled else Picked(i)
    else c == NoCandidate
  }

  function ReadyWeights(weights: seq<real>, ready: seq<nat>): (ws: seq<real>)
    requires forall k :: 0 <= k < |ready| ==> ready[k] < |weights|
    ensures |ws| == |ready| && forall k :: 0 <= k < |ready| ==> ws[k] == weights[ready[k]]
  {
    seq(|ready|, k requires 0 <= k < |ready| => weights[ready[k]])
  }

  /** The draw falls in the k-th ready backend's share, or there is no weight to go by. */
  ghost predicate Preferred(weights: seq<real>, ready: seq<nat>, d: Draws, k: nat)
    requires k < |ready| && forall j :: 0 <= j < |ready| ==> ready[j] < |weights|
  {
    var ws := ReadyWeights(weights, ready);
    if Prefix(ws, |ws|) > 0.0 then InShare(ws, k, Drawn(ws, d.uniform)) else k == d.index % |ws|
  }

  /** The point on the line of weights that the draw picks. */
  function Drawn(ws: seq<real>, uniform: real): real {
    uniform * Prefix(ws, |ws|)
  }

  /** The first loop of PickAtLeast. */
  method ReadyNow(bes: seq<Backend>, weights: seq<real>, scheme: string, minHead: Height, d: Draws)
    returns (ready: seq<nat>, readyWeights: seq<real>)
    requires |weights| == |bes|
    ensures ready == Ready(bes, scheme, minHead, d, |bes|)
    ensures readyWeights == ReadyWeights(weights, ready)
  {
    ready, readyWeights := [], [];
    for i := 0 to |bes|
      invariant ready == Ready(bes, scheme, minHead, d, i)
      invariant readyWeights == ReadyWeights(weights, ready)
    {
      if !Candidate(bes[i], scheme, minHead) {
        continue;
      }
      if !bes[i].limited || d.allow(i) {
        ready := ready + [i];
        readyWeights := readyWeights + [weights[i]];
      }
    }
  }

  /** PickAtLeast over one snapshot; the second draws are for the fallback pass. */
  method PickAtLeast(bes: seq<Backend>, weights: seq<real>, scheme: string, minHead: Height, d: Draws, again: Draws)
    returns (c: Choice)
    requires |weights| == |bes|
    requires forall i: nat :: d.delay(i) >= 0 && again.delay(i) >= 0
    ensures c == NoBackends <==> bes == []
    ensures bes != [] ==>
              if minHead == 0 || exists i :: Servable(bes, scheme, minHead, d, i)
              then PassEnds(bes, weights, scheme, minHead, d, c)
              else PassEnds(bes, weights, scheme, 0, again, c)
    decreases minHead
  {
    hide Candidate, Prefix;
    if |bes| == 0 {
      return NoBackends;
    }
    var ready, readyWeights := ReadyNow(bes, weights, scheme, minHead, d);
    if |ready| == 0 {
      NoneReady(bes, scheme, minHead, d);
      var found, wait := LeastDelay(bes, scheme, minHead, d);
      if found.None? {
        if minHead > 0 {
          c := PickAtLeast(bes, weights, scheme, 0, again, again);
          return;
        }
        return NoCandidate;
      }
      if wait > 0 && d.cancelled {
        return Cancelled;
      }
      return Picked(found.value);
    }
    ReadyExactly(bes, scheme, minHead, d, |bes|, ready[0]);
    assert Servable(bes, scheme, minHead, d, ready[0]);
    if |ready| == 1 {
      return Picked(ready[0]);
    }
    var k := Weighted(readyWeights, d.uniform, d.index % |ready|);
    assert Preferred(weights, ready, d, k);
    return Picked(ready[k]);
  }

  lemma NoneReady(bes: seq<Backend>, scheme: string, minHead: Height, d: Draws)
    requires Ready(bes, scheme, minHead, d, |bes|) == []
    ensures forall i :: Servable(bes, scheme, minHead, d, i) <==> Waitable(bes, scheme, minHead, d, i)
  {
    forall i: nat | i < |bes|
      ensures !(Candidate(bes[i], scheme, minHead) && Allowed(bes[i], d, i))
    {
      ReadyExactly(bes, scheme, minHead, d, |bes|, i);
    }
  }

  /* ---------- What a caller can count on ---------- */

  /** What the two passes come to: a backend that is up, serves the scheme and is
      not known to trail whenever one such can serve at all; failing that, any
      that is up and serves the scheme; and an error only when there is none, or
      when the caller gave up while every limiter made it wait. */
  lemma PickServes(bes: seq<Backend>, weights: seq<real>, scheme: string, minHead: Height, d: Draws, again: Draws,
                   c: Choice)
    requires |weights| == |bes| && bes != []
    requires if minHead == 0 || exists i :: Servable(bes, scheme, minHead, d, i)
             then PassEnds(bes, weights, scheme, minHead, d, c)
             else PassEnds(bes, weights, scheme, 0, again, c)
    ensures (exists i :: Servable(bes, scheme, minHead, d, i)) ==>
              if c.Picked? then c.i < |bes| && Candidate(bes[c.i], scheme, minHead)
              else c == Cancelled && d.cancelled && Ready(bes, scheme, minHead, d, |bes|) == []
    ensures !(exists i :: Servable(bes, scheme, minHead, d, i)) && minHead > 0 ==>
              if exists i :: Servable(bes, scheme, 0, again, i) then
                if c.Picked? then c.i < |bes| && Candidate(bes[c.i], scheme, 0)
                else c == Cancelled && again.cancelled && Ready(bes, scheme, 0, again, |bes|) == []
              else c == NoCandidate
    ensures !(exists i :: Servable(bes, scheme, minHead, d, i)) && minHead == 0 ==> c == NoCandidate
  {
    hide Candidate;
    if minHead == 0 || exists i :: Servable(bes, scheme, minHead, d, i) {
      PassServes(bes, weights, scheme, minHead, d, c);
    } else {
      PassServes(bes, weights, scheme, 0, again, c);
    }
    hide PassEnds, Servable;
  }

  lemma PassServes(bes: seq<Backend>, weights: seq<real>, scheme: string, minHead: Height, d: Draws, c: Choice)
    requires |weights| == |bes| && PassEnds(bes, weights, scheme, minHead, d, c)
    ensures if exists i :: Servable(bes, scheme, minHead, d, i) then
              if c.Picked? then c.i < |bes| && Candidate(bes[c.i], scheme, minHead)
              else c == Cancelled && d.cancelled && Ready(bes, scheme, minHead, d, |bes|) == []
            else c == NoCandidate
  {
    hide Candidate, Preferred;
    var ready := Ready(bes, scheme, minHead, d, |bes|);
    if ready == [] {
      NoneReady(bes, scheme, minHead, d);
    } else {
      var k :| 0 <= k < |ready| && c == Picked(ready[k]);
      ReadyExactly(bes, scheme, minHead, d, |bes|, ready[k]);
      assert Servable(bes, scheme, minHead, d, ready[k]);
    }
  }

  /** Which draws pick which backend: with several ready, each is picked by exactly the
      draws that fall in its stretch of the sums of the ready backends' weights. */
  lemma {:induction false} PickedByWeight(bes: seq<Backend>, weights: seq<real>, scheme: string, minHead: Height,
                                          d: Draws, c: Choice, k: nat)
    requires |weights| == |bes| && PassEnds(bes, weights, scheme, minHead, d, c)
    requires forall i :: 0 <= i < |weights| ==> weights[i] > 0.0
    requires 0.0 < d.uniform <= 1.0
    requires var ready := Ready(bes, scheme, minHead, d, |bes|); |ready| > 1 && k < |ready|
    ensures var ready := Ready(bes, scheme, minHead, d, |bes|);
            var ws := ReadyWeights(weights, ready);
            c == Picked(ready[k]) <==> Prefix(ws, k) < Drawn(ws, d.uniform) <= Prefix(ws, k + 1)
  {
    var ready := Ready(bes, scheme, minHead, d, |bes|);
    ReadyAscends(bes, scheme, minHead, d, |bes|);
    var j := Preference(bes, weights, scheme, minHead, d, c);
    WeightedChoice(weights, ready, d, j, k);
    hide Ready, Prefix, PassEnds, Preferred, Drawn, Candidate;
  }

  lemma WeightedChoice(weights: seq<real>, ready: seq<nat>, d: Draws, j: nat, k: nat)
    requires Ascends(ready) && j < |ready| && k < |ready| && forall i :: 0 <= i < |ready| ==> ready[i] < |weights|
    requires forall i :: 0 <= i < |weights| ==> weights[i] > 0.0
    requires 0.0 < d.uniform <= 1.0 && Preferred(weights, ready, d, j)
    ensures var ws := ReadyWeights(weights, ready);
            ready[j] == ready[k] <==> Prefix(ws, k) < Drawn(ws, d.uniform) <= Prefix(ws, k + 1)
  {
    hide Drawn, InShare;
    var ws := ReadyWeights(weights, ready);
    PositiveTotal(ws, |ws|);
    OneShare(ws, d.uniform, j, k);
    assert j < k ==> ready[j] < ready[k];
    assert k < j ==> ready[k] < ready[j];
    hide Prefix, Preferred;
  }

  /** The position of the choice among the ready ones. */
  lemma Preference(bes: seq<Backend>, weights: seq<real>, scheme: string, minHead: Height, d: Draws, c: Choice)
    returns (j: nat)
    requires |weights| == |bes| && PassEnds(bes, weights, scheme, minHead, d, c)
    requires |Ready(bes, scheme, minHead, d, |bes|)| > 1
    ensures var ready := Ready(bes, scheme, minHead, d, |bes|);
            && j < |ready| && c == Picked(ready[j]) && Preferred(weights, ready, d, j)
  {
    var ready := Ready(bes, scheme, minHead, d, |bes|);
    hide Ready, Preferred;
    j :| 0 <= j < |ready| && c == Picked(ready[j]) && (|ready| > 1 ==> Preferred(weights, ready, d, j));
  }

  lemma Positive(x: real, y: real)
    requires x > 0.0 && y > 0.0
    ensures x * y > 0.0
  {
  }

  /** A draw is in one share, which is a stretch of the sums. */
  lemma OneShare(ws: seq<real>, u: real, j: nat, k: nat)
    requires j < |ws| && k < |ws| && 0.0 < u <= 1.0 && forall i :: 0 <= i < |ws| ==> ws[i] > 0.0
    requires Prefix(ws, |ws|) > 0.0 && InShare(ws, j, Drawn(ws, u))
    ensures j == k <==> Prefix(ws, k) < Drawn(ws, u) <= Prefix(ws, k + 1)
  {
    ShareIsStretch(ws, j, u);
    ShareIsStretch(ws, k, u);
    Positive(u, Prefix(ws, |ws|));
    assert Prefix(ws, 0) == 0.0;
    hide Prefix, InShare, Drawn;
    if j < k {
      NotInBoth(ws, j, k, Drawn(ws, u));
    } else if k < j {
      NotInBoth(ws, k, j, Drawn(ws, u));
    }
  }

  lemma NotInBoth(ws: seq<real>, j: nat, k: nat, r: real)
    requires j < k < |ws| && forall i :: 0 <= i < |ws| ==> ws[i] > 0.0
    ensures !(InShare(ws, j, r) && InShare(ws, k, r))
  {
    hide Prefix, InShare;
    if InShare(ws, k, r) {
      SharesDisjoint(ws, j, k, r);
    }
  }

  lemma {:induction false} PositiveTotal(ws: seq<real>, n: nat)
    requires n <= |ws| && forall i :: 0 <= i < |ws| ==> ws[i] > 0.0
    ensures Prefix(ws, n) >= 0.0 && (n > 0 ==> Prefix(ws, n) > 0.0)
  {
    if n > 0 {
      PositiveTotal(ws, n - 1);
    }
  }

  /** The ready list keeps the order of the backends. */
  lemma {:induction false} ReadyAscends(bes: seq<Backend>, scheme: string, minHead: Height, d: Draws, n: nat)
    requires n <= |bes|
    ensures Ascends(Ready(bes, scheme, minHead, d, n))
  {
    hide Candidate, Allowed;
    if n > 0 {
      ReadyAscends(bes, scheme, minHead, d, n - 1);
      var before, ready := Ready(bes, scheme, minHead, d, n - 1), Ready(bes, scheme, minHead, d, n);
      assert forall k :: 0 <= k < |before| ==> before[k] < n - 1;
      if Candidate(bes[n - 1], scheme, minHead) && Allowed(bes[n - 1], d, n - 1) {
        assert ready == before + [n - 1];
      } else {
        assert ready == before + [];
      }
    }
  }

  predicate Ascends(xs: seq<nat>) {
    forall j, k :: 0 <= j < k < |xs| ==> xs[j] < xs[k]
  }

  /** A backend known to trail is not picked while another backend can serve. */
  lemma {:induction false} TrailingIsSkipped(run: seq<Event>, j: nat, n: Height, bes: seq<Backend>,
                                             weights: seq<real>, scheme: string, minHead: Height, d: Draws,
                                             again: Draws, c: Choice, trailing: nat)
    requires |weights| == |bes| && trailing < |bes|
    requires bes[trailing].head == After(run).head
    requires j < |Completions(run)| && Completions(run)[j] == Below(n) && 2 <= n <= minHead
    requires forall l :: j < l < |Completions(run)| ==> !Restores(Completions(run)[l], n)
    requires exists i :: Servable(bes, scheme, minHead, d, i)
    requires PassEnds(bes, weights, scheme, minHead, d, c)
    ensures c != Picked(trailing)
  {
    TrailingIsExcluded(run, j, n, minHead);
    PassServes(bes, weights, scheme, minHead, d, c);
  }
}
