/** The block index that the cache checks its entries against, and its pruning. */
module Tracker {
  import opened Options
  import opened Words
  import opened Collections

  type Chain = string
  type Hash = string
  type Span = n: int | -TWO_63 <= n < TWO_63

  /** What s.mu guards: hashes by chain and height, and each chain's tip. */
  datatype Index = Index(hashes: map<Chain, map<Height, Hash>>, latest: map<Chain, Height>,
                         latestHash: map<Chain, Hash>)

  /** One reported block. The parent is None when no block data came with the
      report and the empty string when the data names none. */
  datatype Head = Head(chain: Chain, number: Height, hash: Hash, parent: Option<Hash>)

  /** max_reorg_depth by chain */
  type Depths = map<Chain, Span>

  const NoIndex := Index(map[], map[], map[])

  /** ReorgDepth: a chain without a setting has depth 0. */
  function ReorgDepth(depths: Depths, chain: Chain): (d: nat)
    ensures d < TWO_63
  {
    if chain in depths then Max(depths[chain], 0) else 0
  }

  function Hashes(ix: Index, chain: Chain): map<Height, Hash> {
    if chain in ix.hashes then ix.hashes[chain] else map[]
  }

  function Tip(ix: Index, chain: Chain): Height {
    if chain in ix.latest then ix.latest[chain] else 0
  }

  function TipHash(ix: Index, chain: Chain): Hash {
    if chain in ix.latestHash then ix.latestHash[chain] else ""
  }

  /** A report contradicts the index: another hash at its own height, or a
      parent hash other than the one known below it. */
  predicate Contradicts(ix: Index, head: Head) {
    var known := Hashes(ix, head.chain);
    || (head.number in known && known[head.number] != head.hash)
    || (head.number > 1 && head.parent.Some? && head.parent.value != ""
        && head.number - 1 in known && known[head.number - 1] != head.parent.value)
  }

  /** The height below which a chain's hashes are forgotten. */
  function Cutoff(depths: Depths, chain: Chain, tip: Height): int {
    tip - 2 * ReorgDepth(depths, chain)
  }

  function Pruned(known: map<Height, Hash>, cutoff: int): map<Height, Hash> {
    map n | n in known && n >= cutoff :: known[n]
  }

  /** The index with the report recorded and nothing forgotten. */
  function Recorded(ix: Index, head: Head): Index {
    var rises := head.number > Tip(ix, head.chain);
    Index(ix.hashes[head.chain := Hashes(ix, head.chain)[head.number := head.hash]],
          if rises then ix.latest[head.chain := head.number] else ix.latest,
          if rises then ix.latestHash[head.chain := head.hash] else ix.latestHash)
  }

  /** What cleanupOldBlockHashes leaves. */
  function Cleaned(depths: Depths, ix: Index, chain: Chain): Index {
    var known := Hashes(ix, chain);
    var window := 2 * ReorgDepth(depths, chain);
    if |known| <= window || Tip(ix, chain) < window then ix
    else ix.(hashes := ix.hashes[chain := Pruned(known, Cutoff(depths, chain, Tip(ix, chain)))])
  }

  /** The index after UpdateLatestBlock. */
  function Updated(depths: Depths, ix: Index, head: Head): Index {
    Cleaned(depths, Recorded(ix, head), head.chain)
  }

  /** IsBlockHashValid; the distance from the tip is a uint64 subtraction. */
  predicate HashValid(depths: Depths, ix: Index, chain: Chain, hash: Hash, number: Height) {
    || hash == ""
    || (number in Hashes(ix, chain) && Hashes(ix, chain)[number] == hash)
    || (number !in Hashes(ix, chain)
        && !(Tip(ix, chain) > 0 && (Tip(ix, chain) - number) % TWO_64 <= ReorgDepth(depths, chain)))
  }

  /* ---------- What the two tests mean ---------- */

  /** A report names the parent of its block. */
  predicate NamesParent(head: Head) {
    head.number > 1 && head.parent.Some? && head.parent.value != ""
  }

  /** A chain with every hash the index knows, the reported one, and its parent. */
  ghost predicate Fits(ix: Index, head: Head, blocks: Height -> Hash) {
    && (forall n :: n in Hashes(ix, head.chain) ==> blocks(n) == Hashes(ix, head.chain)[n])
    && blocks(head.number) == head.hash
    && (NamesParent(head) ==> blocks(head.number - 1) == head.parent.value)
  }

  /** A report is a reorg exactly when no one chain can have it and all that is known. */
  lemma ContradictsExactly(ix: Index, head: Head)
    ensures Contradicts(ix, head) <==> !exists blocks :: Fits(ix, head, blocks)
  {
    if !Contradicts(ix, head) {
      var known := Hashes(ix, head.chain);
      var blocks := (n: Height) =>
        if n == head.number then head.hash
        else if n in known then known[n]
        else if NamesParent(head) && n == head.number - 1 then head.parent.value
        else "";
      assert Fits(ix, head, blocks);
    }
  }

  /** Which blocks pass: those without a hash, those whose hash is the one known for
      their height, and, at heights for which none is known, those further below the
      tip than the reorg depth, all of them while no tip is known, and those above the
      tip unless they are so far above it that the distance wraps round. */
  predicate Passes(depths: Depths, ix: Index, chain: Chain, hash: Hash, number: Height) {
    var tip, depth := Tip(ix, chain), ReorgDepth(depths, chain);
    || hash == ""
    || At(Hashes(ix, chain), number) == Some(hash)
    || (At(Hashes(ix, chain), number) == None
        && (|| tip == 0
            || (number <= tip && number + depth < tip)
            || (number > tip && number + depth < tip + TWO_64)))
  }

  lemma {:induction false} ValidExactly(depths: Depths, ix: Index, chain: Chain, hash: Hash, number: Height)
    ensures HashValid(depths, ix, chain, hash, number) <==> Passes(depths, ix, chain, hash, number)
  {
  }

  /** The depth is the configured one; without one, or below zero, it is none. */
  lemma DepthIs(depths: Depths, chain: Chain)
    ensures chain in depths && depths[chain] >= 0 ==> ReorgDepth(depths, chain) == depths[chain]
    ensures chain !in depths || depths[chain] < 0 ==> ReorgDepth(depths, chain) == 0
  {
  }

  /* ---------- Runs ---------- */

  /** The index after a run of reports. */
  function Tracked(depths: Depths, run: seq<Head>): Index {
    if run == [] then NoIndex else Updated(depths, Tracked(depths, run[..|run| - 1]), run[|run| - 1])
  }

  /** The index that forgets nothing. */
  function Unpruned(run: seq<Head>): Index {
    if run == [] then NoIndex else Recorded(Unpruned(run[..|run| - 1]), run[|run| - 1])
  }

  /** The last hash reported for a height. */
  function LastReport(run: seq<Head>, chain: Chain, number: Height): Option<Hash> {
    if run == [] then None
    else
      var last := run[|run| - 1];
      if last.chain == chain && last.number == number then Some(last.hash)
      else LastReport(run[..|run| - 1], chain, number)
  }

  function At(known: map<Height, Hash>, number: Height): Option<Hash> {
    if number in known then Some(known[number]) else None
  }

  lemma {:induction false} UnprunedKeepsLast(run: seq<Head>, chain: Chain, number: Height)
    ensures At(Hashes(Unpruned(run), chain), number) == LastReport(run, chain, number)
  {
    if run != [] {
      UnprunedKeepsLast(run[..|run| - 1], chain, number);
    }
  }

  lemma {:induction false} SameTip(depths: Depths, run: seq<Head>, chain: Chain)
    ensures Tip(Tracked(depths, run), chain) == Tip(Unpruned(run), chain)
    ensures TipHash(Tracked(depths, run), chain) == TipHash(Unpruned(run), chain)
  {
    if run != [] {
      var before, last := run[..|run| - 1], run[|run| - 1];
      SameTip(depths, before, chain);
      SameTip(depths, before, last.chain);
    }
  }

  lemma TipAfter(depths: Depths, ix: Index, head: Head, chain: Chain)
    ensures Tip(Updated(depths, ix, head), chain)
         == if chain == head.chain then Max(Tip(ix, chain), head.number) else Tip(ix, chain)
  {
  }

  lemma RecordedAt(ix: Index, head: Head, chain: Chain, number: Height)
    ensures At(Hashes(Recorded(ix, head), chain), number)
         == if chain == head.chain && number == head.number then Some(head.hash) else At(Hashes(ix, chain), number)
    ensures Tip(Recorded(ix, head), chain)
         == if chain == head.chain then Max(Tip(ix, chain), head.number) else Tip(ix, chain)
  {
  }

  /** One report moves the chain's window to the new tip and forgets nothing inside it. */
  lemma CleanedAt(depths: Depths, ix: Index, chain: Chain, other: Chain, number: Height)
    ensures At(Hashes(Cleaned(depths, ix, chain), other), number)
         == if other == chain && |Hashes(ix, chain)| > 2 * ReorgDepth(depths, chain)
               && number < Cutoff(depths, chain, Tip(ix, chain))
            then None else At(Hashes(ix, other), number)
  {
  }

  /** The pruned index agrees with full history: what it holds is the last hash
      reported, and it holds every height within twice the reorg depth of the tip. */
  lemma {:induction false} IndexAgrees(depths: Depths, run: seq<Head>, chain: Chain, number: Height)
    ensures var kept := At(Hashes(Tracked(depths, run), chain), number);
            && (kept.Some? ==> kept == LastReport(run, chain, number))
            && (number >= Cutoff(depths, chain, Tip(Tracked(depths, run), chain)) ==>
                  kept == LastReport(run, chain, number))
  {
    if run != [] {
      var before, last := run[..|run| - 1], run[|run| - 1];
      IndexAgrees(depths, before, chain, number);
      var ix := Recorded(Tracked(depths, before), last);
      CleanedAt(depths, ix, last.chain, chain, number);
      RecordedAt(Tracked(depths, before), last, chain, number);
      TipAfter(depths, Tracked(depths, before), last, chain);
      hide Cleaned, Recorded, At, Tip, Hashes;
    }
  }

  lemma {:induction false} TipBounds(depths: Depths, run: seq<Head>, k: nat)
    requires k < |run|
    ensures run[k].number <= Tip(Tracked(depths, run), run[k].chain)
  {
    hide Updated, Tip;
    var before, last := run[..|run| - 1], run[|run| - 1];
    TipAfter(depths, Tracked(depths, before), last, run[k].chain);
    if k < |before| {
      TipBounds(depths, before, k);
    }
  }

  lemma {:induction false} TipReported(depths: Depths, run: seq<Head>, chain: Chain) returns (k: nat)
    requires Tip(Tracked(depths, run), chain) > 0
    ensures k < |run| && run[k].chain == chain && run[k].number == Tip(Tracked(depths, run), chain)
  {
    var before, last := run[..|run| - 1], run[|run| - 1];
    TipAfter(depths, Tracked(depths, before), last, chain);
    hide Updated, Tip;
    if last.chain == chain && last.number == Tip(Tracked(depths, run), chain) {
      k := |run| - 1;
    } else {
      k := TipReported(depths, before, chain);
    }
  }

  lemma TipHashAfter(depths: Depths, ix: Index, head: Head, chain: Chain)
    ensures TipHash(Updated(depths, ix, head), chain)
         == if chain == head.chain && head.number > Tip(ix, chain) then head.hash else TipHash(ix, chain)
  {
  }

  /** Report k is the chain's first of this height, and came with this hash. */
  predicate FirstAt(run: seq<Head>, chain: Chain, number: Height, hash: Hash, k: nat) {
    && k < |run| && run[k].chain == chain && run[k].number == number && run[k].hash == hash
    && forall l :: 0 <= l < k && run[l].chain == chain ==> run[l].number < number
  }

  lemma FirstStays(run: seq<Head>, chain: Chain, number: Height, hash: Hash, k: nat)
    requires run != [] && FirstAt(run[..|run| - 1], chain, number, hash, k)
    ensures FirstAt(run, chain, number, hash, k)
  {
  }

  /** What the last report of a run does to the tip. */
  lemma TipOfLast(depths: Depths, run: seq<Head>, chain: Chain)
    requires run != []
    ensures var before, last := Tracked(depths, run[..|run| - 1]), run[|run| - 1];
            var rises := last.chain == chain && last.number > Tip(before, chain);
            && Tip(Tracked(depths, run), chain) == (if rises then last.number else Tip(before, chain))
            && TipHash(Tracked(depths, run), chain) == (if rises then last.hash else TipHash(before, chain))
  {
    TipAfter(depths, Tracked(depths, run[..|run| - 1]), run[|run| - 1], chain);
    TipHashAfter(depths, Tracked(depths, run[..|run| - 1]), run[|run| - 1], chain);
    hide Updated, Tip, TipHash;
  }

  lemma NoTip(depths: Depths, chain: Chain)
    ensures Tip(Tracked(depths, []), chain) == 0
  {
  }

  /** The tip's stored hash is the one that came with the first report of that height. */
  lemma {:induction false} TipHashIsFirst(depths: Depths, run: seq<Head>, chain: Chain) returns (k: nat)
    requires Tip(Tracked(depths, run), chain) > 0
    ensures FirstAt(run, chain, Tip(Tracked(depths, run), chain), TipHash(Tracked(depths, run), chain), k)
  {
    hide Tracked, Tip, TipHash;
    NoTip(depths, chain);
    TipOfLast(depths, run, chain);
    var before, last := run[..|run| - 1], run[|run| - 1];
    if last.chain == chain && last.number > Tip(Tracked(depths, before), chain) {
      k := |run| - 1;
      AllBelow(depths, before, chain);
    } else {
      hide FirstAt;
      k := TipHashIsFirst(depths, before, chain);
      FirstStays(run, chain, Tip(Tracked(depths, before), chain), TipHash(Tracked(depths, before), chain), k);
    }
  }

  lemma AllBelow(depths: Depths, run: seq<Head>, chain: Chain)
    ensures forall l :: 0 <= l < |run| && run[l].chain == chain ==> run[l].number <= Tip(Tracked(depths, run), chain)
  {
    hide Tip, Tracked;
    forall l | 0 <= l < |run| && run[l].chain == chain
      ensures run[l].number <= Tip(Tracked(depths, run), chain)
    {
      TipBounds(depths, run, l);
    }
  }

  /** The tip is the largest height ever reported for the chain. */
  lemma {:induction false} TipIsLargest(depths: Depths, run: seq<Head>, chain: Chain)
    ensures var tip := Tip(Tracked(depths, run), chain);
            && (forall k :: 0 <= k < |run| && run[k].chain == chain ==> run[k].number <= tip)
            && (tip == 0 || exists k :: 0 <= k < |run| && run[k].chain == chain && run[k].number == tip)
  {
    hide Tip, Tracked;
    forall k | 0 <= k < |run| && run[k].chain == chain
      ensures run[k].number <= Tip(Tracked(depths, run), chain)
    {
      TipBounds(depths, run, k);
    }
    if Tip(Tracked(depths, run), chain) > 0 {
      var k := TipReported(depths, run, chain);
    }
  }

  lemma TipStep(depths: Depths, ix: Index, head: Head, chain: Chain)
    ensures Tip(ix, chain) <= Tip(Updated(depths, ix, head), chain)
  {
    TipAfter(depths, ix, head, chain);
    hide Updated;
  }

  /** The tip never falls. */
  lemma {:induction false} TipNeverFalls(depths: Depths, run: seq<Head>, more: seq<Head>, chain: Chain)
    ensures Tip(Tracked(depths, run), chain) <= Tip(Tracked(depths, run + more), chain)
    decreases |more|
  {
    hide Updated, Tip;
    if more == [] {
      assert run + more == run;
    } else {
      var init := more[..|more| - 1];
      TipNeverFalls(depths, run, init, chain);
      TipStep(depths, Tracked(depths, run + init), more[|init|], chain);
      assert (run + more)[..|run + more| - 1] == run + init;
    }
  }

  /** A set of heights within a stretch of n numbers has at most n members. */
  lemma {:induction false} StretchBound(s: set<Height>, lo: int, n: nat)
    requires forall x :: x in s ==> lo <= x < lo + n
    ensures |s| <= n
  {
    if n == 0 {
      assert s == {};
    } else {
      var top := lo + n - 1;
      if top in s {
        StretchBound(s - {top}, lo, n - 1);
      } else {
        StretchBound(s, lo, n - 1);
      }
    }
  }

  /** Every height held is at most the tip, and a chain keeps at most
      2 * depth + 1 hashes. */
  lemma {:induction false} IndexBounded(depths: Depths, run: seq<Head>, chain: Chain)
    ensures var ix := Tracked(depths, run);
            && (forall n :: n in Hashes(ix, chain) ==> n <= Tip(ix, chain))
            && |Hashes(ix, chain)| <= 2 * ReorgDepth(depths, chain) + 1
  {
    if run != [] {
      var before, last := run[..|run| - 1], run[|run| - 1];
      IndexBounded(depths, before, chain);
      var ix := Recorded(Tracked(depths, before), last);
      var window, tip := 2 * ReorgDepth(depths, chain), Tip(ix, chain);
      if chain == last.chain {
        var kept := Hashes(Cleaned(depths, ix, chain), chain);
        if tip < window {
          StretchBound(kept.Keys, 0, window);
        } else if |Hashes(ix, chain)| > window {
          StretchBound(kept.Keys, tip - window, window + 1);
        }
      }
    }
  }

  /** Forgetting never turns a valid hash away, and lets through exactly the
      outdated ones whose height has been forgotten; within twice the reorg
      depth of the tip it changes no answer. */
  lemma {:induction false} ValidityAgrees(depths: Depths, run: seq<Head>, chain: Chain, hash: Hash, number: Height)
    ensures var pruned, full := Tracked(depths, run), Unpruned(run);
            && (HashValid(depths, full, chain, hash, number) ==> HashValid(depths, pruned, chain, hash, number))
            && (HashValid(depths, pruned, chain, hash, number) != HashValid(depths, full, chain, hash, number) <==>
                  && hash != "" && number !in Hashes(pruned, chain)
                  && LastReport(run, chain, number).Some? && LastReport(run, chain, number).value != hash)
            && (number >= Cutoff(depths, chain, Tip(pruned, chain)) ==>
                  HashValid(depths, pruned, chain, hash, number) == HashValid(depths, full, chain, hash, number))
  {
    hide Tracked, Unpruned, LastReport;
    IndexAgrees(depths, run, chain, number);
    UnprunedKeepsLast(run, chain, number);
    SameTip(depths, run, chain);
  }

  /** A report on one chain leaves every other chain's hashes and tip alone. */
  lemma {:induction false} OtherChainsUntouched(depths: Depths, ix: Index, head: Head, other: Chain)
    requires other != head.chain
    ensures Hashes(Updated(depths, ix, head), other) == Hashes(ix, other)
    ensures Tip(Updated(depths, ix, head), other) == Tip(ix, other)
    ensures TipHash(Updated(depths, ix, head), other) == TipHash(ix, other)
  {
  }
}
