/** The window of headers a stream remembers having delivered: bounded memory
    that tells news from repeats as unbounded memory would. */
module Delivered {
  import opened Options
  import opened Words
  import opened Tracker

  /** A header announced on a chain, as handleBlockNotification lets it through. */
  datatype Header = Header(chain: Chain, number: Height, hash: Hash)

  predicate Announced(h: Header) {
    h.number >= 1 && h.hash != ""
  }

  type Window = map<Height, Hash>

  function WindowOf(delivered: map<Chain, Window>, chain: Chain): Window {
    if chain in delivered then delivered[chain] else map[]
  }

  /** A missing height reads as the empty hash. */
  function HashAt(w: Window, number: Height): Hash {
    if number in w then w[number] else ""
  }

  predicate IsNews(w: Window, number: Height, hash: Hash) {
    HashAt(w, number) != hash
  }

  /** The window after a header is marked. */
  function Marked(w: Window, number: Height, hash: Hash, depth: nat): Window {
    if !IsNews(w, number, hash) then w
    else
      var w' := w[number := hash];
      if |w'| > depth && number > depth then Pruned(w', number - depth) else w'
  }

  class Stream {
    const depths: Depths
    var delivered: map<Chain, Window>

    constructor (depths: Depths)
      ensures this.depths == depths && delivered == map[]
    {
      this.depths := depths;
      delivered := map[];
    }

    /** markDelivered */
    method MarkDelivered(chain: Chain, number: Height, hash: Hash) returns (news: bool)
      modifies this`delivered
      ensures news == IsNews(WindowOf(old(delivered), chain), number, hash)
      ensures delivered ==
              old(delivered)[chain := Marked(WindowOf(old(delivered), chain), number, hash, ReorgDepth(depths, chain))]
    {
      var heights: Window := if chain in delivered then delivered[chain] else map[];
      if HashAt(heights, number) == hash {
        delivered := delivered[chain := heights];
        return false;
      }
      heights := heights[number := hash];
      ghost var all := heights;
      var depth := ReorgDepth(depths, chain);
      if |heights| > depth && number > depth {
        var cutoff := number - depth;
        var pending := heights.Keys;
        while pending != {}
          invariant pending <= heights.Keys <= all.Keys
          invariant forall n :: n in heights ==> heights[n] == all[n]
          invariant forall n :: n in heights && n !in pending ==> n >= cutoff
          invariant forall n :: n in all && n >= cutoff ==> n in heights
          decreases |pending|
        {
          var n :| n in pending;
          pending := pending - {n};
          if n < cutoff {
            heights := heights - {n};
          }
        }
        assert heights == Pruned(all, cutoff);
      }
      delivered := delivered[chain := heights];
      return true;
    }
  }

  /* ---------- Runs ---------- */

  /** The window after a run of headers on one chain. */
  function After(depth: nat, run: seq<Header>): Window {
    if run == [] then map[]
    else
      var last := run[|run| - 1];
      Marked(After(depth, run[..|run| - 1]), last.number, last.hash, depth)
  }

  /** The hash an unbounded memory holds for a height: the last one announced. */
  function LastAnnounced(run: seq<Header>, number: Height): Option<Hash> {
    if run == [] then None
    else
      var last := run[|run| - 1];
      if last.number == number then Some(last.hash) else LastAnnounced(run[..|run| - 1], number)
  }

  function Highest(run: seq<Header>): Height {
    if run == [] then 0
    else
      var before, last := Highest(run[..|run| - 1]), run[|run| - 1].number;
      if last > before then last else before
  }

  lemma MarkedAt(w: Window, number: Height, hash: Hash, depth: nat, at: Height)
    requires hash != ""
    ensures At(Marked(w, number, hash, depth), at)
         == if at == number then Some(hash)
            else if IsNews(w, number, hash) && |w[number := hash]| > depth && number > depth
                && at < number - depth then None
            else At(w, at)
  {
  }

  /** Within depth of the highest height announced, the window and unbounded
      memory hold the same; below it the window holds the same or nothing. */
  lemma {:induction false} WindowAgrees(depth: nat, run: seq<Header>, at: Height)
    requires forall h :: h in run ==> Announced(h)
    ensures var kept := At(After(depth, run), at);
            && (kept.Some? ==> kept == LastAnnounced(run, at))
            && (at + depth >= Highest(run) ==> kept == LastAnnounced(run, at))
  {
    if run != [] {
      var before, last := run[..|run| - 1], run[|run| - 1];
      assert last in run && forall h :: h in before ==> h in run;
      WindowAgrees(depth, before, at);
      MarkedAt(After(depth, before), last.number, last.hash, depth, at);
      hide Marked;
    }
  }

  /** markDelivered says "news" exactly when unbounded memory would, at every
      height no more than depth below the highest announced; anywhere it misses no
      news, and takes a repeat for news exactly when it has forgotten the height. */
  lemma {:induction false} NewsExactly(depth: nat, run: seq<Header>, h: Header)
    requires (forall x :: x in run ==> Announced(x)) && Announced(h)
    ensures (IsNews(After(depth, run), h.number, h.hash) <==> LastAnnounced(run, h.number) != Some(h.hash)) <==>
              !(h.number !in After(depth, run) && LastAnnounced(run, h.number) == Some(h.hash))
    ensures h.number + depth >= Highest(run) ==>
              (IsNews(After(depth, run), h.number, h.hash) <==> LastAnnounced(run, h.number) != Some(h.hash))
  {
    WindowAgrees(depth, run, h.number);
    hide After, LastAnnounced, Highest;
  }

  /** Heights are announced ones, so none is 0 or above the highest. */
  lemma {:induction false} WindowRange(depth: nat, run: seq<Header>)
    requires forall h :: h in run ==> Announced(h)
    ensures forall n :: n in After(depth, run) ==> 1 <= n <= Highest(run)
  {
    if run != [] {
      var before, last := run[..|run| - 1], run[|run| - 1];
      assert last in run && forall h :: h in before ==> h in run;
      WindowRange(depth, before);
    }
  }

  /** After news at a new highest height at most depth + 1 heights are kept. */
  lemma WindowIsSmall(depth: nat, run: seq<Header>, h: Header)
    requires (forall x :: x in run ==> Announced(x)) && Announced(h) && h.number > Highest(run)
    ensures |After(depth, run + [h])| <= depth + 1
  {
    WindowRange(depth, run);
    var w := After(depth, run);
    assert (run + [h])[..|run|] == run;
    var kept := After(depth, run + [h]);
    assert kept == Marked(w, h.number, h.hash, depth);
    var all := w[h.number := h.hash];
    if |all| > depth {
      if h.number > depth {
        StretchBound(kept.Keys, h.number - depth, depth + 1);
      } else {
        StretchBound(kept.Keys, 1, depth);
      }
    }
  }
}
