/** What every step of the batch protocol keeps, and what follows for whole runs. */
module ProtocolProofs {
  import opened Rpc
  import opened Options
  import opened Collections
  import opened Decoder
  import opened Meaning
  import opened Delivery
  import opened Protocol

  /* ---------- Frames ---------- */

  /** y is x later on: same batch, further along. */
  predicate SameBatch(x: Batch, y: Batch) {
    y.url == x.url && y.entries == x.entries && y.closes == x.closes
  }

  ghost predicate PoolAfter(cfg: Settings, s: State, b: nat, y: Batch, workers: map<Url, nat>)
    requires b < |s.all|
  {
    PoolInv(cfg, State(s.batches, workers, s.all[b := y], s.calls))
  }

  /** A step that changes one batch's own progress. */
  lemma PutKeeps(cfg: Settings, s: State, b: nat, y: Batch, workers: map<Url, nat>)
    requires Inv(cfg, s) && b < |s.all| && SameBatch(s.all[b], y)
    requires BatchInv(cfg, b, y, s.calls)
    requires Unclaimed(s.all[b]) == Unclaimed(y)
    requires PoolAfter(cfg, s, b, y, workers)
    ensures Inv(cfg, State(s.batches, workers, s.all[b := y], s.calls))
  {
    hide BatchInv, PoolInv;
  }

  lemma PoolUnmoved(cfg: Settings, s: State, t: State)
    requires PoolInv(cfg, s) && t.workers == s.workers && |t.all| == |s.all|
    requires forall b :: 0 <= b < |s.all| ==>
               t.all[b].url == s.all[b].url && Holding(t.all[b].phase) == Holding(s.all[b].phase)
    ensures PoolInv(cfg, t)
  {
    hide Holding;
    forall u
      ensures Tokens(t, u) == |Holders(t.all, u)| && Tokens(t, u) <= cfg.maxConcurrent
    {
      assert Holders(t.all, u) == Holders(s.all, u);
      assert Tokens(t, u) == Tokens(s, u) == |Holders(s.all, u)|;
    }
  }

  lemma SamePool(cfg: Settings, s: State, b: nat, y: Batch)
    requires PoolInv(cfg, s) && b < |s.all| && SameBatch(s.all[b], y)
    requires Holding(s.all[b].phase) == Holding(y.phase)
    ensures PoolAfter(cfg, s, b, y, s.workers)
  {
    PoolUnmoved(cfg, s, State(s.batches, s.workers, s.all[b := y], s.calls));
  }

  lemma HoldersTaken(all: seq<Batch>, b: nat, y: Batch, u: Url)
    requires b < |all| && SameBatch(all[b], y) && !Holding(all[b].phase) && Holding(y.phase)
    ensures |Holders(all[b := y], u)| == |Holders(all, u)| + if u == y.url then 1 else 0
  {
    var was, now := Holders(all, u), Holders(all[b := y], u);
    assert b !in was;
    forall d: nat
      ensures d in now <==> d in was || (d == b && u == y.url)
    {
      hide Holding;
      assert d < |all| && d != b ==> all[b := y][d] == all[d];
    }
    hide Holders;
    assert now == if u == y.url then was + {b} else was;
  }

  lemma HoldersFreed(all: seq<Batch>, b: nat, y: Batch, u: Url)
    requires b < |all| && SameBatch(all[b], y) && Holding(all[b].phase) && !Holding(y.phase)
    ensures |Holders(all, u)| == |Holders(all[b := y], u)| + if u == y.url then 1 else 0
  {
    assert all == all[b := y][b := all[b]];
    HoldersTaken(all[b := y], b, all[b], u);
  }

  lemma TakenPool(cfg: Settings, s: State, b: nat, y: Batch)
    requires PoolInv(cfg, s) && b < |s.all| && SameBatch(s.all[b], y)
    requires !Holding(s.all[b].phase) && Holding(y.phase) && Tokens(s, y.url) < cfg.maxConcurrent
    ensures PoolAfter(cfg, s, b, y, s.workers[y.url := Tokens(s, y.url) + 1])
  {
    var t := State(s.batches, s.workers[y.url := Tokens(s, y.url) + 1], s.all[b := y], s.calls);
    forall u
      ensures Tokens(t, u) == |Holders(t.all, u)| && Tokens(t, u) <= cfg.maxConcurrent
    {
      assert Tokens(s, u) == |Holders(s.all, u)|;
      HoldersTaken(s.all, b, y, u);
    }
  }

  lemma FreedPool(cfg: Settings, s: State, b: nat, y: Batch)
    requires PoolInv(cfg, s) && b < |s.all| && SameBatch(s.all[b], y)
    requires Holding(s.all[b].phase) && !Holding(y.phase)
    ensures Tokens(s, y.url) > 0
    ensures PoolAfter(cfg, s, b, y, Release(s, y.url).workers)
  {
    HoldersFreed(s.all, b, y, y.url);
    var t := State(s.batches, Release(s, y.url).workers, s.all[b := y], s.calls);
    forall u
      ensures Tokens(t, u) == |Holders(t.all, u)| && Tokens(t, u) <= cfg.maxConcurrent
    {
      assert Tokens(s, u) == |Holders(s.all, u)|;
      HoldersFreed(s.all, b, y, u);
    }
  }

  /** A send on the channel of slot i, together with the batch's own progress. */
  lemma PushKeeps(cfg: Settings, s: State, b: nat, i: nat, m: Message, y: Batch)
    requires Inv(cfg, s) && b < |s.all| && SameBatch(s.all[b], y) && i < |y.entries|
    requires s.calls[y.entries[i]].buffer == None && s.calls[y.entries[i]].log == []
    requires Unclaimed(s.all[b]) == Unclaimed(y) && Holding(s.all[b].phase) == Holding(y.phase)
    requires var c := y.entries[i];
             BatchInv(cfg, b, y, s.calls[c := s.calls[c].(buffer := Some(m), log := [m])])
    ensures var c := y.entries[i];
            Inv(cfg, State(s.batches, s.workers, s.all[b := y],
                           s.calls[c := s.calls[c].(buffer := Some(m), log := [m])]))
  {
    var c := y.entries[i];
    var calls := s.calls[c := s.calls[c].(buffer := Some(m), log := [m])];
    SamePool(cfg, s, b, y);
    forall d | 0 <= d < |s.all| && d != b
      ensures BatchInv(cfg, d, s.all[d], calls)
    {
      OtherBatchUntouched(cfg, s, d, b, i, calls[c]);
    }
    hide BatchInv, PoolInv;
  }

  lemma OtherBatchUntouched(cfg: Settings, s: State, d: nat, b: nat, i: nat, call: Call)
    requires d < |s.all| && b < |s.all| && d != b && i < |s.all[b].entries|
    requires BatchInv(cfg, d, s.all[d], s.calls) && BatchInv(cfg, b, s.all[b], s.calls)
    ensures BatchInv(cfg, d, s.all[d], s.calls[s.all[b].entries[i] := call])
  {
    hide SlotAnswered, SlotHeld, MessageFits;
    var x, c := s.all[d], s.all[b].entries[i];
    assert forall j :: 0 <= j < |x.entries| ==> x.entries[j] != c;
  }

  /* ---------- The processor's steps ---------- */

  /** A batch moves on without a slot being answered. */
  lemma Onward(cfg: Settings, b: nat, x: Batch, y: Batch, calls: seq<Call>)
    requires BatchInv(cfg, b, x, calls) && SameBatch(x, y)
    requires y.upstream == x.upstream && y.fired == x.fired && y.cancelled == x.cancelled
    requires SlotsInRange(y) && SlotHeld(y) && (Early(y.phase) ==> Early(x.phase))
    requires forall i :: 0 <= i < |x.entries| ==> Pending(y, i) == Pending(x, i)
    requires y.phase.Delivering? ==>
               forall i :: i in y.phase.todo ==> MessageFits(y, i, calls[y.entries[i]], y.phase.todo[i])
    ensures BatchInv(cfg, b, y, calls)
  {
    hide Pending, SlotsInRange, SlotHeld;
    forall i | 0 <= i < |y.entries|
      ensures SlotAnswered(y, i, calls[y.entries[i]])
    {
      assert SlotAnswered(x, i, calls[x.entries[i]]);
    }
    hide SlotAnswered, MessageFits;
  }

  lemma WakeKeeps(cfg: Settings, s: State, b: nat)
    requires ValidSettings(cfg) && Inv(cfg, s) && b < |s.all|
    requires BatchStep(cfg, s, Wake(b), b).Some?
    ensures Inv(cfg, BatchStep(cfg, s, Wake(b), b).value)
  {
    var y := s.all[b].(phase := Claiming);
    SamePool(cfg, s, b, y);
    Onward(cfg, b, s.all[b], y, s.calls);
    hide BatchInv, PoolInv;
    PutKeeps(cfg, s, b, y, s.workers);
  }

  lemma SnapshotKeeps(cfg: Settings, s: State, b: nat)
    requires ValidSettings(cfg) && Inv(cfg, s) && b < |s.all|
    requires BatchStep(cfg, s, Snapshot(b), b).Some?
    ensures Inv(cfg, BatchStep(cfg, s, Snapshot(b), b).value)
  {
    assert s.all[b].entries != [];
    var y := s.all[b].(phase := Acquiring);
    SamePool(cfg, s, b, y);
    Onward(cfg, b, s.all[b], y, s.calls);
    hide BatchInv, PoolInv;
    PutKeeps(cfg, s, b, y, s.workers);
  }

  lemma AcquireKeeps(cfg: Settings, s: State, b: nat)
    requires ValidSettings(cfg) && Inv(cfg, s) && b < |s.all|
    requires BatchStep(cfg, s, Acquire(b), b).Some?
    ensures Inv(cfg, BatchStep(cfg, s, Acquire(b), b).value)
  {
    var x := s.all[b];
    var y := x.(phase := Filtering(0, []), acquired := x.acquired + 1);
    Onward(cfg, b, x, y, s.calls);
    hide BatchInv, CallInv, MapInv;
    TakenPool(cfg, s, b, y);
    hide PoolInv;
    PutKeeps(cfg, s, b, y, s.workers[y.url := Tokens(s, y.url) + 1]);
  }

  lemma FinishKeeps(cfg: Settings, s: State, b: nat)
    requires ValidSettings(cfg) && Inv(cfg, s) && b < |s.all|
    requires BatchStep(cfg, s, Finish(b), b).Some?
    ensures Inv(cfg, BatchStep(cfg, s, Finish(b), b).value)
  {
    var y := s.all[b].(phase := Finished);
    SamePool(cfg, s, b, y);
    Onward(cfg, b, s.all[b], y, s.calls);
    hide BatchInv, PoolInv;
    PutKeeps(cfg, s, b, y, s.workers);
  }

  lemma AfterFuncKeeps(cfg: Settings, s: State, b: nat, slot: nat)
    requires ValidSettings(cfg) && Inv(cfg, s) && b < |s.all|
    requires BatchStep(cfg, s, AfterFunc(b, slot), b).Some?
    ensures Inv(cfg, BatchStep(cfg, s, AfterFunc(b, slot), b).value)
  {
    var x := s.all[b];
    var fired := x.fired + {slot};
    if x.cancelled {
      AllFired(x.fired, |x.entries|);
      assert false;
    }
    var y := x.(fired := fired, cancelled := |fired| == |x.entries|);
    SamePool(cfg, s, b, y);
    assert BatchStep(cfg, s, AfterFunc(b, slot), b).value == State(s.batches, s.workers, s.all[b := y], s.calls) by {
      hide Inv, BatchInv;
    }
    FiredBatch(cfg, b, x, slot, y, s.calls);
    hide BatchStep, BatchInv, PoolInv;
    PutKeeps(cfg, s, b, y, s.workers);
  }

  lemma FiredBatch(cfg: Settings, b: nat, x: Batch, slot: nat, y: Batch, calls: seq<Call>)
    requires BatchInv(cfg, b, x, calls) && Registered(x.phase)
    requires slot < |x.entries| && calls[x.entries[slot]].left
    requires y == x.(fired := x.fired + {slot}, cancelled := |x.fired + {slot}| == |x.entries|)
    ensures BatchInv(cfg, b, y, calls)
  {
    forall i | 0 <= i < |y.entries|
      ensures SlotAnswered(y, i, calls[y.entries[i]])
    {
      assert SlotAnswered(x, i, calls[x.entries[i]]);
    }
    hide SlotAnswered, MessageFits;
  }

  /** n distinct slots below n are all of them. */
  lemma AllFired(fired: set<nat>, n: nat)
    requires |fired| == n && forall i :: i in fired ==> i < n
    ensures fired == Below(n)
  {
    var missing := Below(n) - fired;
    assert Below(n) == fired + missing;
    assert |Below(n)| == |fired| + |missing|;
  }

  lemma GiveUpKeeps(cfg: Settings, s: State, b: nat)
    requires ValidSettings(cfg) && Inv(cfg, s) && b < |s.all|
    requires BatchStep(cfg, s, GiveUp(b), b).Some?
    ensures Inv(cfg, BatchStep(cfg, s, GiveUp(b), b).value)
  {
    var x := s.all[b];
    var slots := seq(|x.entries|, k requires 0 <= k < |x.entries| => k as nat);
    var ms := seq(|slots|, k requires 0 <= k < |slots| => Abandoned(RequestAt(s, b, slots[k])));
    var y := x.(phase := Delivering(BySlot(slots, ms)));
    assert BatchStep(cfg, s, GiveUp(b), b).value == State(s.batches, s.workers, s.all[b := y], s.calls) by {
      hide Inv;
    }
    hide BatchStep;
    GivenUp(cfg, b, x, y, slots, ms, s);
    SamePool(cfg, s, b, y);
    hide PoolInv, BatchInv;
    PutKeeps(cfg, s, b, y, s.workers);
  }

  lemma GivenUp(cfg: Settings, b: nat, x: Batch, y: Batch, slots: seq<nat>, ms: seq<Message>, s: State)
    requires b < |s.all| && s.all[b] == x && BatchInv(cfg, b, x, s.calls) && x.phase.Acquiring? && x.cancelled
    requires |slots| == |ms| == |x.entries| && forall k :: 0 <= k < |slots| ==> slots[k] == k
    requires forall k :: 0 <= k < |slots| ==> ms[k] == Abandoned(RequestAt(s, b, slots[k]))
    requires y == x.(phase := Delivering(BySlot(slots, ms)))
    ensures BatchInv(cfg, b, y, s.calls)
  {
    hide BatchInv, MessageFits, RequestAt, BySlot;
    AbandonsFit(cfg, b, x, y, slots, ms, s);
    BatchParts(cfg, b, x, s.calls);
    AllSlots(slots);
    ToDelivering(cfg, b, x, y, slots, ms, s.calls);
  }

  lemma BatchParts(cfg: Settings, b: nat, x: Batch, calls: seq<Call>)
    requires BatchInv(cfg, b, x, calls)
    ensures Entries(b, x, calls) && SlotsInRange(x) && SlotHeld(x) && ContextInv(x, calls)
  {
  }

  lemma AbandonsFit(cfg: Settings, b: nat, x: Batch, y: Batch, slots: seq<nat>, ms: seq<Message>, s: State)
    requires b < |s.all| && s.all[b] == x && BatchInv(cfg, b, x, s.calls) && x.phase.Acquiring? && x.cancelled
    requires |slots| == |ms| == |x.entries| && forall k :: 0 <= k < |slots| ==> slots[k] == k
    requires forall k :: 0 <= k < |slots| ==> ms[k] == Abandoned(RequestAt(s, b, slots[k]))
    requires y.upstream == x.upstream
    ensures forall k :: 0 <= k < |slots| ==> MessageFits(y, slots[k], s.calls[x.entries[slots[k]]], ms[k])
  {
    BatchParts(cfg, b, x, s.calls);
    hide BatchInv;
    AllFired(x.fired, |x.entries|);
    forall k | 0 <= k < |slots|
      ensures MessageFits(y, slots[k], s.calls[x.entries[slots[k]]], ms[k])
    {
      assert k in x.fired;
    }
  }

  lemma AllSlots(slots: seq<nat>)
    requires forall k :: 0 <= k < |slots| ==> slots[k] == k
    ensures forall i: nat :: i in slots <==> i < |slots|
  {
    forall i: nat | i < |slots|
      ensures i in slots
    {
      assert slots[i] == i;
    }
  }

  lemma IncreasingSnoc(xs: seq<nat>, k: nat)
    requires Increasing(xs) && forall i :: i in xs ==> i < k
    ensures Increasing(xs + [k])
    ensures forall i :: i in xs + [k] <==> i in xs || i == k
  {
    assert forall i :: 0 <= i < |xs| ==> xs[i] in xs;
  }

  lemma FilterLiveKeeps(cfg: Settings, s: State, b: nat)
    requires ValidSettings(cfg) && Inv(cfg, s) && b < |s.all|
    requires BatchStep(cfg, s, Filter(b), b).Some?
    requires s.all[b].phase.next < |s.all[b].entries| && !s.calls[s.all[b].entries[s.all[b].phase.next]].left
    ensures Inv(cfg, BatchStep(cfg, s, Filter(b), b).value)
  {
    var x := s.all[b];
    var y := x.(phase := Filtering(x.phase.next + 1, x.phase.live + [x.phase.next]));
    assert BatchStep(cfg, s, Filter(b), b).value == State(s.batches, s.workers, s.all[b := y], s.calls) by {
      hide MapInv, PoolInv;
    }
    hide BatchStep;
    IncreasingSnoc(x.phase.live, x.phase.next);
    Onward(cfg, b, x, y, s.calls);
    SamePool(cfg, s, b, y);
    hide BatchInv, PoolInv;
    PutKeeps(cfg, s, b, y, s.workers);
  }

  lemma FilterDeadKeeps(cfg: Settings, s: State, b: nat)
    requires ValidSettings(cfg) && Inv(cfg, s) && b < |s.all|
    requires BatchStep(cfg, s, Filter(b), b).Some?
    requires s.all[b].phase.next < |s.all[b].entries| && s.calls[s.all[b].entries[s.all[b].phase.next]].left
    ensures Inv(cfg, BatchStep(cfg, s, Filter(b), b).value)
  {
    var x := s.all[b];
    var k := x.phase.next;
    var c := x.entries[k];
    var m := Abandoned(s.calls[c].request);
    var y := x.(phase := Filtering(k + 1, x.phase.live));
    assert SlotAnswered(x, k, s.calls[c]);
    assert s.calls[c].log == [];
    AnsweredBatch(cfg, b, x, y, k, m, s.calls);
    hide BatchInv, PoolInv, CallInv, MapInv;
    assert s.calls[c].log + [m] == [m];
    assert BatchStep(cfg, s, Filter(b), b).value
        == State(s.batches, s.workers, s.all[b := y], s.calls[c := s.calls[c].(buffer := Some(m), log := [m])]);
    hide BatchStep;
    PushKeeps(cfg, s, b, k, m, y);
  }

  /** Slot i of x is answered with m; everything else about the batch stands. */
  lemma AnsweredBatch(cfg: Settings, b: nat, x: Batch, y: Batch, i: nat, m: Message, calls: seq<Call>)
    requires BatchInv(cfg, b, x, calls) && i < |x.entries|
    requires y == x.(phase := y.phase) && SlotsInRange(y) && Pending(x, i)
    requires forall j :: 0 <= j < |x.entries| ==> Pending(y, j) == (Pending(x, j) && j != i)
    requires (x.phase.Filtering? && y.phase.Filtering?)
             || (x.phase.Delivering? && y.phase.Delivering? && y.phase.todo == x.phase.todo - {i})
    requires MessageFits(x, i, calls[x.entries[i]], m)
    ensures var c := x.entries[i]; BatchInv(cfg, b, y, calls[c := calls[c].(buffer := Some(m), log := [m])])
  {
    var c := x.entries[i];
    var calls' := calls[c := calls[c].(buffer := Some(m), log := [m])];
    forall j | 0 <= j < |y.entries|
      ensures SlotAnswered(y, j, calls'[y.entries[j]])
    {
      assert SlotAnswered(x, j, calls[x.entries[j]]);
      if j == i {
        assert calls'[c].log == [m];
      } else {
        assert y.entries[j] != c;
      }
    }
    if y.phase.Delivering? {
      forall j | j in y.phase.todo
        ensures MessageFits(y, j, calls'[y.entries[j]], y.phase.todo[j])
      {
        assert y.entries[j] != c;
      }
    }
    hide SlotAnswered, MessageFits, Pending, SlotsInRange;
  }

  lemma FilterEmptyKeeps(cfg: Settings, s: State, b: nat)
    requires ValidSettings(cfg) && Inv(cfg, s) && b < |s.all|
    requires BatchStep(cfg, s, Filter(b), b).Some?
    requires s.all[b].phase.next >= |s.all[b].entries| && s.all[b].phase.live == []
    ensures Inv(cfg, BatchStep(cfg, s, Filter(b), b).value)
  {
    var x := s.all[b];
    var y := x.(phase := Finished, released := x.released + 1);
    FreedPool(cfg, s, b, y);
    assert BatchInv(cfg, b, y, s.calls) by { hide MessageFits; }
    hide BatchInv, PoolInv;
    PutKeeps(cfg, s, b, y, Release(s, x.url).workers);
  }

  lemma FilterDoneKeeps(cfg: Settings, s: State, b: nat)
    requires ValidSettings(cfg) && Inv(cfg, s) && b < |s.all|
    requires BatchStep(cfg, s, Filter(b), b).Some?
    requires s.all[b].phase.next >= |s.all[b].entries| && s.all[b].phase.live != []
    ensures Inv(cfg, BatchStep(cfg, s, Filter(b), b).value)
  {
    var x := s.all[b];
    var live := x.phase.live;
    var y := x.(phase := Sending(live), upstream := live);
    SamePool(cfg, s, b, y);
    forall i | 0 <= i < |y.entries|
      ensures SlotAnswered(y, i, s.calls[y.entries[i]])
    {
      assert SlotAnswered(x, i, s.calls[x.entries[i]]);
    }
    assert BatchInv(cfg, b, y, s.calls) by { hide MessageFits, SlotAnswered; }
    hide BatchInv, PoolInv;
    PutKeeps(cfg, s, b, y, s.workers);
  }

  lemma ReturnedKeeps(cfg: Settings, s: State, b: nat)
    requires ValidSettings(cfg) && Inv(cfg, s) && b < |s.all|
    requires BatchStep(cfg, s, Returned(b), b).Some?
    ensures Inv(cfg, BatchStep(cfg, s, Returned(b), b).value)
  {
    var x := s.all[b];
    var y := x.(phase := Expanding(x.phase.wire), released := x.released + 1);
    FreedPool(cfg, s, b, y);
    Onward(cfg, b, x, y, s.calls);
    hide BatchInv, PoolInv;
    PutKeeps(cfg, s, b, y, Release(s, x.url).workers);
  }

  lemma RepliedKeeps(cfg: Settings, s: State, b: nat, tickets: nat -> nat, sent: Option<seq<Reply>>)
    requires ValidSettings(cfg) && Inv(cfg, s) && b < |s.all|
    requires BatchStep(cfg, s, Replied(b, tickets, sent), b).Some?
    ensures Inv(cfg, BatchStep(cfg, s, Replied(b, tickets, sent), b).value)
  {
    hide Inv, BatchStep, Replies;
    if Replies(cfg, s, b, tickets, sent).Decoded? {
      AnswersKeep(cfg, s, b, tickets, sent);
    } else {
      CrashKeeps(cfg, s, b, tickets, sent);
    }
  }

  lemma AnswersKeep(cfg: Settings, s: State, b: nat, tickets: nat -> nat, sent: Option<seq<Reply>>)
    requires ValidSettings(cfg) && Inv(cfg, s) && b < |s.all|
    requires BatchStep(cfg, s, Replied(b, tickets, sent), b).Some? && Replies(cfg, s, b, tickets, sent).Decoded?
    ensures Inv(cfg, BatchStep(cfg, s, Replied(b, tickets, sent), b).value)
  {
    hide Replies, Inv, BySlot, BatchStep;
    var x := s.all[b];
    var ms := RepliedEffect(cfg, s, b, tickets, sent);
    AnsweringKeeps(cfg, s, b, x, ms, x.(phase := Delivering(BySlot(x.phase.wire, ms))));
  }

  lemma AnsweringKeeps(cfg: Settings, s: State, b: nat, x: Batch, ms: seq<Message>, y: Batch)
    requires Inv(cfg, s) && b < |s.all| && x == s.all[b] && x.phase.Expanding? && |ms| == |x.phase.wire|
    requires forall k :: 0 <= k < |ms| ==>
               ms[k].id == RequestAt(s, b, x.phase.wire[k]).id && ms[k].body != Internal(CallerLeft)
    requires y == x.(phase := Delivering(BySlot(x.phase.wire, ms)))
    ensures Inv(cfg, State(s.batches, s.workers, s.all[b := y], s.calls))
  {
    hide BySlot;
    assert BatchInv(cfg, b, x, s.calls);
    RepliedBatch(cfg, b, s, x, x.phase.wire, ms, y);
    SamePool(cfg, s, b, y);
    hide BatchInv, PoolInv;
    PutKeeps(cfg, s, b, y, s.workers);
  }

  /** What the replies of a batch's exchange come to. */
  function Replies(cfg: Settings, s: State, b: nat, tickets: nat -> nat,
                   sent: Option<seq<Reply>>): Outcome<seq<Message>>
    requires ValidSettings(cfg) && b < |s.all|
  {
    if s.all[b].phase.Expanding? then Messages(Multicall(cfg, tickets), RequestsAt(s, b, s.all[b].phase.wire), sent)
    else Rejected
  }

  lemma CrashKeeps(cfg: Settings, s: State, b: nat, tickets: nat -> nat, sent: Option<seq<Reply>>)
    requires ValidSettings(cfg) && Inv(cfg, s) && b < |s.all|
    requires BatchStep(cfg, s, Replied(b, tickets, sent), b).Some? && !Replies(cfg, s, b, tickets, sent).Decoded?
    ensures Inv(cfg, BatchStep(cfg, s, Replied(b, tickets, sent), b).value)
  {
    var x := s.all[b];
    var y := CrashEffect(cfg, s, b, tickets, sent);
    hide BatchStep, Replies;
    BatchParts(cfg, b, x, s.calls);
    Onward(cfg, b, x, y, s.calls);
    SamePool(cfg, s, b, y);
    hide BatchInv, PoolInv;
    PutKeeps(cfg, s, b, y, s.workers);
  }

  lemma CrashEffect(cfg: Settings, s: State, b: nat, tickets: nat -> nat, sent: Option<seq<Reply>>) returns (y: Batch)
    requires ValidSettings(cfg) && b < |s.all|
    requires BatchStep(cfg, s, Replied(b, tickets, sent), b).Some? && !Replies(cfg, s, b, tickets, sent).Decoded?
    ensures var x := s.all[b];
            && x.phase.Expanding? && y == x.(phase := Crashed(x.phase.wire))
            && BatchStep(cfg, s, Replied(b, tickets, sent), b).value
               == State(s.batches, s.workers, s.all[b := y], s.calls)
  {
    var x := s.all[b];
    y := x.(phase := Crashed(x.phase.wire));
    hide Messages;
  }

  lemma RepliedEffect(cfg: Settings, s: State, b: nat, tickets: nat -> nat, sent: Option<seq<Reply>>)
    returns (ms: seq<Message>)
    requires ValidSettings(cfg) && b < |s.all|
    requires BatchStep(cfg, s, Replied(b, tickets, sent), b).Some? && Replies(cfg, s, b, tickets, sent).Decoded?
    ensures s.all[b].phase.Expanding?
    ensures var x := s.all[b];
            var wire := x.phase.wire;
            && |ms| == |wire| && Replies(cfg, s, b, tickets, sent) == Decoded(ms)
            && (forall k :: 0 <= k < |wire| ==>
                  ms[k].id == RequestAt(s, b, wire[k]).id && ms[k].body != Internal(CallerLeft))
            && BatchStep(cfg, s, Replied(b, tickets, sent), b).value
               == State(s.batches, s.workers, s.all[b := x.(phase := Delivering(BySlot(wire, ms)))], s.calls)
  {
    ms := Messages(Multicall(cfg, tickets), RequestsAt(s, b, s.all[b].phase.wire), sent).value;
    forall k | 0 <= k < |s.all[b].phase.wire|
      ensures ms[k].id == RequestAt(s, b, s.all[b].phase.wire[k]).id && ms[k].body != Internal(CallerLeft)
    {
      MessagesFit(cfg, s, b, tickets, sent, k);
    }
    hide Messages, BySlot;
  }

  lemma RepliedBatch(cfg: Settings, b: nat, s: State, x: Batch, wire: seq<nat>, ms: seq<Message>, y: Batch)
    requires b < |s.all| && s.all[b] == x && x.phase == Expanding(wire) && BatchInv(cfg, b, x, s.calls)
    requires |ms| == |wire|
    requires forall k :: 0 <= k < |ms| ==> ms[k].id == RequestAt(s, b, wire[k]).id && ms[k].body != Internal(CallerLeft)
    requires y == x.(phase := Delivering(BySlot(wire, ms)))
    ensures BatchInv(cfg, b, y, s.calls)
  {
    hide BatchInv, BySlot, MessageFits, RequestAt;
    BatchParts(cfg, b, x, s.calls);
    RepliesFit(cfg, b, s, x, wire, ms, y);
    ToDelivering(cfg, b, x, y, wire, ms, s.calls);
  }

  lemma RepliesFit(cfg: Settings, b: nat, s: State, x: Batch, wire: seq<nat>, ms: seq<Message>, y: Batch)
    requires b < |s.all| && s.all[b] == x && x.phase == Expanding(wire) && BatchInv(cfg, b, x, s.calls)
    requires |ms| == |wire|
    requires forall k :: 0 <= k < |ms| ==> ms[k].id == RequestAt(s, b, wire[k]).id && ms[k].body != Internal(CallerLeft)
    ensures forall k :: 0 <= k < |ms| ==>
              wire[k] < |x.entries| && MessageFits(y, wire[k], s.calls[x.entries[wire[k]]], ms[k])
  {
    BatchParts(cfg, b, x, s.calls);
    hide BatchInv;
    forall k | 0 <= k < |ms|
      ensures wire[k] < |x.entries| && MessageFits(y, wire[k], s.calls[x.entries[wire[k]]], ms[k])
    {
      assert wire[k] in wire;
    }
  }

  /** A batch starts answering the slots that are still pending. */
  lemma ToDelivering(cfg: Settings, b: nat, x: Batch, y: Batch, slots: seq<nat>, ms: seq<Message>, calls: seq<Call>)
    requires BatchInv(cfg, b, x, calls) && |slots| == |ms|
    requires y == x.(phase := Delivering(BySlot(slots, ms))) && SlotHeld(y)
    requires forall i :: i in slots ==> i < |x.entries|
    requires forall i :: 0 <= i < |x.entries| ==> Pending(x, i) == (i in slots)
    requires forall k :: 0 <= k < |slots| ==>
               slots[k] < |y.entries| && MessageFits(y, slots[k], calls[y.entries[slots[k]]], ms[k])
    ensures BatchInv(cfg, b, y, calls)
  {
    assert SameBatch(x, y);
    assert forall i :: 0 <= i < |x.entries| ==> x.entries[i] < |calls|;
    hide MessageFits, BySlot, SlotAnswered, SlotHeld, BatchInv;
    TodoFits(y, slots, ms, calls);
    Onward(cfg, b, x, y, calls);
  }

  lemma TodoFits(y: Batch, slots: seq<nat>, ms: seq<Message>, calls: seq<Call>)
    requires |slots| == |ms| && forall i :: 0 <= i < |y.entries| ==> y.entries[i] < |calls|
    requires forall k :: 0 <= k < |slots| ==>
               slots[k] < |y.entries| && MessageFits(y, slots[k], calls[y.entries[slots[k]]], ms[k])
    ensures forall i :: i in BySlot(slots, ms) ==>
              i < |y.entries| && MessageFits(y, i, calls[y.entries[i]], BySlot(slots, ms)[i])
  {
    hide MessageFits, BySlot;
  }

  lemma MessagesFit(cfg: Settings, s: State, b: nat, tickets: nat -> nat, sent: Option<seq<Reply>>, k: nat)
    requires ValidSettings(cfg) && b < |s.all| && s.all[b].phase.Expanding? && k < |s.all[b].phase.wire|
    requires Messages(Multicall(cfg, tickets), RequestsAt(s, b, s.all[b].phase.wire), sent).Decoded?
    ensures var m := Messages(Multicall(cfg, tickets), RequestsAt(s, b, s.all[b].phase.wire), sent).value[k];
            m.id == RequestAt(s, b, s.all[b].phase.wire[k]).id && m.body != Internal(CallerLeft)
  {
    hide Restored, OnTheWire, FirstFor;
  }

  lemma RespondKeeps(cfg: Settings, s: State, b: nat, slot: nat)
    requires ValidSettings(cfg) && Inv(cfg, s) && b < |s.all|
    requires BatchStep(cfg, s, Respond(b, slot), b).Some?
    ensures Inv(cfg, BatchStep(cfg, s, Respond(b, slot), b).value)
  {
    var x := s.all[b];
    var c, m := x.entries[slot], x.phase.todo[slot];
    var y := x.(phase := Delivering(x.phase.todo - {slot}));
    assert SlotAnswered(x, slot, s.calls[c]);
    assert s.calls[c].log == [];
    AnsweredBatch(cfg, b, x, y, slot, m, s.calls);
    hide BatchInv, PoolInv, CallInv, MapInv;
    assert s.calls[c].log + [m] == [m];
    assert BatchStep(cfg, s, Respond(b, slot), b).value
        == State(s.batches, s.workers, s.all[b := y], s.calls[c := s.calls[c].(buffer := Some(m), log := [m])]);
    hide BatchStep;
    PushKeeps(cfg, s, b, slot, m, y);
  }

  lemma ClaimEffect(cfg: Settings, s: State, b: nat, batches: map<Url, nat>)
    requires ValidSettings(cfg) && b < |s.all|
    requires BatchStep(cfg, s, Claim(b), b).Some?
    requires var url := s.all[b].url;
             batches == if url in s.batches && s.batches[url] == b then s.batches - {url} else s.batches
    ensures s.all[b].phase.Claiming?
    ensures BatchStep(cfg, s, Claim(b), b).value
         == State(batches, s.workers, s.all[b := s.all[b].(phase := Snapshotting)], s.calls)
  {
  }

  lemma ClaimKeeps(cfg: Settings, s: State, b: nat)
    requires ValidSettings(cfg) && Inv(cfg, s) && b < |s.all|
    requires BatchStep(cfg, s, Claim(b), b).Some?
    ensures Inv(cfg, BatchStep(cfg, s, Claim(b), b).value)
  {
    var x := s.all[b];
    var batches := if x.url in s.batches && s.batches[x.url] == b then s.batches - {x.url} else s.batches;
    ClaimEffect(cfg, s, b, batches);
    hide BatchStep;
    var y := x.(phase := Snapshotting);
    Onward(cfg, b, x, y, s.calls);
    hide BatchInv;
    PoolUnmoved(cfg, s, State(batches, s.workers, s.all[b := y], s.calls));
    hide PoolInv;
    ClaimedMap(cfg, s, b, y, batches);
    hide MapInv;
  }

  /** Taken out of the map or not there already, the batch is claimed. */
  lemma ClaimedMap(cfg: Settings, s: State, b: nat, y: Batch, batches: map<Url, nat>)
    requires MapInv(cfg, s) && b < |s.all| && s.all[b].phase.Claiming? && y == s.all[b].(phase := Snapshotting)
    requires var url := s.all[b].url;
             batches == if url in s.batches && s.batches[url] == b then s.batches - {url} else s.batches
    ensures MapInv(cfg, State(batches, s.workers, s.all[b := y], s.calls))
  {
    assert forall u :: u in s.batches && s.batches[u] == b ==> u == s.all[b].url;
  }

  /* ---------- The callers' steps ---------- */

  /** A call whose channel is read or whose caller leaves stays a good entry. */
  lemma CallUpdated(cfg: Settings, b: nat, x: Batch, calls: seq<Call>, c: nat, call: Call)
    requires BatchInv(cfg, b, x, calls) && c < |calls|
    requires call.request == calls[c].request && call.batch == calls[c].batch && call.slot == calls[c].slot
    requires call.log == calls[c].log && (calls[c].left ==> call.left)
    ensures BatchInv(cfg, b, x, calls[c := call])
  {
    hide SlotHeld, Pending;
    var calls' := calls[c := call];
    forall i | 0 <= i < |x.entries|
      ensures SlotAnswered(x, i, calls'[x.entries[i]])
    {
      assert SlotAnswered(x, i, calls[x.entries[i]]);
    }
    if x.phase.Delivering? {
      forall i | i in x.phase.todo && i < |x.entries|
        ensures MessageFits(x, i, calls'[x.entries[i]], x.phase.todo[i])
      {
        assert MessageFits(x, i, calls[x.entries[i]], x.phase.todo[i]);
      }
    }
    hide SlotAnswered, MessageFits;
  }

  lemma CallStepEffect(cfg: Settings, s: State, e: Event)
    requires ValidSettings(cfg) && (e.Leave? || e.Receive?) && Step(cfg, s, e).Some?
    ensures e.c < |s.calls| && |Step(cfg, s, e).value.calls| == |s.calls|
    ensures var c, call := s.calls[e.c], Step(cfg, s, e).value.calls[e.c];
            && Step(cfg, s, e).value == State(s.batches, s.workers, s.all, s.calls[e.c := call])
            && call == c.(left := call.left, buffer := call.buffer)
            && (c.left ==> call.left) && (call.buffer.Some? ==> call.buffer == c.buffer)
  {
  }

  lemma CallStepKeeps(cfg: Settings, s: State, e: Event)
    requires ValidSettings(cfg) && Inv(cfg, s) && (e.Leave? || e.Receive?)
    requires Step(cfg, s, e).Some?
    ensures Inv(cfg, Step(cfg, s, e).value)
  {
    CallStepEffect(cfg, s, e);
    hide Step;
    CallReplaced(cfg, s, e.c, Step(cfg, s, e).value);
    hide Inv;
  }

  /** One call's caller leaves, or its channel is read. */
  lemma CallReplaced(cfg: Settings, s: State, k: nat, t: State)
    requires Inv(cfg, s) && k < |s.calls| == |t.calls|
    requires t == State(s.batches, s.workers, s.all, s.calls[k := t.calls[k]])
    requires var c, call := s.calls[k], t.calls[k];
             && call == c.(left := call.left, buffer := call.buffer)
             && (c.left ==> call.left) && (call.buffer.Some? ==> call.buffer == c.buffer)
    ensures Inv(cfg, t)
  {
    hide BatchInv;
    forall b | 0 <= b < |s.all|
      ensures BatchInv(cfg, b, s.all[b], t.calls)
    {
      CallUpdated(cfg, b, s.all[b], s.calls, k, t.calls[k]);
    }
    PoolUnmoved(cfg, s, t);
    assert MapInv(cfg, t);
    hide PoolInv, MapInv;
  }

  /* ---------- AddRequest and FlushAll ---------- */

  /** A new call elsewhere changes nothing for a batch. */
  lemma CallsGrow(cfg: Settings, b: nat, x: Batch, calls: seq<Call>, call: Call)
    requires BatchInv(cfg, b, x, calls)
    ensures BatchInv(cfg, b, x, calls + [call])
  {
    hide SlotHeld, Pending;
    var calls' := calls + [call];
    forall i | 0 <= i < |x.entries|
      ensures SlotAnswered(x, i, calls'[x.entries[i]])
    {
      assert SlotAnswered(x, i, calls[x.entries[i]]);
    }
    if x.phase.Delivering? {
      forall i | i in x.phase.todo && i < |x.entries|
        ensures MessageFits(x, i, calls'[x.entries[i]], x.phase.todo[i])
      {
        assert MessageFits(x, i, calls[x.entries[i]], x.phase.todo[i]);
      }
    }
    hide SlotAnswered, MessageFits, SlotsInRange;
  }

  /** A batch opened for one call, or closed at once. */
  lemma FreshBatch(cfg: Settings, b: nat, url: Url, calls: seq<Call>, request: Request, x: Batch)
    requires ValidSettings(cfg)
    requires x == NewBatch(url, |calls|) || x == Close(NewBatch(url, |calls|))
    ensures BatchInv(cfg, b, x, calls + [Call(request, b, 0, false, None, [])])
  {
  }

  lemma NewBatchPool(cfg: Settings, s: State, url: Url, x: Batch, t: State)
    requires PoolInv(cfg, s) && !Holding(x.phase)
    requires t.all == s.all + [x] && t.workers == PoolLocked(s, url).workers
    ensures PoolInv(cfg, t)
  {
    forall u
      ensures Tokens(t, u) == |Holders(t.all, u)| && Tokens(t, u) <= cfg.maxConcurrent
    {
      assert Holders(t.all, u) == Holders(s.all, u);
      assert Tokens(s, u) == |Holders(s.all, u)|;
    }
  }

  lemma OpenKeeps(cfg: Settings, s: State, url: Url, request: Request, x: Batch, t: State)
    requires ValidSettings(cfg) && Inv(cfg, s)
    requires x == NewBatch(url, |s.calls|) || x == Close(NewBatch(url, |s.calls|))
    requires t.all == s.all + [x] && t.calls == s.calls + [Call(request, |s.all|, 0, false, None, [])]
    requires t.workers == PoolLocked(s, url).workers
    requires if x.closes == 0 then t.batches == s.batches[url := |s.all|] && url !in s.batches && cfg.maxBatchSize > 1
             else t.batches == s.batches
    ensures Inv(cfg, t)
  {
    FreshBatch(cfg, |s.all|, url, s.calls, request, x);
    assert x.entries == [|s.calls|] && x.url == url && (x.closes == 0 ==> Unclaimed(x)) && !Holding(x.phase);
    hide BatchInv;
    forall b | 0 <= b < |s.all|
      ensures BatchInv(cfg, b, s.all[b], t.calls)
    {
      CallsGrow(cfg, b, s.all[b], s.calls, Call(request, |s.all|, 0, false, None, []));
    }
    NewBatchPool(cfg, s, url, x, t);
    hide PoolInv, PoolLocked, NewBatch, Close;
    OpenedMap(cfg, s, url, x, t);
    hide MapInv;
  }

  lemma OpenedMap(cfg: Settings, s: State, url: Url, x: Batch, t: State)
    requires MapInv(cfg, s) && t.all == s.all + [x] && x.url == url && |x.entries| == 1
    requires x.closes == 0 ==> Unclaimed(x)
    requires if x.closes == 0 then t.batches == s.batches[url := |s.all|] && url !in s.batches && cfg.maxBatchSize > 1
             else t.batches == s.batches
    ensures MapInv(cfg, t)
  {
  }

  lemma JoinedBatch(cfg: Settings, b: nat, x: Batch, y: Batch, calls: seq<Call>, request: Request)
    requires BatchInv(cfg, b, x, calls) && Unclaimed(x) && |x.entries| < cfg.maxBatchSize
    requires var z := x.(entries := x.entries + [|calls|]); y == z || y == Close(z)
    ensures BatchInv(cfg, b, y, calls + [Call(request, b, |x.entries|, false, None, [])])
  {
    var calls' := calls + [Call(request, b, |x.entries|, false, None, [])];
    forall i | 0 <= i < |y.entries|
      ensures SlotAnswered(y, i, calls'[y.entries[i]])
    {
      if i < |x.entries| {
        assert SlotAnswered(x, i, calls[x.entries[i]]);
      }
    }
    hide SlotAnswered;
  }

  lemma JoinKeeps(cfg: Settings, s: State, url: Url, request: Request)
    requires ValidSettings(cfg) && Inv(cfg, s) && url in s.batches && !RangeScan(request.rpcMethod)
    ensures Inv(cfg, AddRequest(cfg, s, url, request))
  {
    var t := AddRequest(cfg, s, url, request);
    var b := s.batches[url];
    var x, y := s.all[b], t.all[b];
    JoinedBatch(cfg, b, x, y, s.calls, request);
    forall d | 0 <= d < |s.all| && d != b
      ensures BatchInv(cfg, d, s.all[d], t.calls)
    {
      CallsGrow(cfg, d, s.all[d], s.calls, Call(request, b, |x.entries|, false, None, []));
    }
    hide BatchInv;
    PoolUnmoved(cfg, s, t);
    hide PoolInv;
    JoinedMap(cfg, s, url, request, b, y, t);
  }

  lemma JoinedMap(cfg: Settings, s: State, url: Url, request: Request, b: nat, y: Batch, t: State)
    requires Inv(cfg, s) && url in s.batches && s.batches[url] == b && b < |s.all|
    requires t.all == s.all[b := y] && t.calls == s.calls + [Call(request, b, |s.all[b].entries|, false, None, [])]
    requires y.url == url && y.phase == s.all[b].phase && y.entries == s.all[b].entries + [|s.calls|]
    requires y.closes == if |y.entries| >= cfg.maxBatchSize then 1 else 0
    requires t.batches == if |y.entries| >= cfg.maxBatchSize then s.batches - {url} else s.batches
    ensures MapInv(cfg, t)
    ensures forall c :: 0 <= c < |t.calls| ==> CallInv(c, t.calls[c], t.all)
  {
    hide BatchInv, PoolInv;
    assert forall u :: u in t.batches ==> u in s.batches && t.batches[u] == s.batches[u];
    assert forall u :: u in s.batches && s.batches[u] == b ==> u == url;
  }

  lemma AddKeeps(cfg: Settings, s: State, url: Url, request: Request)
    requires ValidSettings(cfg) && Inv(cfg, s)
    ensures Inv(cfg, AddRequest(cfg, s, url, request))
  {
    var t := AddRequest(cfg, s, url, request);
    if !RangeScan(request.rpcMethod) && url in s.batches {
      JoinKeeps(cfg, s, url, request);
    } else {
      OpenKeeps(cfg, s, url, request, t.all[|s.all|], t);
    }
  }

  lemma ClosedBatch(cfg: Settings, b: nat, x: Batch, calls: seq<Call>)
    requires BatchInv(cfg, b, x, calls) && x.closes == 0
    ensures BatchInv(cfg, b, Close(x), calls)
  {
    forall i | 0 <= i < |x.entries|
      ensures SlotAnswered(Close(x), i, calls[x.entries[i]])
    {
      assert SlotAnswered(x, i, calls[x.entries[i]]);
    }
    hide SlotAnswered;
  }

  lemma FlushKeeps(cfg: Settings, s: State)
    requires Inv(cfg, s)
    ensures Inv(cfg, Flush(s))
  {
    var t := Flush(s);
    forall b | 0 <= b < |s.all|
      ensures BatchInv(cfg, b, t.all[b], s.calls)
      ensures !Unclaimed(t.all[b])
    {
      if b in s.batches.Values {
        ClosedBatch(cfg, b, s.all[b], s.calls);
      }
    }
    hide BatchInv;
    PoolUnmoved(cfg, s, t);
    hide PoolInv;
  }

  /* ---------- Every step, every run ---------- */

  /** Every step of every goroutine keeps the invariant. */
  lemma StepKeeps(cfg: Settings, s: State, e: Event)
    requires ValidSettings(cfg) && Inv(cfg, s) && Step(cfg, s, e).Some?
    ensures Inv(cfg, Step(cfg, s, e).value)
  {
    match e
    case Add(url, request) => AddKeeps(cfg, s, url, request);
    case FlushAll => FlushKeeps(cfg, s);
    case Leave(_) => CallStepKeeps(cfg, s, e);
    case Receive(_) => CallStepKeeps(cfg, s, e);
    case Wake(b) => WakeKeeps(cfg, s, b);
    case Claim(b) => ClaimKeeps(cfg, s, b);
    case Snapshot(b) => SnapshotKeeps(cfg, s, b);
    case Acquire(b) => AcquireKeeps(cfg, s, b);
    case GiveUp(b) => GiveUpKeeps(cfg, s, b);
    case Filter(b) => FilterKeeps(cfg, s, b);
    case Returned(b) => ReturnedKeeps(cfg, s, b);
    case Replied(b, tickets, sent) => RepliedKeeps(cfg, s, b, tickets, sent);
    case Respond(b, slot) => RespondKeeps(cfg, s, b, slot);
    case Finish(b) => FinishKeeps(cfg, s, b);
    case AfterFunc(b, slot) => AfterFuncKeeps(cfg, s, b, slot);
  }

  lemma FilterKeeps(cfg: Settings, s: State, b: nat)
    requires ValidSettings(cfg) && Inv(cfg, s) && b < |s.all|
    requires BatchStep(cfg, s, Filter(b), b).Some?
    ensures Inv(cfg, BatchStep(cfg, s, Filter(b), b).value)
  {
    var x := s.all[b];
    assert x.phase.Filtering?;
    BatchParts(cfg, b, x, s.calls);
    if x.phase.next < |x.entries| {
      if s.calls[x.entries[x.phase.next]].left {
        FilterDeadKeeps(cfg, s, b);
      } else {
        FilterLiveKeeps(cfg, s, b);
      }
    } else if x.phase.live == [] {
      FilterEmptyKeeps(cfg, s, b);
    } else {
      FilterDoneKeeps(cfg, s, b);
    }
  }

  lemma {:induction false} RunKeeps(cfg: Settings, es: seq<Event>)
    requires ValidSettings(cfg) && Exec(cfg, es).Some?
    ensures Inv(cfg, Exec(cfg, es).value)
  {
    if es == [] {
      assert Inv(cfg, Start());
    } else {
      hide Inv, Step;
      RunKeeps(cfg, es[..|es| - 1]);
      StepKeeps(cfg, Exec(cfg, es[..|es| - 1]).value, es[|es| - 1]);
    }
  }
}
