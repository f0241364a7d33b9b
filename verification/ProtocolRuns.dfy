/** What the batch protocol guarantees over whole runs: any number of callers,
    in any interleaving, with any upstream. */
module ProtocolRuns {
  import opened Rpc
  import opened Options
  import opened Collections
  import opened Delivery
  import opened Protocol
  import opened ProtocolProofs

  /** The state s can come about. */
  ghost predicate Reachable(cfg: Settings, s: State) {
    ValidSettings(cfg) && exists es: seq<Event> :: Exec(cfg, es) == Some(s)
  }

  lemma ReachableInv(cfg: Settings, s: State)
    requires Reachable(cfg, s)
    ensures Inv(cfg, s)
  {
    var es: seq<Event> :| Exec(cfg, es) == Some(s);
    hide Exec, Inv;
    RunKeeps(cfg, es);
  }

  /** Every accepted request lies in exactly one slot of exactly one batch. */
  lemma ExactlyOneBatch(cfg: Settings, s: State, c: nat)
    requires Reachable(cfg, s) && c < |s.calls|
    ensures exists b: nat, i: nat :: b < |s.all| && i < |s.all[b].entries| && s.all[b].entries[i] == c
    ensures forall b: nat, i: nat, b': nat, i': nat ::
              && b < |s.all| && i < |s.all[b].entries| && s.all[b].entries[i] == c
              && b' < |s.all| && i' < |s.all[b'].entries| && s.all[b'].entries[i'] == c
              ==> b == b' && i == i'
  {
    ReachableInv(cfg, s);
    assert CallInv(c, s.calls[c], s.all);
    forall b: nat, i: nat | b < |s.all| && i < |s.all[b].entries| && s.all[b].entries[i] == c
      ensures b == s.calls[c].batch && i == s.calls[c].slot
    {
      assert BatchInv(cfg, b, s.all[b], s.calls);
      BatchParts(cfg, b, s.all[b], s.calls);
    }
  }

  /** No channel ever gets a second message, and what it gets carries its
      caller's own id. */
  lemma AtMostOneSend(cfg: Settings, s: State, c: nat)
    requires Reachable(cfg, s) && c < |s.calls|
    ensures |s.calls[c].log| <= 1
    ensures forall m :: m in s.calls[c].log ==> m.id == s.calls[c].request.id
  {
    ReachableInv(cfg, s);
    assert CallInv(c, s.calls[c], s.all);
    var b := s.calls[c].batch;
    assert BatchInv(cfg, b, s.all[b], s.calls);
    assert SlotAnswered(s.all[b], s.calls[c].slot, s.calls[c]);
  }

  /** No send ever blocks: while the process is up, whenever a processor is about to answer a slot, in
      the delivery loops or in the live filter, the channel has room. */
  lemma {:induction false} SendsNeverBlock(cfg: Settings, s: State, b: nat, slot: nat)
    requires Reachable(cfg, s) && b < |s.all|
    ensures s.all[b].phase.Delivering? && slot in s.all[b].phase.todo && !Down(s) ==>
        Step(cfg, s, Respond(b, slot)).Some?
    ensures s.all[b].phase.Filtering? && !Down(s) ==> Step(cfg, s, Filter(b)).Some?
  {
    ReachableInv(cfg, s);
    var x := s.all[b];
    assert BatchInv(cfg, b, x, s.calls);
    BatchParts(cfg, b, x, s.calls);
    if x.phase.Delivering? && slot in x.phase.todo {
      RoomFor(cfg, s, b, slot);
    }
    if x.phase.Filtering? && x.phase.next < |x.entries| {
      RoomFor(cfg, s, b, x.phase.next);
    }
    hide BatchInv, CallInv, MapInv, PoolInv;
  }

  lemma RoomFor(cfg: Settings, s: State, b: nat, slot: nat)
    requires Inv(cfg, s) && b < |s.all| && slot < |s.all[b].entries| && Pending(s.all[b], slot)
    ensures s.all[b].entries[slot] < |s.calls| && s.calls[s.all[b].entries[slot]].buffer == None
  {
    assert BatchInv(cfg, b, s.all[b], s.calls);
    BatchParts(cfg, b, s.all[b], s.calls);
    var c := s.all[b].entries[slot];
    assert SlotAnswered(s.all[b], slot, s.calls[c]);
    assert CallInv(c, s.calls[c], s.all);
  }

  /** No processor is ever stuck: while the process is up, the next step of each is
      possible, except that one waiting for a worker slot goes on exactly when fewer
      than maxConcurrent batches of its backend hold one, and gives up exactly when the
      callbacks of all its callers have run. */
  lemma {:induction false} Progress(cfg: Settings, s: State, b: nat, tickets: nat -> nat, sent: Option<seq<Reply>>)
    requires Reachable(cfg, s) && b < |s.all| && !Down(s)
    ensures match s.all[b].phase
            case Waiting => Step(cfg, s, Wake(b)).Some?
            case Claiming => Step(cfg, s, Claim(b)).Some?
            case Snapshotting => Step(cfg, s, Snapshot(b)).Some?
            case Acquiring =>
              && (Step(cfg, s, Acquire(b)).Some? <==> |Holders(s.all, s.all[b].url)| < cfg.maxConcurrent)
              && (Step(cfg, s, GiveUp(b)).Some? <==>
                    forall i: nat :: i < |s.all[b].entries| ==> i in s.all[b].fired)
            case Filtering(_, _) => Step(cfg, s, Filter(b)).Some?
            case Sending(_) => Step(cfg, s, Returned(b)).Some?
            case Expanding(_) => Step(cfg, s, Replied(b, tickets, sent)).Some?
            case Delivering(todo) =>
              if todo == map[] then Step(cfg, s, Finish(b)).Some?
              else forall i :: i in todo ==> Step(cfg, s, Respond(b, i)).Some?
            case _ => true
  {
    ReachableInv(cfg, s);
    var x := s.all[b];
    assert BatchInv(cfg, b, x, s.calls);
    BatchParts(cfg, b, x, s.calls);
    hide Inv, BatchInv, ContextInv, Down, Messages, BySlot, FilterStep, RepliedStep, ClaimBatch, Release;
    match x.phase
    case Acquiring =>
      InFlightBounded(cfg, s, x.url);
      AllHaveFired(cfg, s, b);
    case Filtering(_, _) => SendsNeverBlock(cfg, s, b, 0);
    case Delivering(todo) =>
      forall i | i in todo
        ensures Step(cfg, s, Respond(b, i)).Some?
      {
        SendsNeverBlock(cfg, s, b, i);
      }
    case _ =>
  }

  /** The shared context has ended exactly when the callbacks of all callers have run. */
  lemma AllHaveFired(cfg: Settings, s: State, b: nat)
    requires Reachable(cfg, s) && b < |s.all|
    ensures s.all[b].cancelled <==> forall i: nat :: i < |s.all[b].entries| ==> i in s.all[b].fired
  {
    ReachableInv(cfg, s);
    var x := s.all[b];
    assert BatchInv(cfg, b, x, s.calls);
    BatchParts(cfg, b, x, s.calls);
    hide Inv, BatchInv;
    if x.cancelled {
      AllFired(x.fired, |x.entries|);
    }
    if forall i: nat :: i < |x.entries| ==> i in x.fired {
      assert x.fired == Below(|x.entries|);
    }
  }

  /** When processBatch returns, every caller in the batch has been answered,
      once, and the worker slot, if one was taken, is back. */
  lemma AllAnsweredOnReturn(cfg: Settings, s: State, b: nat)
    requires Reachable(cfg, s) && b < |s.all| && s.all[b].phase.Finished?
    ensures forall i :: 0 <= i < |s.all[b].entries| ==>
              s.all[b].entries[i] < |s.calls| && |s.calls[s.all[b].entries[i]].log| == 1
    ensures s.all[b].acquired == s.all[b].released <= 1
  {
    ReachableInv(cfg, s);
    var x := s.all[b];
    assert BatchInv(cfg, b, x, s.calls);
    forall i | 0 <= i < |x.entries|
      ensures x.entries[i] < |s.calls| && |s.calls[x.entries[i]].log| == 1
    {
      assert SlotAnswered(x, i, s.calls[x.entries[i]]);
    }
  }

  /** The process goes down exactly when the replies of an exchange make the
      expansion panic, which no other step does. */
  lemma {:induction false} DownExactly(cfg: Settings, s: State, e: Event, t: State)
    requires ValidSettings(cfg) && Step(cfg, s, e) == Some(t)
    ensures e.Replied? ==> e.b < |s.all| && s.all[e.b].phase.Expanding?
    ensures Down(t) <==> e.Replied? && !Replies(cfg, s, e.b, e.tickets, e.sent).Decoded?
  {
    hide Messages, BySlot;
    if e.Replied? {
      assert t.all[e.b].phase.Crashed? <==> !Replies(cfg, s, e.b, e.tickets, e.sent).Decoded?;
    } else {
      NoneCrashes(cfg, s, e, t);
    }
  }

  lemma {:induction false} NoneCrashes(cfg: Settings, s: State, e: Event, t: State)
    requires ValidSettings(cfg) && Step(cfg, s, e) == Some(t) && !e.Replied?
    ensures forall b :: 0 <= b < |t.all| ==> !t.all[b].phase.Crashed?
  {
    assert forall b :: 0 <= b < |s.all| ==> !s.all[b].phase.Crashed?;
    hide Down;
    if OfBatch(e) {
      BatchMoves(cfg, s, e, t);
    } else {
      OthersMove(cfg, s, e, t);
    }
    hide Step;
  }

  /** A step of one batch's processor or of the runtime on its behalf. */
  predicate OfBatch(e: Event) {
    !e.Add? && !e.FlushAll? && !e.Leave? && !e.Receive?
  }

  /** The live filter touches its own batch and the channel it sends on. */
  lemma FilterMoves(s: State, b: nat)
    requires b < |s.all| && s.all[b].phase.Filtering? && FilterStep(s, b).Some?
    ensures var t := FilterStep(s, b).value;
            && |t.all| == |s.all| && t.all == s.all[b := t.all[b]] && t.batches == s.batches
            && SameBatch(s.all[b], t.all[b]) && !t.all[b].phase.Crashed?
            && CallsGoOn(s.calls, t.calls) && |t.calls| == |s.calls|
  {
  }

  /** Logs only grow, and calls keep their places. */
  predicate CallsGoOn(was: seq<Call>, now: seq<Call>) {
    |was| <= |now| && forall c :: 0 <= c < |was| ==>
      && was[c].log <= now[c].log && now[c].request == was[c].request
      && now[c].batch == was[c].batch && now[c].slot == was[c].slot
  }

  /** A batch's own step changes no other batch, and no step but the expansion of its
      replies brings the process down. */
  lemma BatchMoves(cfg: Settings, s: State, e: Event, t: State)
    requires ValidSettings(cfg) && Step(cfg, s, e) == Some(t) && OfBatch(e)
    ensures e.b < |s.all| && |t.all| == |s.all| && t.all == s.all[e.b := t.all[e.b]]
    ensures SameBatch(s.all[e.b], t.all[e.b]) && (t.all[e.b].phase.Crashed? ==> e.Replied?)
    ensures CallsGoOn(s.calls, t.calls) && |t.calls| == |s.calls| && (e.Claim? || t.batches == s.batches)
  {
    hide Down, BySlot, FilterStep, RepliedStep, Release;
    if e.Filter? {
      FilterMoves(s, e.b);
    } else if e.Replied? {
      RepliedMoves(cfg, s, e.b, e.tickets, e.sent);
    } else {
      ProgressMoves(cfg, s, e, t);
    }
  }

  lemma RepliedMoves(cfg: Settings, s: State, b: nat, tickets: nat -> nat, sent: Option<seq<Reply>>)
    requires ValidSettings(cfg) && b < |s.all| && s.all[b].phase.Expanding?
    ensures var t := RepliedStep(cfg, s, b, tickets, sent);
            && |t.all| == |s.all| && t.all == s.all[b := t.all[b]] && t.batches == s.batches && t.calls == s.calls
            && SameBatch(s.all[b], t.all[b])
  {
    hide Messages, BySlot;
  }

  lemma ProgressMoves(cfg: Settings, s: State, e: Event, t: State)
    requires ValidSettings(cfg) && OfBatch(e) && !e.Filter? && !e.Replied?
    requires e.b < |s.all| && BatchStep(cfg, s, e, e.b) == Some(t)
    ensures |t.all| == |s.all| && t.all == s.all[e.b := t.all[e.b]]
    ensures SameBatch(s.all[e.b], t.all[e.b]) && (t.all[e.b].phase.Crashed? ==> s.all[e.b].phase.Crashed?)
    ensures CallsGoOn(s.calls, t.calls) && |t.calls| == |s.calls| && (e.Claim? || t.batches == s.batches)
  {
    hide BySlot;
  }

  lemma OthersMove(cfg: Settings, s: State, e: Event, t: State)
    requires ValidSettings(cfg) && Step(cfg, s, e) == Some(t) && !OfBatch(e)
    ensures |s.all| <= |t.all| && CallsGoOn(s.calls, t.calls)
    ensures forall b :: 0 <= b < |t.all| ==> (t.all[b].phase.Crashed? ==> b < |s.all| && s.all[b].phase.Crashed?)
    ensures e.Leave? || e.Receive? ==> t.batches == s.batches && t.all == s.all
  {
    hide Down, AddRequest, Flush, BatchStep;
    if e.Add? {
      AddMoves(cfg, s, e.url, e.request);
    } else if e.FlushAll? {
      FlushMoves(s);
    }
  }

  lemma AddMoves(cfg: Settings, s: State, url: Url, request: Request)
    requires forall u :: u in s.batches ==> s.batches[u] < |s.all|
    ensures var t := AddRequest(cfg, s, url, request);
            && |s.all| <= |t.all| && CallsGoOn(s.calls, t.calls)
            && forall b :: 0 <= b < |t.all| ==> (t.all[b].phase.Crashed? ==> b < |s.all| && s.all[b].phase.Crashed?)
  {
    hide RangeScan;
  }

  lemma FlushMoves(s: State)
    ensures var t := Flush(s);
            && |s.all| == |t.all| && s.calls == t.calls
            && forall b :: 0 <= b < |t.all| ==> t.all[b].phase == s.all[b].phase
  {
  }

  /** And then nothing happens any more: the callers of the batch whose reply it was
      have not been answered, and no caller of any batch will be. */
  lemma {:induction false} CrashStrandsEveryone(cfg: Settings, es: seq<Event>, more: seq<Event>)
    requires ValidSettings(cfg) && Exec(cfg, es).Some? && Down(Exec(cfg, es).value) && more != []
    ensures Exec(cfg, es + more).None?
    ensures var s := Exec(cfg, es).value;
            forall b, i :: 0 <= b < |s.all| && s.all[b].phase.Crashed? && i in s.all[b].phase.wire ==>
              && i < |s.all[b].entries| && s.all[b].entries[i] < |s.calls|
              && s.calls[s.all[b].entries[i]].log == []
  {
    var s := Exec(cfg, es).value;
    DownIsFinal(cfg, es, more);
    RunKeeps(cfg, es);
    hide Exec, Inv;
    forall b, i | 0 <= b < |s.all| && s.all[b].phase.Crashed? && i in s.all[b].phase.wire
      ensures && i < |s.all[b].entries| && s.all[b].entries[i] < |s.calls|
              && s.calls[s.all[b].entries[i]].log == []
    {
      Stranded(cfg, s, b, i);
    }
  }

  lemma DownIsFinal(cfg: Settings, es: seq<Event>, more: seq<Event>)
    requires ValidSettings(cfg) && Exec(cfg, es).Some? && Down(Exec(cfg, es).value) && more != []
    ensures Exec(cfg, es + more).None?
  {
    hide Move, Exec;
    var next := es + [more[0]];
    assert es + more == next + more[1..];
    ExecNext(cfg, es, more[0]);
    if Exec(cfg, es + more).Some? {
      PrefixRan(cfg, next, more[1..]);
    }
  }

  lemma ExecNext(cfg: Settings, es: seq<Event>, e: Event)
    requires ValidSettings(cfg) && Exec(cfg, es).Some?
    ensures Exec(cfg, es + [e]) == Step(cfg, Exec(cfg, es).value, e)
  {
    hide Step;
    assert (es + [e])[..|es + [e]| - 1] == es;
  }

  lemma Stranded(cfg: Settings, s: State, b: nat, i: nat)
    requires Inv(cfg, s) && b < |s.all| && s.all[b].phase.Crashed? && i in s.all[b].phase.wire
    ensures i < |s.all[b].entries| && s.all[b].entries[i] < |s.calls| && s.calls[s.all[b].entries[i]].log == []
  {
    assert BatchInv(cfg, b, s.all[b], s.calls);
    BatchParts(cfg, b, s.all[b], s.calls);
    assert SlotAnswered(s.all[b], i, s.calls[s.all[b].entries[i]]);
  }

  /** Batches in flight to one backend never exceed its worker channel. */
  lemma InFlightBounded(cfg: Settings, s: State, url: Url)
    requires Reachable(cfg, s)
    ensures |Holders(s.all, url)| == Tokens(s, url) <= cfg.maxConcurrent
  {
    ReachableInv(cfg, s);
  }

  /** The upstream context of a batch ends only after all its callers left. */
  lemma ContextEndsLast(cfg: Settings, s: State, b: nat, i: nat)
    requires Reachable(cfg, s) && b < |s.all| && s.all[b].cancelled && i < |s.all[b].entries|
    ensures s.all[b].entries[i] < |s.calls| && s.calls[s.all[b].entries[i]].left
  {
    ReachableInv(cfg, s);
    var x := s.all[b];
    assert BatchInv(cfg, b, x, s.calls);
    BatchParts(cfg, b, x, s.calls);
    AllFired(x.fired, |x.entries|);
    assert i in x.fired;
  }

  /** Only callers that left are told so, and their requests never went upstream. */
  lemma {:induction false} AbandonedWereGone(cfg: Settings, s: State, c: nat)
    requires Reachable(cfg, s) && c < |s.calls|
    requires exists m :: m in s.calls[c].log && m.body == Internal(CallerLeft)
    ensures s.calls[c].left
    ensures s.calls[c].batch < |s.all| && s.calls[c].slot !in s.all[s.calls[c].batch].upstream
  {
    ReachableInv(cfg, s);
    assert CallInv(c, s.calls[c], s.all);
    var b := s.calls[c].batch;
    assert BatchInv(cfg, b, s.all[b], s.calls);
    assert SlotAnswered(s.all[b], s.calls[c].slot, s.calls[c]);
  }

  /** A channel's log only ever grows, and its call keeps its place. */
  lemma LogGrows(cfg: Settings, s: State, e: Event, t: State, c: nat)
    requires ValidSettings(cfg) && Step(cfg, s, e) == Some(t) && c < |s.calls|
    ensures c < |t.calls| && s.calls[c].log <= t.calls[c].log
    ensures t.calls[c].batch == s.calls[c].batch && t.calls[c].slot == s.calls[c].slot
  {
    if OfBatch(e) {
      BatchMoves(cfg, s, e, t);
    } else {
      OthersMove(cfg, s, e, t);
    }
    hide Step;
  }

  lemma {:induction false} LogGrowsOn(cfg: Settings, es: seq<Event>, more: seq<Event>, c: nat)
    requires ValidSettings(cfg) && Exec(cfg, es).Some? && Exec(cfg, es + more).Some?
    requires c < |Exec(cfg, es).value.calls|
    ensures var s, t := Exec(cfg, es).value, Exec(cfg, es + more).value;
            && c < |t.calls| && s.calls[c].log <= t.calls[c].log
            && t.calls[c].batch == s.calls[c].batch && t.calls[c].slot == s.calls[c].slot
    decreases |more|
  {
    hide Step;
    if more == [] {
      assert es + more == es;
    } else {
      var init := more[..|more| - 1];
      assert (es + more)[..|es + more| - 1] == es + init;
      LogGrowsOn(cfg, es, init, c);
      LogGrows(cfg, Exec(cfg, es + init).value, more[|more| - 1], Exec(cfg, es + more).value, c);
    }
  }

  /** The live filter at a slot whose caller has left: it answers the caller there and then. */
  lemma {:induction false} DeadIsAnswered(cfg: Settings, s: State, b: nat, t: State)
    requires Reachable(cfg, s) && b < |s.all| && s.all[b].phase.Filtering?
    requires s.all[b].phase.next < |s.all[b].entries|
    requires s.all[b].entries[s.all[b].phase.next] < |s.calls| && s.calls[s.all[b].entries[s.all[b].phase.next]].left
    requires Step(cfg, s, Filter(b)) == Some(t)
    ensures var c := s.all[b].entries[s.all[b].phase.next];
            && t.calls[c].log == [Abandoned(s.calls[c].request)] && !Pending(t.all[b], s.all[b].phase.next)
            && c < |t.calls| && t.calls[c].batch == b && t.calls[c].slot == s.all[b].phase.next
  {
    ReachableInv(cfg, s);
    var x := s.all[b];
    var k := x.phase.next;
    assert BatchInv(cfg, b, x, s.calls);
    BatchParts(cfg, b, x, s.calls);
    assert SlotAnswered(x, k, s.calls[x.entries[k]]);
    hide Inv, BatchInv;
  }

  /** An entry whose caller has left when the live filter reaches it is never sent:
      however the run goes on, its slot is not among those that go upstream. */
  lemma {:induction false} DeadNeverSent(cfg: Settings, es: seq<Event>, b: nat, more: seq<Event>)
    requires ValidSettings(cfg) && Exec(cfg, es).Some?
    requires var s := Exec(cfg, es).value;
             && b < |s.all| && s.all[b].phase.Filtering? && s.all[b].phase.next < |s.all[b].entries|
             && s.all[b].entries[s.all[b].phase.next] < |s.calls|
             && s.calls[s.all[b].entries[s.all[b].phase.next]].left
    requires Exec(cfg, es + [Filter(b)] + more).Some?
    ensures var s, t := Exec(cfg, es).value, Exec(cfg, es + [Filter(b)] + more).value;
            b < |t.all| && s.all[b].phase.next !in t.all[b].upstream
  {
    var s := Exec(cfg, es).value;
    var c, k := s.all[b].entries[s.all[b].phase.next], s.all[b].phase.next;
    var filtered := es + [Filter(b)];
    PrefixRan(cfg, filtered, more);
    assert filtered[..|filtered| - 1] == es;
    var u, t := Exec(cfg, filtered).value, Exec(cfg, filtered + more).value;
    hide Exec, Inv, Step;
    assert Reachable(cfg, s) && Reachable(cfg, t);
    DeadIsAnswered(cfg, s, b, u);
    LogGrowsOn(cfg, filtered, more, c);
    assert u.calls[c].log[0] == Abandoned(s.calls[c].request) && u.calls[c].log[0] in t.calls[c].log;
    AbandonedWereGone(cfg, t, c);
  }

  lemma {:induction false} PrefixRan(cfg: Settings, es: seq<Event>, more: seq<Event>)
    requires ValidSettings(cfg) && Exec(cfg, es + more).Some?
    ensures Exec(cfg, es).Some?
    decreases |more|
  {
    hide Step;
    if more == [] {
      assert es + more == es;
    } else {
      assert (es + more)[..|es + more| - 1] == es + more[..|more| - 1];
      PrefixRan(cfg, es, more[..|more| - 1]);
    }
  }

  /** Between critical sections the map holds only non-empty, undispatched
      batches below the size limit; no batch exceeds it, and no dispatch
      channel is closed twice. */
  lemma BatchLifecycle(cfg: Settings, s: State)
    requires Reachable(cfg, s)
    ensures forall u :: u in s.batches ==>
              && s.batches[u] < |s.all|
              && s.all[s.batches[u]].url == u
              && 1 <= |s.all[s.batches[u]].entries| < cfg.maxBatchSize
              && s.all[s.batches[u]].closes == 0
    ensures forall b :: 0 <= b < |s.all| ==> 1 <= |s.all[b].entries| <= cfg.maxBatchSize && s.all[b].closes <= 1
    ensures forall b :: 0 <= b < |s.all| && Unclaimed(s.all[b]) ==> b in s.batches.Values
  {
    ReachableInv(cfg, s);
    forall b | 0 <= b < |s.all|
      ensures 1 <= |s.all[b].entries| <= cfg.maxBatchSize && s.all[b].closes <= 1
    {
      assert BatchInv(cfg, b, s.all[b], s.calls);
    }
    hide BatchInv, PoolInv, CallInv;
    forall b | 0 <= b < |s.all| && Unclaimed(s.all[b])
      ensures b in s.batches.Values
    {
      assert s.batches[s.all[b].url] == b;
    }
  }

  /** A batch out of the map never grows again, nor comes back, whatever happens. */
  lemma {:induction false} OutOfMapIsFinal(cfg: Settings, s: State, e: Event, t: State, b: nat)
    requires Reachable(cfg, s) && Step(cfg, s, e) == Some(t)
    requires b < |s.all| && b !in s.batches.Values
    ensures b < |t.all| && t.all[b].entries == s.all[b].entries && b !in t.batches.Values
  {
    hide Inv;
    if e.Add? {
      AddSpares(cfg, s, e.url, e.request, b);
    } else if e.Claim? {
      ClaimEffect(cfg, s, e.b, t.batches);
    } else if !e.FlushAll? {
      MapUntouched(cfg, s, e, t);
    }
  }

  lemma AddSpares(cfg: Settings, s: State, url: Url, request: Request, b: nat)
    requires forall u :: u in s.batches ==> s.batches[u] < |s.all|
    requires b < |s.all| && b !in s.batches.Values
    ensures var t := AddRequest(cfg, s, url, request);
            b < |t.all| && t.all[b].entries == s.all[b].entries && b !in t.batches.Values
  {
  }

  lemma MapUntouched(cfg: Settings, s: State, e: Event, t: State)
    requires ValidSettings(cfg) && Step(cfg, s, e) == Some(t)
    requires !e.Add? && !e.FlushAll? && !e.Claim?
    ensures t.batches == s.batches && |t.all| == |s.all|
    ensures forall b :: 0 <= b < |s.all| ==> t.all[b].entries == s.all[b].entries
  {
    if OfBatch(e) {
      BatchMoves(cfg, s, e, t);
    } else {
      OthersMove(cfg, s, e, t);
    }
    hide Step;
  }

  /** How a batch can leave the map: by its own processor's claim, by the request
      that fills it, or by FlushAll, and by nothing else. So an old batch's processor
      never takes out the newer batch of the same backend. */
  lemma {:induction false} ClaimSparesNewer(cfg: Settings, s: State, e: Event, t: State, url: Url)
    requires Reachable(cfg, s) && Step(cfg, s, e) == Some(t) && url in s.batches
    ensures s.batches[url] < |s.all|
    ensures url in t.batches ==> t.batches[url] == s.batches[url]
    ensures url !in t.batches <==>
              || e.FlushAll?
              || e == Claim(s.batches[url])
              || (e.Add? && e.url == url && !RangeScan(e.request.rpcMethod)
                  && |s.all[s.batches[url]].entries| + 1 >= cfg.maxBatchSize)
  {
    ReachableInv(cfg, s);
    MapOwn(cfg, s, url);
    hide Inv, AddRequest, RangeScan, BySlot;
    if e.Claim? {
      var u := s.all[e.b].url;
      ClaimEffect(cfg, s, e.b, if u in s.batches && s.batches[u] == e.b then s.batches - {u} else s.batches);
    } else if e.Add? {
      AddKeepsPlaces(cfg, s, e.url, e.request, url);
    } else if !e.FlushAll? {
      MapUntouched(cfg, s, e, t);
    }
  }

  /** A request takes a batch out of the map exactly by filling it. */
  lemma AddKeepsPlaces(cfg: Settings, s: State, to: Url, request: Request, url: Url)
    requires forall u :: u in s.batches ==> s.batches[u] < |s.all|
    requires url in s.batches
    ensures var t := AddRequest(cfg, s, to, request);
            && (url in t.batches ==> t.batches[url] == s.batches[url])
            && (url !in t.batches <==> to == url && !RangeScan(request.rpcMethod)
                                       && |s.all[s.batches[url]].entries| + 1 >= cfg.maxBatchSize)
  {
    hide RangeScan;
  }

  /** A batch in the map is there under its own backend. */
  lemma MapOwn(cfg: Settings, s: State, url: Url)
    requires Inv(cfg, s) && url in s.batches
    ensures s.batches[url] < |s.all| && s.all[s.batches[url]].url == url
    ensures forall u :: u in s.batches ==> s.batches[u] < |s.all|
  {
    hide BatchInv, PoolInv, CallInv;
  }

  /* ---------- Range scans ---------- */

  const SCANS: set<string> :=
    {"eth_getLogs", "trace_filter", "trace_block", "trace_replayBlockTransactions", "trace_replayTransaction",
     "trace_transaction", "debug_traceBlockByNumber", "debug_traceBlockByHash", "debug_traceTransaction"}

  /** A range scan is the only entry of its batch, which was dispatched at once. */
  ghost predicate ScansAlone(s: State) {
    forall c :: 0 <= c < |s.calls| && s.calls[c].request.rpcMethod in SCANS ==>
      && s.calls[c].batch < |s.all| && s.all[s.calls[c].batch].entries == [c] && s.all[s.calls[c].batch].closes > 0
  }

  lemma ScanExactly(rpcMethod: string)
    ensures RangeScan(rpcMethod) <==> rpcMethod in SCANS
  {
  }

  /** Where a request goes: a range scan into a batch of its own, dispatched at once,
      and any other into its backend's batch in the map, or a new one, which stays there
      for more unless it is full. */
  lemma AddExactly(cfg: Settings, s: State, url: Url, request: Request)
    requires ValidSettings(cfg) && Inv(cfg, s)
    ensures var c, t := |s.calls|, AddRequest(cfg, s, url, request);
            && |t.calls| == c + 1 && t.calls[c].request == request && t.calls[c].log == []
            && (if request.rpcMethod in SCANS then
                  t.calls[c].batch == |s.all| && t.all == s.all + [Batch(url, [c], 1, Waiting, {}, false, 0, 0, [])]
                  && t.batches == s.batches
                else
                  var b := if url in s.batches then s.batches[url] else |s.all|;
                  && t.calls[c].batch == b && b < |t.all| && t.all[b].url == url
                  && t.all[b].entries == (if url in s.batches then s.all[b].entries else []) + [c]
                  && (url in t.batches <==> |t.all[b].entries| < cfg.maxBatchSize)
                  && (url in t.batches ==> t.batches[url] == b && t.all[b].closes == 0)
                  && (url !in t.batches ==> t.all[b].closes == 1))
  {
    ScanExactly(request.rpcMethod);
    hide RangeScan, BatchInv, CallInv, PoolInv;
    assert url in s.batches ==> Growing(cfg, url, s.all[s.batches[url]]);
  }

  lemma AddKeepsScans(cfg: Settings, s: State, url: Url, request: Request)
    requires ValidSettings(cfg) && Inv(cfg, s) && ScansAlone(s)
    ensures ScansAlone(AddRequest(cfg, s, url, request))
  {
    ScanExactly(request.rpcMethod);
    hide RangeScan, BatchInv, CallInv, PoolInv;
    assert url in s.batches ==> s.all[s.batches[url]].closes == 0;
  }

  lemma ScansFrame(s: State, t: State)
    requires ScansAlone(s) && CallsGoOn(s.calls, t.calls) && |t.calls| == |s.calls| && |t.all| == |s.all|
    requires forall b :: 0 <= b < |s.all| ==> t.all[b].entries == s.all[b].entries && t.all[b].closes >= s.all[b].closes
    ensures ScansAlone(t)
  {
  }

  lemma StepKeepsScans(cfg: Settings, s: State, e: Event, t: State)
    requires ValidSettings(cfg) && Inv(cfg, s) && ScansAlone(s) && Step(cfg, s, e) == Some(t)
    ensures ScansAlone(t)
  {
    hide Inv, ScansAlone;
    if e.Add? {
      AddKeepsScans(cfg, s, e.url, e.request);
    } else if OfBatch(e) {
      BatchMoves(cfg, s, e, t);
      hide Step;
      ScansFrame(s, t);
    } else {
      CallerScans(cfg, s, e, t);
      hide Step;
      ScansFrame(s, t);
    }
  }

  lemma CallerScans(cfg: Settings, s: State, e: Event, t: State)
    requires ValidSettings(cfg) && Step(cfg, s, e) == Some(t) && !OfBatch(e) && !e.Add?
    ensures CallsGoOn(s.calls, t.calls) && |t.calls| == |s.calls| && |t.all| == |s.all|
    ensures forall b :: 0 <= b < |s.all| ==> t.all[b].entries == s.all[b].entries && t.all[b].closes >= s.all[b].closes
  {
    hide Down, AddRequest, BatchStep;
  }

  /** In every run, a range scan never shares a batch with another request. */
  lemma {:induction false} RangeScansGoAlone(cfg: Settings, es: seq<Event>)
    requires ValidSettings(cfg) && Exec(cfg, es).Some?
    ensures ScansAlone(Exec(cfg, es).value)
  {
    if es != [] {
      hide Step, ScansAlone, Inv;
      RangeScansGoAlone(cfg, es[..|es| - 1]);
      RunKeeps(cfg, es[..|es| - 1]);
      StepKeepsScans(cfg, Exec(cfg, es[..|es| - 1]).value, es[|es| - 1], Exec(cfg, es).value);
    }
  }

  /* ---------- What callers do ---------- */

  /** Only its own caller's steps make a call left, or empty its channel. */
  predicate CallsKept(s: State, e: Event, t: State) {
    |s.calls| <= |t.calls| && forall c :: 0 <= c < |s.calls| ==>
      && (t.calls[c].left <==> s.calls[c].left || e == Leave(c))
      && (t.calls[c].buffer == if e == Receive(c) then None
                               else if |t.calls[c].log| > |s.calls[c].log| then Some(t.calls[c].log[|s.calls[c].log|])
                               else s.calls[c].buffer)
      && |t.calls[c].log| <= |s.calls[c].log| + 1
  }

  lemma FilterKept(s: State, e: Event, b: nat)
    requires b < |s.all| && s.all[b].phase.Filtering? && FilterStep(s, b).Some? && OfBatch(e)
    ensures CallsKept(s, e, FilterStep(s, b).value) && |FilterStep(s, b).value.calls| == |s.calls|
  {
  }

  lemma RespondKept(cfg: Settings, s: State, b: nat, slot: nat, t: State)
    requires ValidSettings(cfg) && b < |s.all| && BatchStep(cfg, s, Respond(b, slot), b) == Some(t)
    ensures CallsKept(s, Respond(b, slot), t) && |t.calls| == |s.calls|
  {
  }

  lemma QuietKept(cfg: Settings, s: State, e: Event, t: State)
    requires ValidSettings(cfg) && OfBatch(e) && !e.Filter? && !e.Respond?
    requires e.b < |s.all| && BatchStep(cfg, s, e, e.b) == Some(t)
    ensures t.calls == s.calls
  {
    hide BySlot, Messages, FilterStep;
  }

  lemma CallerKept(cfg: Settings, s: State, e: Event, t: State)
    requires ValidSettings(cfg) && Move(cfg, s, e) == Some(t) && !OfBatch(e)
    ensures CallsKept(s, e, t)
    ensures forall c :: |s.calls| <= c < |t.calls| ==>
              !t.calls[c].left && t.calls[c].buffer == None && t.calls[c].log == []
    ensures e.Leave? || e.Receive? ==> e.c < |s.calls|
  {
    hide RangeScan, BatchStep;
  }

  lemma StepKept(cfg: Settings, s: State, e: Event, t: State)
    requires ValidSettings(cfg) && Step(cfg, s, e) == Some(t)
    ensures CallsKept(s, e, t)
    ensures forall c :: |s.calls| <= c < |t.calls| ==>
              !t.calls[c].left && t.calls[c].buffer == None && t.calls[c].log == []
    ensures e.Leave? || e.Receive? ==> e.c < |s.calls|
  {
    hide Down;
    if !OfBatch(e) {
      CallerKept(cfg, s, e, t);
    } else {
      hide BatchStep, FilterStep;
      assert e.b < |s.all| && BatchStep(cfg, s, e, e.b) == Some(t);
      if e.Filter? {
        FilterCase(cfg, s, e.b, t);
        FilterKept(s, e, e.b);
      } else if e.Respond? {
        RespondKept(cfg, s, e.b, e.slot, t);
      } else {
        QuietKept(cfg, s, e, t);
      }
    }
    hide Move;
  }

  lemma FilterCase(cfg: Settings, s: State, b: nat, t: State)
    requires ValidSettings(cfg) && b < |s.all| && BatchStep(cfg, s, Filter(b), b) == Some(t)
    ensures s.all[b].phase.Filtering? && FilterStep(s, b) == Some(t)
  {
    hide FilterStep;
  }

  lemma {:induction false} NotYetCalled(cfg: Settings, es: seq<Event>, c: nat)
    requires ValidSettings(cfg) && Exec(cfg, es).Some? && c >= |Exec(cfg, es).value.calls|
    ensures Leave(c) !in es && Receive(c) !in es
  {
    hide Step;
    if es != [] {
      var before, e := es[..|es| - 1], es[|es| - 1];
      assert es == before + [e];
      StepKept(cfg, Exec(cfg, before).value, e, Exec(cfg, es).value);
      NotYetCalled(cfg, before, c);
    }
  }

  lemma KeptAt(s: State, e: Event, t: State, c: nat)
    requires CallsKept(s, e, t) && c < |s.calls|
    ensures c < |t.calls| && (t.calls[c].left <==> s.calls[c].left || e == Leave(c))
    ensures |t.calls[c].log| <= 1 && s.calls[c].log <= t.calls[c].log ==>
              (t.calls[c].buffer.Some? <==>
                 e != Receive(c) && (s.calls[c].buffer.Some? || |t.calls[c].log| > |s.calls[c].log|))
  {
  }

  lemma ReceivedHad(cfg: Settings, s: State, e: Event, c: nat)
    requires ValidSettings(cfg) && Inv(cfg, s) && Step(cfg, s, e).Some? && e == Receive(c)
    ensures c < |s.calls| && s.calls[c].log != []
  {
    assert CallInv(c, s.calls[c], s.all);
  }

  /** In every run, a call is left exactly when its caller has left it, and its channel
      holds its message exactly from when that is sent until its caller receives it. */
  lemma {:induction false} CallersDoIt(cfg: Settings, es: seq<Event>, c: nat)
    requires ValidSettings(cfg) && Exec(cfg, es).Some? && c < |Exec(cfg, es).value.calls|
    ensures var call := Exec(cfg, es).value.calls[c];
            && (call.left <==> Leave(c) in es)
            && (call.buffer.Some? <==> call.log != [] && Receive(c) !in es)
            && (Receive(c) in es ==> call.log != [])
  {
    hide Step, CallsKept, Inv;
    var before, e := es[..|es| - 1], es[|es| - 1];
    assert es == before + [e];
    var s, t := Exec(cfg, before).value, Exec(cfg, es).value;
    StepKept(cfg, s, e, t);
    if c < |s.calls| {
      CallersDoIt(cfg, before, c);
      RunKeeps(cfg, before);
      if e == Receive(c) {
        ReceivedHad(cfg, s, e, c);
      }
      LogGrows(cfg, s, e, t, c);
      AtMostOneSend(cfg, t, c);
      KeptAt(s, e, t, c);
    } else {
      NotYetCalled(cfg, before, c);
    }
  }
}
