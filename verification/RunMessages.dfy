/** What is true of every message a run decides on is true of every message it
    sends: the induction behind the theorems about whose answer a caller gets. */
module RunMessages {
  import opened Rpc
  import opened Options
  import opened Delivery
  import opened Protocol
  import opened ProtocolProofs

  /** A property of a message for a slot of a batch that holds a request. */
  type Judge = (nat, nat, Request, Message) -> bool

  predicate SameCall(x: Call, y: Call) {
    x.log == y.log && x.request == y.request && x.batch == y.batch && x.slot == y.slot
  }

  ghost predicate JudgedLogs(judge: Judge, calls: seq<Call>) {
    forall c :: 0 <= c < |calls| ==>
      forall m :: m in calls[c].log ==> judge(calls[c].batch, calls[c].slot, calls[c].request, m)
  }

  ghost predicate JudgedTodo(judge: Judge, s: State, b: nat)
    requires b < |s.all|
  {
    s.all[b].phase.Delivering? ==>
      forall i :: i in s.all[b].phase.todo ==> judge(b, i, RequestAt(s, b, i), s.all[b].phase.todo[i])
  }

  ghost predicate Judged(judge: Judge, s: State) {
    && JudgedLogs(judge, s.calls)
    && forall b :: 0 <= b < |s.all| ==> JudgedTodo(judge, s, b)
  }

  /** abandon's answers have the property. */
  ghost predicate SparesAbandoned(judge: Judge) {
    forall b, i, r :: judge(b, i, r, Abandoned(r))
  }

  /** The messages an upstream exchange leads to have the property. */
  ghost predicate JudgedEvent(judge: Judge, cfg: Settings, s: State, e: Event)
    requires ValidSettings(cfg)
  {
    e.Replied? && e.b < |s.all| && s.all[e.b].phase.Expanding? ==>
      var wire := s.all[e.b].phase.wire;
      var o := Messages(Multicall(cfg, e.tickets), RequestsAt(s, e.b, wire), e.sent);
      o.Decoded? ==> forall k :: 0 <= k < |wire| ==> judge(e.b, wire[k], RequestAt(s, e.b, wire[k]), o.value[k])
  }

  ghost predicate JudgedRun(judge: Judge, cfg: Settings, es: seq<Event>)
    requires ValidSettings(cfg)
  {
    es == [] ||
    (JudgedRun(judge, cfg, es[..|es| - 1])
     && Exec(cfg, es[..|es| - 1]).Some?
     && JudgedEvent(judge, cfg, Exec(cfg, es[..|es| - 1]).value, es[|es| - 1]))
  }

  /** The steps that neither send a message nor decide on one. */
  lemma QuietStep(cfg: Settings, s: State, e: Event, t: State)
    requires ValidSettings(cfg) && Step(cfg, s, e) == Some(t)
    requires !e.Add? && !e.Filter? && !e.Respond? && !e.Replied? && !e.GiveUp?
    ensures |t.all| == |s.all| && |t.calls| == |s.calls|
    ensures forall c :: 0 <= c < |s.calls| ==> SameCall(s.calls[c], t.calls[c])
    ensures forall b :: 0 <= b < |s.all| ==>
              && t.all[b].entries == s.all[b].entries
              && (t.all[b].phase.Delivering? ==> t.all[b].phase == s.all[b].phase)
  {
  }

  lemma QuietJudged(judge: Judge, cfg: Settings, s: State, e: Event, t: State)
    requires ValidSettings(cfg) && Step(cfg, s, e) == Some(t) && Judged(judge, s)
    requires !e.Add? && !e.Filter? && !e.Respond? && !e.Replied? && !e.GiveUp?
    ensures Judged(judge, t)
  {
    QuietStep(cfg, s, e, t);
    hide Step, BatchStep;
    forall b | 0 <= b < |t.all|
      ensures JudgedTodo(judge, t, b)
    {
      assert JudgedTodo(judge, s, b);
    }
  }

  lemma AddJudged(judge: Judge, cfg: Settings, s: State, url: Url, request: Request)
    requires ValidSettings(cfg) && Inv(cfg, s) && Judged(judge, s)
    ensures Judged(judge, AddRequest(cfg, s, url, request))
  {
    var t := AddRequest(cfg, s, url, request);
    forall b | 0 <= b < |t.all|
      ensures (b < |s.all| && t.all[b] == s.all[b]) || !t.all[b].phase.Delivering?
    {
      AddLeavesDelivering(cfg, s, url, request, b);
    }
    hide Inv;
    assert t.calls[..|s.calls|] == s.calls && t.calls[|s.calls|].log == [];
    forall b | 0 <= b < |t.all|
      ensures JudgedTodo(judge, t, b)
    {
      if b < |s.all| && t.all[b].phase.Delivering? {
        assert t.all[b] == s.all[b];
        assert JudgedTodo(judge, s, b);
      }
    }
  }

  lemma AddLeavesDelivering(cfg: Settings, s: State, url: Url, request: Request, b: nat)
    requires ValidSettings(cfg) && Inv(cfg, s) && b < |AddRequest(cfg, s, url, request).all|
    ensures var t := AddRequest(cfg, s, url, request);
            (b < |s.all| && t.all[b] == s.all[b]) || !t.all[b].phase.Delivering?
  {
    hide BatchInv, PoolInv, CallInv;
  }

  /** A message for slot i of batch b is sent. */
  lemma SentJudged(judge: Judge, s: State, b: nat, i: nat, m: Message, y: Batch, t: State)
    requires Judged(judge, s) && b < |s.all| && i < |s.all[b].entries| && s.all[b].entries[i] < |s.calls|
    requires s.calls[s.all[b].entries[i]].batch == b && s.calls[s.all[b].entries[i]].slot == i
    requires judge(b, i, RequestAt(s, b, i), m)
    requires y.entries == s.all[b].entries
    requires y.phase.Delivering? ==> s.all[b].phase.Delivering? && forall j :: j in y.phase.todo ==>
               j in s.all[b].phase.todo && y.phase.todo[j] == s.all[b].phase.todo[j]
    requires Push(s, s.all[b].entries[i], m).Some?
    requires t == Protocol.Put(Push(s, s.all[b].entries[i], m).value, b, y)
    ensures Judged(judge, t)
  {
    forall d | 0 <= d < |t.all|
      ensures JudgedTodo(judge, t, d)
    {
      assert JudgedTodo(judge, s, d);
      assert t.all[d].entries == s.all[d].entries;
      assert forall j: nat :: RequestAt(t, d, j) == RequestAt(s, d, j);
    }
  }

  /** Batch b settles on the messages it will send. */
  lemma DecidedJudged(judge: Judge, s: State, b: nat, slots: seq<nat>, ms: seq<Message>, y: Batch, t: State)
    requires Judged(judge, s) && b < |s.all| && |slots| == |ms|
    requires forall k :: 0 <= k < |slots| ==> judge(b, slots[k], RequestAt(s, b, slots[k]), ms[k])
    requires y.entries == s.all[b].entries && y.phase == Delivering(BySlot(slots, ms))
    requires t.all == s.all[b := y] && t.calls == s.calls
    ensures Judged(judge, t)
  {
    hide BySlot;
    forall d | 0 <= d < |t.all|
      ensures JudgedTodo(judge, t, d)
    {
      assert JudgedTodo(judge, s, d);
      assert forall j: nat :: RequestAt(t, d, j) == RequestAt(s, d, j);
    }
  }

  lemma FilterJudged(judge: Judge, cfg: Settings, s: State, b: nat, t: State)
    requires ValidSettings(cfg) && Inv(cfg, s) && Judged(judge, s)
    requires b < |s.all| && s.all[b].phase.Filtering? && FilterStep(s, b) == Some(t) && SparesAbandoned(judge)
    ensures Judged(judge, t)
  {
    var x := s.all[b];
    var k := x.phase.next;
    assert BatchInv(cfg, b, x, s.calls);
    BatchParts(cfg, b, x, s.calls);
    hide Inv, BatchInv;
    if k < |x.entries| && s.calls[x.entries[k]].left {
      SentJudged(judge, s, b, k, Abandoned(s.calls[x.entries[k]].request),
                 x.(phase := Filtering(k + 1, x.phase.live)), t);
    } else {
      assert t.calls == s.calls && |t.all| == |s.all|;
      forall d | 0 <= d < |t.all|
        ensures JudgedTodo(judge, t, d)
      {
        assert JudgedTodo(judge, s, d);
        assert t.all[d].entries == s.all[d].entries;
      }
    }
  }

  lemma RespondJudged(judge: Judge, cfg: Settings, s: State, b: nat, slot: nat, t: State)
    requires ValidSettings(cfg) && Inv(cfg, s) && Judged(judge, s)
    requires b < |s.all| && BatchStep(cfg, s, Respond(b, slot), b) == Some(t)
    ensures Judged(judge, t)
  {
    var x := s.all[b];
    assert x.phase.Delivering? && slot in x.phase.todo;
    assert JudgedTodo(judge, s, b);
    assert BatchInv(cfg, b, x, s.calls);
    BatchParts(cfg, b, x, s.calls);
    hide Inv, BatchInv;
    SentJudged(judge, s, b, slot, x.phase.todo[slot], x.(phase := Delivering(x.phase.todo - {slot})), t);
  }

  lemma GiveUpJudged(judge: Judge, cfg: Settings, s: State, b: nat, t: State)
    requires ValidSettings(cfg) && Judged(judge, s)
    requires b < |s.all| && BatchStep(cfg, s, GiveUp(b), b) == Some(t) && SparesAbandoned(judge)
    ensures Judged(judge, t)
  {
    var x := s.all[b];
    var slots := seq(|x.entries|, k requires 0 <= k < |x.entries| => k as nat);
    var ms := seq(|slots|, k requires 0 <= k < |slots| => Abandoned(RequestAt(s, b, slots[k])));
    DecidedJudged(judge, s, b, slots, ms, x.(phase := Delivering(BySlot(slots, ms))), t);
  }

  lemma RepliedJudged(judge: Judge, cfg: Settings, s: State, b: nat, tickets: nat -> nat, sent: Option<seq<Reply>>,
                      t: State)
    requires ValidSettings(cfg) && Judged(judge, s)
    requires b < |s.all| && BatchStep(cfg, s, Replied(b, tickets, sent), b) == Some(t)
    requires JudgedEvent(judge, cfg, s, Replied(b, tickets, sent))
    ensures Judged(judge, t)
  {
    var x := s.all[b];
    if Replies(cfg, s, b, tickets, sent).Decoded? {
      var ms := RepliedEffect(cfg, s, b, tickets, sent);
      hide BatchStep, Messages, Judged;
      DecidedJudged(judge, s, b, x.phase.wire, ms, t.all[b], t);
    } else {
      var y := CrashEffect(cfg, s, b, tickets, sent);
      hide BatchStep, Messages;
      CrashedJudged(judge, s, b, y, t);
    }
  }

  /** A batch whose expansion panicked sends nothing. */
  lemma CrashedJudged(judge: Judge, s: State, b: nat, y: Batch, t: State)
    requires Judged(judge, s) && b < |s.all| && y.entries == s.all[b].entries && y.phase.Crashed?
    requires t.all == s.all[b := y] && t.calls == s.calls
    ensures Judged(judge, t)
  {
    forall d | 0 <= d < |t.all|
      ensures JudgedTodo(judge, t, d)
    {
      assert JudgedTodo(judge, s, d);
      assert forall j: nat :: RequestAt(t, d, j) == RequestAt(s, d, j);
    }
  }

  lemma StepJudged(judge: Judge, cfg: Settings, s: State, e: Event, t: State)
    requires ValidSettings(cfg) && Inv(cfg, s) && Judged(judge, s)
    requires Step(cfg, s, e) == Some(t) && SparesAbandoned(judge) && JudgedEvent(judge, cfg, s, e)
    ensures Judged(judge, t)
  {
    hide Inv, Judged, JudgedEvent;
    match e
    case Add(url, request) => AddJudged(judge, cfg, s, url, request);
    case Filter(b) => FilterJudged(judge, cfg, s, b, t);
    case Respond(b, slot) => RespondJudged(judge, cfg, s, b, slot, t);
    case GiveUp(b) => GiveUpJudged(judge, cfg, s, b, t);
    case Replied(b, tickets, sent) => RepliedJudged(judge, cfg, s, b, tickets, sent, t);
    case _ => QuietJudged(judge, cfg, s, e, t);
  }

  /** Every message sent in a run has the property. */
  lemma {:induction false} RunJudged(judge: Judge, cfg: Settings, es: seq<Event>)
    requires ValidSettings(cfg) && SparesAbandoned(judge) && JudgedRun(judge, cfg, es) && Exec(cfg, es).Some?
    ensures Judged(judge, Exec(cfg, es).value)
  {
    if es != [] {
      hide Inv, Judged, JudgedEvent, Step;
      var before := es[..|es| - 1];
      RunJudged(judge, cfg, before);
      RunKeeps(cfg, before);
      StepJudged(judge, cfg, Exec(cfg, before).value, es[|es| - 1], Exec(cfg, es).value);
    } else {
      assert Judged(judge, Start());
    }
  }
}
