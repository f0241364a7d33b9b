/** The batch processor as a protocol: every critical section, channel
    operation and context event of AddRequest, FlushAll and the processBatch
    goroutines is one atomic step, and any enabled step may come next. */
module Protocol {
  import opened Rpc
  import opened Options
  import opened Fusion
  import opened Delivery
  import opened Codec
  import opened Decoder

  type Url = string

  /** maxConcurrent is the capacity of a backend's worker channel. */
  datatype Settings = Settings(maxBatchSize: nat, maxConcurrent: nat, fuse: Option<Fuse>)

  datatype Fuse = Fuse(address: Address, maxCalls: nat)

  ghost predicate ValidSettings(cfg: Settings) {
    cfg.maxBatchSize >= 1 && (cfg.fuse.Some? ==> 1 <= cfg.fuse.value.maxCalls <= 10000)
  }

  /** An accepted request: its place in its batch, whether its caller's context
      has ended, its response channel (one slot) and everything ever sent on it. */
  datatype Call = Call(request: Request, batch: nat, slot: nat, left: bool, buffer: Option<Message>, log: seq<Message>)

  /** Where a processBatch goroutine stands. */
  datatype Phase =
    | Waiting                                   // select on timer and dispatch
    | Claiming                                  // about to lock bp.mu
    | Snapshotting                              // out of the map, entries about to be read
    | Acquiring                                 // select on the worker channel and ctx.Done
    | Filtering(next: nat, live: seq<nat>)      // the live filter, up to slot next
    | Sending(wire: seq<nat>)                   // sendBatch under way for these slots
    | Expanding(wire: seq<nat>)                 // sendBatch has returned, the worker slot is back
    | Delivering(todo: map<nat, Message>)       // answers still to be sent, by slot
    | Finished
    | Crashed(wire: seq<nat>)                   // expanding the replies panicked

  /** closes counts close(dispatch), which panics the second time; fired holds
      the slots whose context callback has run, cancelled the shared context. */
  datatype Batch = Batch(url: Url, entries: seq<nat>, closes: nat, phase: Phase,
                         fired: set<nat>, cancelled: bool, acquired: nat, released: nat, upstream: seq<nat>)

  datatype State = State(batches: map<Url, nat>, workers: map<Url, nat>, all: seq<Batch>, calls: seq<Call>)

  datatype Event =
    | Add(url: Url, request: Request)
    | Wake(b: nat)
    | Claim(b: nat)
    | Snapshot(b: nat)
    | Acquire(b: nat)
    | GiveUp(b: nat)
    | Filter(b: nat)
    | Returned(b: nat)
    | Replied(b: nat, tickets: nat -> nat, sent: Option<seq<Reply>>)
    | Respond(b: nat, slot: nat)
    | Finish(b: nat)
    | FlushAll
    | Leave(c: nat)
    | AfterFunc(b: nat, slot: nat)
    | Receive(c: nat)

  /** The methods sent on their own because their cost grows with the range they scan. */
  predicate RangeScan(m: string) {
    m in {"eth_getLogs", "trace_filter", "trace_block", "trace_replayBlockTransactions",
          "trace_replayTransaction", "trace_transaction", "debug_traceBlockByNumber",
          "debug_traceBlockByHash", "debug_traceTransaction"}
  }

  function Start(): State {
    State(map[], map[], [], [])
  }

  function NewBatch(url: Url, c: nat): Batch {
    Batch(url, [c], 0, Waiting, {}, false, 0, 0, [])
  }

  function Tokens(s: State, url: Url): nat {
    if url in s.workers then s.workers[url] else 0
  }

  /** poolLocked: the worker channel exists from the first request on. */
  function PoolLocked(s: State, url: Url): State {
    s.(workers := s.workers[url := Tokens(s, url)])
  }

  function Close(x: Batch): Batch {
    x.(closes := x.closes + 1)
  }

  /** AddRequest, which holds bp.mu throughout. */
  function AddRequest(cfg: Settings, s: State, url: Url, request: Request): State
    requires forall u :: u in s.batches ==> s.batches[u] < |s.all|
  {
    var c, b := |s.calls|, |s.all|;
    if RangeScan(request.rpcMethod) then
      var p := PoolLocked(s, url);
      p.(all := p.all + [Close(NewBatch(url, c))], calls := p.calls + [Call(request, b, 0, false, None, [])])
    else if url !in s.batches then
      var p := PoolLocked(s, url);
      var x := NewBatch(url, c);
      var full := 1 >= cfg.maxBatchSize;
      p.(batches := if full then p.batches else p.batches[url := b],
         all := p.all + [if full then Close(x) else x],
         calls := p.calls + [Call(request, b, 0, false, None, [])])
    else
      var b := s.batches[url];
      var x := s.all[b].(entries := s.all[b].entries + [c]);
      var full := |x.entries| >= cfg.maxBatchSize;
      s.(batches := if full then s.batches - {url} else s.batches,
         all := s.all[b := if full then Close(x) else x],
         calls := s.calls + [Call(request, b, |x.entries| - 1, false, None, [])])
  }

  /** FlushAll, under bp.mu. */
  function Flush(s: State): State {
    s.(batches := map[],
       all := seq(|s.all|, b requires 0 <= b < |s.all| => if b in s.batches.Values then Close(s.all[b]) else s.all[b]))
  }

  /** The claim at the start of processBatch, under bp.mu. */
  function ClaimBatch(s: State, b: nat): State
    requires b < |s.all|
  {
    var url := s.all[b].url;
    s.(batches := if url in s.batches && s.batches[url] == b then s.batches - {url} else s.batches,
       all := s.all[b := s.all[b].(phase := Snapshotting)])
  }

  function RequestsAt(s: State, b: nat, slots: seq<nat>): (rs: seq<Request>)
    requires b < |s.all|
    ensures |rs| == |slots|
  {
    seq(|slots|, k requires 0 <= k < |slots| => RequestAt(s, b, slots[k]))
  }

  /** The request in a slot; slots out of range do not occur. */
  function RequestAt(s: State, b: nat, slot: nat): Request
    requires b < |s.all|
  {
    if slot < |s.all[b].entries| && s.all[b].entries[slot] < |s.calls| then s.calls[s.all[b].entries[slot]].request
    else Request(Other(""), "", Unparsed(""))
  }

  function Multicall(cfg: Settings, tickets: nat -> nat): Option<Config> {
    match cfg.fuse
    case None => None
    case Some(f) => Some(Config(f.address, f.maxCalls, tickets))
  }

  /** abandon's answer. */
  function Abandoned(r: Request): Message {
    Message(r.id, Internal(CallerLeft))
  }

  /** A send on a response channel; None while its one slot is taken. */
  function Push(s: State, c: nat, m: Message): Option<State> {
    if c < |s.calls| && s.calls[c].buffer.None? then
      Some(s.(calls := s.calls[c := s.calls[c].(buffer := Some(m), log := s.calls[c].log + [m])]))
    else None
  }

  function Put(s: State, b: nat, x: Batch): State
    requires b < |s.all|
  {
    s.(all := s.all[b := x])
  }

  function Release(s: State, url: Url): State {
    s.(workers := s.workers[url := if Tokens(s, url) > 0 then Tokens(s, url) - 1 else 0])
  }

  /** One slot of the live filter, or what follows its last one. */
  function FilterStep(s: State, b: nat): Option<State>
    requires b < |s.all| && s.all[b].phase.Filtering?
  {
    var x := s.all[b];
    var k, live := x.phase.next, x.phase.live;
    if k < |x.entries| then
      var c := x.entries[k];
      if c < |s.calls| && s.calls[c].left then
        match Push(s, c, Abandoned(s.calls[c].request))
        case None => None
        case Some(t) => Some(Put(t, b, x.(phase := Filtering(k + 1, live))))
      else Some(Put(s, b, x.(phase := Filtering(k + 1, live + [k]))))
    else if live == [] then
      Some(Put(Release(s, x.url), b, x.(phase := Finished, released := x.released + 1)))
    else Some(Put(s, b, x.(phase := Sending(live), upstream := live)))
  }

  /** What sendBatch returned, turned into one message per live slot, or into a
      panic; the worker slot was given back before either. */
  function RepliedStep(cfg: Settings, s: State, b: nat, tickets: nat -> nat, sent: Option<seq<Reply>>): State
    requires ValidSettings(cfg) && b < |s.all| && s.all[b].phase.Expanding?
  {
    var x := s.all[b];
    var wire := x.phase.wire;
    var next :=
      match Messages(Multicall(cfg, tickets), RequestsAt(s, b, wire), sent)
      case Decoded(ms) => Delivering(BySlot(wire, ms))
      case _ => Crashed(wire);
    Put(s, b, x.(phase := next))
  }

  /** A panic in a processBatch goroutine, which nothing recovers, ends the process. */
  predicate Down(s: State) {
    exists b :: 0 <= b < |s.all| && s.all[b].phase.Crashed?
  }

  /** Messages by slot. */
  function BySlot(slots: seq<nat>, ms: seq<Message>): (m: map<nat, Message>)
    requires |slots| == |ms|
    ensures forall i :: i in m <==> i in slots
    ensures forall i :: i in m ==> exists k :: 0 <= k < |slots| && slots[k] == i && ms[k] == m[i]
  {
    if slots == [] then map[]
    else
      var n := |slots| - 1;
      assert forall k :: 0 <= k < n ==> slots[k] == slots[..n][k];
      BySlot(slots[..n], ms[..n])[slots[n] := ms[n]]
  }

  /** The transition relation: None when the event cannot happen now, and nothing
      happens any more once the process is down. */
  function Step(cfg: Settings, s: State, e: Event): Option<State>
    requires ValidSettings(cfg)
  {
    if Down(s) then None else Move(cfg, s, e)
  }

  function Move(cfg: Settings, s: State, e: Event): Option<State>
    requires ValidSettings(cfg)
  {
    match e
    case Add(url, request) =>
      if forall u :: u in s.batches ==> s.batches[u] < |s.all| then Some(AddRequest(cfg, s, url, request)) else None
    case FlushAll => Some(Flush(s))
    case Leave(c) =>
      if c < |s.calls| then Some(s.(calls := s.calls[c := s.calls[c].(left := true)])) else None
    case Receive(c) =>
      if c < |s.calls| && s.calls[c].buffer.Some? then
        Some(s.(calls := s.calls[c := s.calls[c].(buffer := None)]))
      else
        None
    case _ =>
      if e.b < |s.all| then BatchStep(cfg, s, e, e.b) else None
  }

  function BatchStep(cfg: Settings, s: State, e: Event, b: nat): Option<State>
    requires ValidSettings(cfg) && b < |s.all|
  {
    var x := s.all[b];
    match e
    case Wake(_) => if x.phase.Waiting? then Some(Put(s, b, x.(phase := Claiming))) else None
    case Claim(_) => if x.phase.Claiming? then Some(ClaimBatch(s, b)) else None
    case Snapshot(_) =>
      if !x.phase.Snapshotting? then None
      else if x.entries == [] then Some(Put(s, b, x.(phase := Finished)))
      else Some(Put(s, b, x.(phase := Acquiring)))
    case Acquire(_) =>
      if x.phase.Acquiring? && Tokens(s, x.url) < cfg.maxConcurrent then
        Some(Put(s.(workers := s.workers[x.url := Tokens(s, x.url) + 1]), b,
                 x.(phase := Filtering(0, []), acquired := x.acquired + 1)))
      else None
    case GiveUp(_) =>
      if x.phase.Acquiring? && x.cancelled then
        var slots := seq(|x.entries|, k requires 0 <= k < |x.entries| => k as nat);
        var ms := seq(|slots|, k requires 0 <= k < |slots| => Abandoned(RequestAt(s, b, slots[k])));
        Some(Put(s, b, x.(phase := Delivering(BySlot(slots, ms)))))
      else None
    case Filter(_) => if x.phase.Filtering? then FilterStep(s, b) else None
    case Returned(_) =>
      if x.phase.Sending? then
        Some(Put(Release(s, x.url), b, x.(phase := Expanding(x.phase.wire), released := x.released + 1)))
      else None
    case Replied(_, tickets, sent) =>
      if x.phase.Expanding? then Some(RepliedStep(cfg, s, b, tickets, sent)) else None
    case Respond(_, slot) =>
      if x.phase.Delivering? && slot in x.phase.todo && slot < |x.entries| then
        match Push(s, x.entries[slot], x.phase.todo[slot])
        case None => None
        case Some(t) => Some(Put(t, b, x.(phase := Delivering(x.phase.todo - {slot}))))
      else None
    case Finish(_) =>
      if x.phase.Delivering? && x.phase.todo == map[] then Some(Put(s, b, x.(phase := Finished))) else None
    case AfterFunc(_, slot) =>
      // Registered by callers(), run by the runtime once the caller's context ends.
      if Registered(x.phase) && slot < |x.entries| && slot !in x.fired
         && x.entries[slot] < |s.calls| && s.calls[x.entries[slot]].left then
        var fired := x.fired + {slot};
        Some(Put(s, b, x.(fired := fired, cancelled := x.cancelled || |fired| == |x.entries|)))
      else None
    case _ => None
  }

  /** Between callers(entries) and its release. */
  predicate Registered(p: Phase) {
    p.Acquiring? || p.Filtering? || p.Sending? || p.Expanding? || p.Delivering?
  }

  /** Before callers(entries). */
  predicate Early(p: Phase) {
    p.Waiting? || p.Claiming? || p.Snapshotting?
  }

  predicate Holding(p: Phase) {
    p.Filtering? || p.Sending?
  }

  /** The state after a sequence of events, when each was possible in turn. */
  function Exec(cfg: Settings, es: seq<Event>): Option<State>
    requires ValidSettings(cfg)
  {
    if es == [] then Some(Start())
    else
      match Exec(cfg, es[..|es| - 1])
      case None => None
      case Some(s) => Step(cfg, s, es[|es| - 1])
  }

  /* ---------- Invariants ---------- */

  predicate Increasing(xs: seq<nat>) {
    forall i, j :: 0 <= i < j < |xs| ==> xs[i] < xs[j]
  }

  /** Whether slot i of the batch has yet to be answered. */
  predicate Pending(x: Batch, i: nat) {
    match x.phase
    case Filtering(k, live) => i >= k || i in live
    case Sending(wire) => i in wire
    case Expanding(wire) => i in wire
    case Delivering(todo) => i in todo
    case Crashed(wire) => i in wire
    case Finished => false
    case _ => true
  }

  ghost predicate SlotsInRange(x: Batch) {
    match x.phase
    case Filtering(k, live) => k <= |x.entries| && Increasing(live) && forall i :: i in live ==> i < k
    case Sending(wire) => Increasing(wire) && forall i :: i in wire ==> i < |x.entries|
    case Expanding(wire) => Increasing(wire) && forall i :: i in wire ==> i < |x.entries|
    case Delivering(todo) => forall i :: i in todo ==> i < |x.entries|
    case Crashed(wire) => Increasing(wire) && forall i :: i in wire ==> i < |x.entries|
    case _ => true
  }

  /** Every entry is a call that knows this batch and slot as its place. */
  ghost predicate Entries(b: nat, x: Batch, calls: seq<Call>) {
    forall i :: 0 <= i < |x.entries| ==>
      x.entries[i] < |calls| && calls[x.entries[i]].batch == b && calls[x.entries[i]].slot == i
  }

  /** One message ever, and only once the slot is no longer pending; it carries
      the id the caller chose. A call abandoned had lost its caller and never
      went upstream. */
  ghost predicate SlotAnswered(x: Batch, i: nat, call: Call) {
    && |call.log| == (if Pending(x, i) then 0 else 1)
    && forall m :: m in call.log ==> MessageFits(x, i, call, m)
  }

  ghost predicate MessageFits(x: Batch, i: nat, call: Call, m: Message) {
    && m.id == call.request.id
    && (m.body == Internal(CallerLeft) ==> call.left && i !in x.upstream)
  }

  /** What holds of one batch, whatever the others do. */
  ghost predicate BatchInv(cfg: Settings, b: nat, x: Batch, calls: seq<Call>) {
    && 1 <= |x.entries| <= cfg.maxBatchSize
    && x.closes <= 1
    && Entries(b, x, calls)
    && SlotsInRange(x)
    && (forall i :: 0 <= i < |x.entries| ==> SlotAnswered(x, i, calls[x.entries[i]]))
    && (x.phase.Delivering? ==> forall i :: i in x.phase.todo ==>
        MessageFits(x, i, calls[x.entries[i]], x.phase.todo[i]))
    && SlotHeld(x)
    && ContextInv(x, calls)
  }

  /** A worker slot is acquired at most once and released exactly once. */
  ghost predicate SlotHeld(x: Batch) {
    && x.acquired <= 1
    && x.acquired == x.released + (if Holding(x.phase) then 1 else 0)
    && (Early(x.phase) || x.phase.Acquiring? ==> x.acquired == 0)
    && (x.phase.Sending? || x.phase.Expanding? || x.phase.Crashed? ==> x.upstream == x.phase.wire)
    && (Early(x.phase) || x.phase.Acquiring? || x.phase.Filtering? ==> x.upstream == [])
  }

  /** The shared context counts callers that have left. */
  ghost predicate ContextInv(x: Batch, calls: seq<Call>)
    requires forall i :: 0 <= i < |x.entries| ==> x.entries[i] < |calls|
  {
    && (forall i :: i in x.fired ==> i < |x.entries| && calls[x.entries[i]].left)
    && (x.cancelled <==> |x.fired| == |x.entries|)
    && (Early(x.phase) ==> x.fired == {} && !x.cancelled)
  }

  /** A call's place, and its channel: what is buffered is all that was sent. */
  ghost predicate CallInv(c: nat, call: Call, all: seq<Batch>) {
    && call.batch < |all|
    && call.slot < |all[call.batch].entries|
    && all[call.batch].entries[call.slot] == c
    && (call.buffer.Some? ==> call.log == [call.buffer.value])
  }

  /** The map holds only batches that may still grow, under their own URL; a
      batch out of the map has been claimed or its dispatch closed. */
  ghost predicate MapInv(cfg: Settings, s: State) {
    && (forall u :: u in s.batches ==> s.batches[u] < |s.all| && Growing(cfg, u, s.all[s.batches[u]]))
    && (forall b :: 0 <= b < |s.all| && Unclaimed(s.all[b]) ==>
          s.all[b].url in s.batches && s.batches[s.all[b].url] == b)
  }

  predicate Growing(cfg: Settings, u: Url, x: Batch) {
    x.url == u && |x.entries| < cfg.maxBatchSize && Unclaimed(x)
  }

  predicate Unclaimed(x: Batch) {
    (x.phase.Waiting? || x.phase.Claiming?) && x.closes == 0
  }

  ghost function Holders(all: seq<Batch>, url: Url): set<nat> {
    set b: nat | b < |all| && all[b].url == url && Holding(all[b].phase)
  }

  /** The worker channel of a backend holds one token per batch in flight. */
  ghost predicate PoolInv(cfg: Settings, s: State) {
    forall u :: Tokens(s, u) == |Holders(s.all, u)| && Tokens(s, u) <= cfg.maxConcurrent
  }

  ghost predicate Inv(cfg: Settings, s: State) {
    && (forall b :: 0 <= b < |s.all| ==> BatchInv(cfg, b, s.all[b], s.calls))
    && (forall c :: 0 <= c < |s.calls| ==> CallInv(c, s.calls[c], s.all))
    && MapInv(cfg, s)
    && PoolInv(cfg, s)
  }
}
