/** The two-tier cache as a state machine: what each operation of the store
    does to the memory tier, the disk tier and the block index. */
module Cache {
  import opened Options
  import opened Words
  import opened Codec
  import opened Tracker

  /** The three namespaces of keys; key functions are taken to be injective. */
  datatype Key =
    | Sub(chain: Chain, target: Address, callData: seq<byte>)
    | Neg(chain: Chain, target: Address, callData: seq<byte>)
    | Canonical(text: string)

  datatype CacheEntry = CacheEntry(expiry: int, body: seq<byte>, chain: Chain, hash: Hash, number: Height)

  /** Durations and instants are in nanoseconds. */
  datatype Settings = Settings(enabled: bool, depths: Depths, ttlLatest: int, ttlBlock: int)

  /** What Open makes of the configured lifetimes. */
  predicate ValidSettings(cfg: Settings) {
    cfg.ttlLatest > 0 && cfg.ttlBlock > 0
  }

  /** math.MaxInt64 */
  const NEVER: int := MAX_INT64

  const NANOS_PER_MILLI := 1_000_000

  /** UnixMilli */
  function Millis(t: int): int {
    t / NANOS_PER_MILLI
  }

  /** An instant whose UnixMilli is an int64. */
  type Instant = t: int | 0 <= t / 1_000_000 < 0x8000_0000_0000_0000

  datatype Store = Store(index: Index, mem: map<Key, CacheEntry>, disk: map<Key, CacheEntry>)

  const Opened := Store(NoIndex, map[], map[])

  predicate EntryValid(cfg: Settings, s: Store, e: CacheEntry) {
    HashValid(cfg.depths, s.index, e.chain, e.hash, e.number)
  }

  /** A tier can serve the key now. */
  predicate Serves(cfg: Settings, s: Store, tier: map<Key, CacheEntry>, key: Key, now: Instant) {
    key in tier && tier[key].expiry >= Millis(now) && EntryValid(cfg, s, tier[key])
  }

  /** A tier holds an unexpired entry under the key that a reorg has outdated. */
  predicate Outdated(cfg: Settings, s: Store, tier: map<Key, CacheEntry>, key: Key, now: Instant) {
    key in tier && tier[key].expiry >= Millis(now) && !EntryValid(cfg, s, tier[key])
  }

  /** Get's answer. */
  function Found(cfg: Settings, s: Store, key: Key, now: Instant): Option<seq<byte>> {
    if !cfg.enabled then None
    else if Serves(cfg, s, s.mem, key, now) then Some(s.mem[key].body)
    else if Serves(cfg, s, s.disk, key, now) then Some(s.disk[key].body)
    else None
  }

  /** What Get leaves behind: an outdated entry is dropped where it was met, and
      an entry served from disk is promoted. */
  function Looked(cfg: Settings, s: Store, key: Key, now: Instant): Store {
    if !cfg.enabled || Serves(cfg, s, s.mem, key, now) then s
    else
      var mem := if Outdated(cfg, s, s.mem, key, now) then s.mem - {key} else s.mem;
      if Serves(cfg, s, s.disk, key, now) then s.(mem := mem[key := s.disk[key]])
      else if Outdated(cfg, s, s.disk, key, now) then s.(mem := mem, disk := s.disk - {key})
      else s.(mem := mem)
  }

  /** An entry about to be written, and whether the disk tier takes it too. */
  datatype Write = Write(key: Key, entry: CacheEntry, durable: bool)

  function Written(s: Store, w: Write): Store {
    s.(mem := s.mem[w.key := w.entry],
       disk := if w.durable then s.disk[w.key := w.entry] else s.disk)
  }

  /** The entry Put makes; `later` is the second reading of the clock. */
  function PutWrite(cfg: Settings, s: Store, key: Key, body: seq<byte>, ttl: int, chain: Chain,
                    number: Height, hash: Hash, now: Instant, later: Instant): Write
  {
    var tip := Tip(s.index, chain);
    var settled := number > 0 && tip > number && tip - number > ReorgDepth(cfg.depths, chain);
    var expiry := if settled then NEVER else Millis(now + ttl);
    var shortLived := expiry != NEVER && expiry - Millis(later) <= Millis(cfg.ttlLatest);
    Write(key,
          CacheEntry(expiry, body, chain,
                     if number == 0 then TipHash(s.index, chain) else hash,
                     if number == 0 then tip else number),
          !shortLived)
  }

  function ImmortalWrite(key: Key, body: seq<byte>, chain: Chain): Write {
    Write(key, CacheEntry(NEVER, body, chain, "", 0), true)
  }

  function NegativeWrite(cfg: Settings, chain: Chain, target: Address, callData: seq<byte>, now: Instant): Write {
    Write(Neg(chain, target, callData), CacheEntry(Millis(now + cfg.ttlBlock), [], chain, "", 0), true)
  }

  /** purgeChain */
  function Purged(mem: map<Key, CacheEntry>, chain: Chain): map<Key, CacheEntry> {
    map k | k in mem && mem[k].chain != chain :: mem[k]
  }

  /** UpdateLatestBlock */
  function Reported(cfg: Settings, s: Store, head: Head): Store {
    Store(Updated(cfg.depths, s.index, head),
          if Contradicts(s.index, head) then Purged(s.mem, head.chain) else s.mem,
          s.disk)
  }

  /* ---------- Runs ---------- */

  /** One operation of the store, or the memory tier dropping entries on its own. */
  datatype Event =
    | Report(head: Head)
    | Get(key: Key, now: Instant)
    | Put(key: Key, body: seq<byte>, ttl: int, chain: Chain, number: Height, hash: Hash, now: Instant, later: Instant)
    | PutImmortal(key: Key, body: seq<byte>, chain: Chain)
    | PutNegative(chain: Chain, target: Address, callData: seq<byte>, now: Instant)
    | Evict(keys: set<Key>)

  /** The write an event makes, if any. */
  function WriteOf(cfg: Settings, s: Store, e: Event): Option<Write> {
    if !cfg.enabled then None
    else
      match e
      case Put(key, body, ttl, chain, number, hash, now, later) =>
        if ttl <= 0 then None else Some(PutWrite(cfg, s, key, body, ttl, chain, number, hash, now, later))
      case PutImmortal(key, body, chain) => Some(ImmortalWrite(key, body, chain))
      case PutNegative(chain, target, callData, now) =>
        if cfg.ttlBlock <= 0 then None else Some(NegativeWrite(cfg, chain, target, callData, now))
      case _ => None
  }

  function Step(cfg: Settings, s: Store, e: Event): Store {
    match e
    case Report(head) => Reported(cfg, s, head)
    case Get(key, now) => Looked(cfg, s, key, now)
    case Evict(keys) => s.(mem := s.mem - keys)
    case _ =>
      match WriteOf(cfg, s, e)
      case Some(w) => Written(s, w)
      case None => s
  }

  function After(cfg: Settings, run: seq<Event>): Store {
    if run == [] then Opened else Step(cfg, After(cfg, run[..|run| - 1]), run[|run| - 1])
  }

  lemma Extended(cfg: Settings, run: seq<Event>, e: Event)
    ensures After(cfg, run + [e]) == Step(cfg, After(cfg, run), e)
  {
    assert (run + [e])[..|run + [e]| - 1] == run;
  }

  /** The write the last event of a run makes under the key. */
  function LastStepWrite(cfg: Settings, run: seq<Event>, key: Key): Option<Write>
    requires run != []
  {
    match WriteOf(cfg, After(cfg, run[..|run| - 1]), run[|run| - 1])
    case Some(w) => if w.key == key then Some(w) else None
    case None => None
  }

  /** The last write under the key in a run. */
  function LastWrite(cfg: Settings, run: seq<Event>, key: Key): Option<Write> {
    if run == [] then None
    else if LastStepWrite(cfg, run, key).Some? then LastStepWrite(cfg, run, key)
    else LastWrite(cfg, run[..|run| - 1], key)
  }

  /** The last write under the key that reached the disk tier. */
  function LastDurable(cfg: Settings, run: seq<Event>, key: Key): Option<Write> {
    if run == [] then None
    else if LastStepWrite(cfg, run, key).Some? && LastStepWrite(cfg, run, key).value.durable
      then LastStepWrite(cfg, run, key)
    else LastDurable(cfg, run[..|run| - 1], key)
  }

  predicate HeldFrom(tier: map<Key, CacheEntry>, key: Key, w: Option<Write>) {
    key in tier ==> w.Some? && tier[key] == w.value.entry
  }

  /** What one event does to the entries under one key. */
  lemma {:induction false} StepAt(cfg: Settings, s: Store, e: Event, key: Key)
    ensures var t, w := Step(cfg, s, e), WriteOf(cfg, s, e);
            && (key in t.mem ==>
                  || (w.Some? && w.value.key == key && t.mem[key] == w.value.entry)
                  || (!(w.Some? && w.value.key == key)
                      && ((key in s.mem && t.mem[key] == s.mem[key]) || (key in s.disk && t.mem[key] == s.disk[key]))))
            && (key in t.disk ==>
                  if w.Some? && w.value.key == key && w.value.durable then t.disk[key] == w.value.entry
                  else key in s.disk && t.disk[key] == s.disk[key])
  {
    hide PutWrite, EntryValid, Updated, Contradicts;
  }

  /** After any run, memory holds the last write under a key or the last one
      that reached the disk, and the disk holds only the latter. */
  lemma {:induction false} TiersHoldLastWrites(cfg: Settings, run: seq<Event>, key: Key)
    ensures var s := After(cfg, run);
            && (HeldFrom(s.mem, key, LastWrite(cfg, run, key)) || HeldFrom(s.mem, key, LastDurable(cfg, run, key)))
            && HeldFrom(s.disk, key, LastDurable(cfg, run, key))
  {
    hide Step, WriteOf;
    if run != [] {
      var before, last := run[..|run| - 1], run[|run| - 1];
      TiersHoldLastWrites(cfg, before, key);
      StepAt(cfg, After(cfg, before), last, key);
    }
  }

  /** The reports among a run's events. */
  function Heads(run: seq<Event>): seq<Head> {
    if run == [] then []
    else Heads(run[..|run| - 1]) + if run[|run| - 1].Report? then [run[|run| - 1].head] else []
  }

  lemma {:induction false} IndexOfRun(cfg: Settings, run: seq<Event>)
    ensures After(cfg, run).index == Tracked(cfg.depths, Heads(run))
  {
    hide Updated, Contradicts, EntryValid, PutWrite;
    if run != [] {
      var before, last := run[..|run| - 1], run[|run| - 1];
      IndexOfRun(cfg, before);
      var none: seq<Head> := [];
      assert Heads(before) + none == Heads(before);
      if last.Report? {
        assert (Heads(before) + [last.head])[..|Heads(before)|] == Heads(before);
      }
    }
  }

  /** The block of the answer was past the reorg depth when it was put. */
  predicate Settled(cfg: Settings, s: Store, put: Event)
    requires put.Put?
  {
    put.number > 0 && put.number + ReorgDepth(cfg.depths, put.chain) < Tip(s.index, put.chain)
  }

  /** The event stores the body under the key, for good or for a lifetime that has
      not run out by now. */
  predicate StoresFor(cfg: Settings, s: Store, e: Event, key: Key, body: seq<byte>, now: Instant) {
    match e
    case Put(k, b, ttl, _, _, _, at, _) =>
      k == key && b == body && ttl > 0 && (Settled(cfg, s, e) || Millis(now) <= Millis(at + ttl))
    case PutImmortal(k, b, _) => k == key && b == body
    case PutNegative(chain, target, callData, at) =>
      key == Neg(chain, target, callData) && body == [] && Millis(now) <= Millis(at + cfg.ttlBlock)
    case _ => false
  }

  /** The block the body is about passes the index: the one named with it, or the tip
      as it was when an answer that names none was put. */
  predicate BlockPasses(cfg: Settings, s: Store, e: Event, ix: Index) {
    match e
    case Put(_, _, _, chain, number, hash, _, _) =>
      if number > 0 then Passes(cfg.depths, ix, chain, hash, number)
      else Passes(cfg.depths, ix, chain, TipHash(s.index, chain), Tip(s.index, chain))
    case _ => true
  }

  /** How long what an event writes can be served, at which block, and whether it is
      written to disk. */
  lemma {:induction false} WriteExactly(cfg: Settings, s: Store, e: Event, ix: Index, now: Instant)
    requires WriteOf(cfg, s, e).Some?
    ensures var w := WriteOf(cfg, s, e).value;
            && (w.entry.expiry >= Millis(now) <==> StoresFor(cfg, s, e, w.key, w.entry.body, now))
            && (HashValid(cfg.depths, ix, w.entry.chain, w.entry.hash, w.entry.number) <==> BlockPasses(cfg, s, e, ix))
            && (e.Put? ==> w.key == e.key && w.entry.body == e.body && w.entry.chain == e.chain)
            && (w.durable <==>
                  e.Put? ==> || Settled(cfg, s, e) || Millis(e.now + e.ttl) == NEVER
                             || Millis(e.now + e.ttl) > Millis(e.later) + Millis(cfg.ttlLatest))
  {
    var entry := WriteOf(cfg, s, e).value.entry;
    ValidExactly(cfg.depths, ix, entry.chain, entry.hash, entry.number);
    hide HashValid, Passes;
    if e.PutImmortal? || e.PutNegative? {
      HashlessPasses(cfg.depths, ix, entry.chain, entry.number);
    }
  }

  lemma HashlessPasses(depths: Depths, ix: Index, chain: Chain, number: Height)
    ensures Passes(depths, ix, chain, "", number)
  {
  }

  /** What event k of the run writes under the key. */
  function WriteAt(cfg: Settings, run: seq<Event>, k: nat, key: Key): Option<Write>
    requires k < |run|
  {
    match WriteOf(cfg, After(cfg, run[..k]), run[k])
    case Some(w) => if w.key == key then Some(w) else None
    case None => None
  }

  lemma {:induction false} LastWriteAt(cfg: Settings, run: seq<Event>, key: Key) returns (k: nat)
    requires LastWrite(cfg, run, key).Some?
    ensures k < |run| && WriteAt(cfg, run, k, key) == LastWrite(cfg, run, key)
    ensures forall l :: k < l < |run| ==> WriteAt(cfg, run, l, key).None?
  {
    hide After, WriteOf;
    k := |run| - 1;
    if LastStepWrite(cfg, run, key).None? {
      k := LastWriteAt(cfg, run[..|run| - 1], key);
      SameWrites(cfg, run, key);
    }
  }

  lemma {:induction false} LastDurableAt(cfg: Settings, run: seq<Event>, key: Key) returns (k: nat)
    requires LastDurable(cfg, run, key).Some?
    ensures k < |run| && WriteAt(cfg, run, k, key) == LastDurable(cfg, run, key)
    ensures WriteAt(cfg, run, k, key).value.durable
    ensures forall l :: k < l < |run| ==> WriteAt(cfg, run, l, key).None? || !WriteAt(cfg, run, l, key).value.durable
  {
    hide After, WriteOf;
    k := |run| - 1;
    if LastStepWrite(cfg, run, key).None? || !LastStepWrite(cfg, run, key).value.durable {
      k := LastDurableAt(cfg, run[..|run| - 1], key);
      SameWrites(cfg, run, key);
    }
  }

  lemma SameWrites(cfg: Settings, run: seq<Event>, key: Key)
    requires run != []
    ensures forall l :: 0 <= l < |run| - 1 ==> WriteAt(cfg, run[..|run| - 1], l, key) == WriteAt(cfg, run, l, key)
  {
    hide After, WriteOf;
    forall l | 0 <= l < |run| - 1
      ensures WriteAt(cfg, run[..|run| - 1], l, key) == WriteAt(cfg, run, l, key)
    {
      assert run[..|run| - 1][..l] == run[..l];
    }
  }

  /** Event k accounts for a body: no later event has written the key, or none that
      reached the disk as event k did; it stored the body for a lifetime that has not
      run out, and its block passes the index now and, within the window, the full
      history of reports. */
  ghost predicate Accounts(cfg: Settings, run: seq<Event>, key: Key, now: Instant, body: seq<byte>, k: nat) {
    && k < |run| && WriteAt(cfg, run, k, key).Some?
    && var w, s := WriteAt(cfg, run, k, key).value, After(cfg, run[..k]);
       && (|| (forall l :: k < l < |run| ==> WriteAt(cfg, run, l, key).None?)
           || (w.durable && forall l :: k < l < |run| ==>
                              WriteAt(cfg, run, l, key).None? || !WriteAt(cfg, run, l, key).value.durable))
       && StoresFor(cfg, s, run[k], key, body, now)
       && BlockPasses(cfg, s, run[k], After(cfg, run).index)
       && (w.entry.number >= Cutoff(cfg.depths, w.entry.chain, Tip(After(cfg, run).index, w.entry.chain)) ==>
             BlockPasses(cfg, s, run[k], Unpruned(Heads(run))))
  }

  /** Cache soundness: a body that Get returns was stored under that very key, by the
      last write or by the last one that reached the disk; the lifetime it was put for
      has not run out, unless it was settled or immutable when put, and its block
      passes: unless more than twice the reorg depth behind the tip, it agrees with
      every report ever made. */
  lemma {:induction false} GetIsSound(cfg: Settings, run: seq<Event>, key: Key, now: Instant)
    requires Found(cfg, After(cfg, run), key, now).Some?
    ensures exists k: nat :: Accounts(cfg, run, key, now, Found(cfg, After(cfg, run), key, now).value, k)
  {
    hide After, LastWrite, LastDurable, HashValid, Cutoff, Heads, WriteOf, StoresFor, BlockPasses;
    TiersHoldLastWrites(cfg, run, key);
    var s := After(cfg, run);
    var tier := if Serves(cfg, s, s.mem, key, now) then s.mem else s.disk;
    var k: nat;
    if HeldFrom(tier, key, LastWrite(cfg, run, key)) {
      k := LastWriteAt(cfg, run, key);
    } else {
      k := LastDurableAt(cfg, run, key);
    }
    var w := WriteAt(cfg, run, k, key).value;
    assert tier[key] == w.entry;
    IndexOfRun(cfg, run);
    ValidityAgrees(cfg.depths, Heads(run), w.entry.chain, w.entry.hash, w.entry.number);
    WriteExactly(cfg, After(cfg, run[..k]), run[k], s.index, now);
    WriteExactly(cfg, After(cfg, run[..k]), run[k], Unpruned(Heads(run)), now);
    assert Accounts(cfg, run, key, now, Found(cfg, s, key, now).value, k);
  }

  /** What a Get leaves behind: a body it returns is in memory from then on; if it
      returns none, no tier is left with an entry under the key that has not expired.
      Other keys are untouched. */
  lemma {:induction false} GetLeaves(cfg: Settings, s: Store, key: Key, now: Instant)
    requires cfg.enabled
    ensures var t := Looked(cfg, s, key, now);
            && (match Found(cfg, s, key, now)
                case Some(body) =>
                  && Serves(cfg, t, t.mem, key, now) && t.mem[key].body == body
                  && (key in t.disk <==> key in s.disk)
                case None =>
                  && (key in t.mem ==> t.mem[key].expiry < Millis(now))
                  && (key in t.disk ==> t.disk[key].expiry < Millis(now)))
            && (forall k :: k != key ==> (k in t.mem <==> k in s.mem) && (k in t.disk <==> k in s.disk))
            && (forall k :: k != key && k in s.mem ==> t.mem[k] == s.mem[k])
            && (forall k :: k in t.disk ==> k in s.disk && t.disk[k] == s.disk[k])
            && t.index == s.index
  {
    hide HashValid;
  }

  /** A store that is switched off serves nothing and stores nothing; it only follows
      reports and evictions. */
  lemma {:induction false} DisabledDoesNothing(cfg: Settings, s: Store, e: Event, key: Key, now: Instant)
    requires !cfg.enabled
    ensures Found(cfg, s, key, now) == None
    ensures !e.Report? && !e.Evict? ==> Step(cfg, s, e) == s
  {
  }

  /** A body just written is what Get returns, unless its lifetime or its block is over. */
  lemma {:induction false} JustWrittenIsServed(cfg: Settings, s: Store, e: Event, now: Instant)
    requires cfg.enabled && WriteOf(cfg, s, e).Some?
    ensures var w, t := WriteOf(cfg, s, e).value, Step(cfg, s, e);
            StoresFor(cfg, s, e, w.key, w.entry.body, now) && BlockPasses(cfg, s, e, t.index) ==>
              Found(cfg, t, w.key, now) == Some(w.entry.body)
  {
    var w, t := WriteOf(cfg, s, e).value, Step(cfg, s, e);
    WriteExactly(cfg, s, e, t.index, now);
    assert t == Written(s, w);
    hide HashValid, StoresFor, BlockPasses, WriteOf;
  }

  /* ---------- Entries without a block hash ---------- */

  /** Disk holds the entry, and memory holds nothing else under its key. */
  predicate Rests(s: Store, key: Key, e: CacheEntry) {
    key in s.disk && s.disk[key] == e && (key in s.mem ==> s.mem[key] == e)
  }

  lemma RestsOn(cfg: Settings, s: Store, event: Event, key: Key, e: CacheEntry)
    requires Rests(s, key, e) && e.hash == ""
    requires WriteOf(cfg, s, event).Some? ==> WriteOf(cfg, s, event).value.key != key
    ensures Rests(Step(cfg, s, event), key, e)
  {
    StepAt(cfg, s, event, key);
    hide WriteOf, Updated, Contradicts, HashValid;
    assert EntryValid(cfg, s, e) by { EmptyHashValid(cfg, s, e); }
  }

  lemma EmptyHashValid(cfg: Settings, s: Store, e: CacheEntry)
    requires e.hash == ""
    ensures EntryValid(cfg, s, e)
  {
  }

  lemma {:induction false} LastWriteRests(cfg: Settings, run: seq<Event>, key: Key)
    requires LastWrite(cfg, run, key).Some?
    requires LastWrite(cfg, run, key).value.durable && LastWrite(cfg, run, key).value.entry.hash == ""
    ensures Rests(After(cfg, run), key, LastWrite(cfg, run, key).value.entry)
  {
    var before, last := run[..|run| - 1], run[|run| - 1];
    if LastStepWrite(cfg, run, key).None? {
      LastWriteRests(cfg, before, key);
      hide Step, WriteOf;
      RestsOn(cfg, After(cfg, before), last, key, LastWrite(cfg, before, key).value.entry);
    }
  }

  /** A durable entry without a block hash is served by every later Get until it
      expires or its key is written again, whatever is evicted and whatever
      reorgs happen in between. PutImmortal and putNegative make such entries. */
  lemma {:induction false} HashlessEntriesStay(cfg: Settings, run: seq<Event>, key: Key, now: Instant)
    requires cfg.enabled && LastWrite(cfg, run, key).Some?
    requires LastWrite(cfg, run, key).value.durable && LastWrite(cfg, run, key).value.entry.hash == ""
    ensures var e := LastWrite(cfg, run, key).value.entry;
            Found(cfg, After(cfg, run), key, now) == if e.expiry >= Millis(now) then Some(e.body) else None
  {
    LastWriteRests(cfg, run, key);
    EmptyHashValid(cfg, After(cfg, run), LastWrite(cfg, run, key).value.entry);
    hide After, LastWrite, EntryValid;
  }

  /** A PutImmortal body is returned by every later Get until its key is overwritten. */
  lemma {:induction false} ImmortalStays(cfg: Settings, run: seq<Event>, key: Key, body: seq<byte>, chain: Chain,
                                         now: Instant)
    requires cfg.enabled && LastWrite(cfg, run, key) == Some(ImmortalWrite(key, body, chain))
    ensures Found(cfg, After(cfg, run), key, now) == Some(body)
  {
    HashlessEntriesStay(cfg, run, key, now);
  }

  /* ---------- Settled entries ---------- */

  lemma {:induction false} HeadsSplit(a: seq<Event>, b: seq<Event>)
    ensures Heads(a + b) == Heads(a) + Heads(b)
  {
    if b == [] {
      assert a + b == a;
    } else {
      HeadsSplit(a, b[..|b| - 1]);
      assert (a + b)[..|a + b| - 1] == a + b[..|b| - 1];
    }
  }

  /** An entry whose block is past the reorg depth when Put stores it never
      expires, goes to disk, and from then on, through any run, only another hash
      known for its own height can make it invalid; its age never does. */
  lemma SettledEntriesStay(cfg: Settings, run: seq<Event>, more: seq<Event>, key: Key, body: seq<byte>, ttl: int,
                           chain: Chain, number: Height, hash: Hash, now: Instant, later: Instant)
    requires number > 0
    requires Tip(After(cfg, run).index, chain) > number + ReorgDepth(cfg.depths, chain)
    ensures var w := PutWrite(cfg, After(cfg, run), key, body, ttl, chain, number, hash, now, later);
            var s := After(cfg, run + more);
            && w.durable && w.entry == CacheEntry(NEVER, body, chain, hash, number)
            && (EntryValid(cfg, s, w.entry) <==>
                  hash == "" || At(Hashes(s.index, chain), number) in {None, Some(hash)})
  {
    IndexOfRun(cfg, run);
    IndexOfRun(cfg, run + more);
    HeadsSplit(run, more);
    TipNeverFalls(cfg.depths, Heads(run), Heads(more), chain);
    hide After, Heads, Tracked, Hashes, Tip;
  }

  /* ---------- Overwritten bodies ---------- */

  /** The writes the code makes: Put under canonical keys only, for one of the two
      configured lifetimes, and PutImmortal under sub-call keys only. */
  predicate Issued(cfg: Settings, e: Event) {
    && (e.Put? ==> e.key.Canonical? && e.ttl in {cfg.ttlLatest, cfg.ttlBlock})
    && (e.PutImmortal? ==> e.key.Sub?)
  }

  /** Memory can still answer with the last write. */
  predicate LastServes(cfg: Settings, s: Store, key: Key, w: Write, now: Instant) {
    key in s.mem && s.mem[key] == w.entry && Serves(cfg, s, s.mem, key, now)
  }

  /** The disk can answer with another body than the given one. */
  predicate OldServes(cfg: Settings, s: Store, key: Key, body: seq<byte>, now: Instant) {
    Serves(cfg, s, s.disk, key, now) && s.disk[key].body != body
  }

  /** What memory holds under the key is the given write or is on disk as well. */
  predicate Backed(s: Store, key: Key, w: Option<Write>) {
    key in s.mem ==> (w.Some? && s.mem[key] == w.value.entry) || (key in s.disk && s.disk[key] == s.mem[key])
  }

  lemma StaysBacked(cfg: Settings, s: Store, e: Event, key: Key, w: Option<Write>)
    requires Backed(s, key, w)
    ensures var made := WriteOf(cfg, s, e);
            Backed(Step(cfg, s, e), key, if made.Some? && made.value.key == key then made else w)
  {
    hide PutWrite, HashValid, Updated, Contradicts;
  }

  /** Memory never holds anything but the last write without the disk holding it too. */
  lemma {:induction false} OldIsOnDisk(cfg: Settings, run: seq<Event>, key: Key)
    ensures Backed(After(cfg, run), key, LastWrite(cfg, run, key))
  {
    if run != [] {
      var before, e := run[..|run| - 1], run[|run| - 1];
      OldIsOnDisk(cfg, before, key);
      StaysBacked(cfg, After(cfg, before), e, key, LastWrite(cfg, before, key));
      hide Step, WriteOf, Backed;
    }
  }

  /** When a Get answers with a body other than the last one written under its
      key, at any moment of any run: exactly when the last write never reached the
      disk, the disk still holds a usable entry with another body, and memory no
      longer serves the last write, because it lapsed, was outdated or was dropped.
      With the writes the code makes this happens to canonical keys only. */
  lemma {:induction false} OverwrittenBodyExactly(cfg: Settings, run: seq<Event>, key: Key, now: Instant)
    requires cfg.enabled && LastWrite(cfg, run, key).Some?
    ensures var s, w := After(cfg, run), LastWrite(cfg, run, key).value;
            var stale := Found(cfg, s, key, now) !in {None, Some(w.entry.body)};
            && (stale <==> !w.durable && OldServes(cfg, s, key, w.entry.body, now) && !LastServes(cfg, s, key, w, now))
            && (stale && (forall e :: e in run ==> Issued(cfg, e)) ==> key.Canonical?)
  {
    TiersHoldLastWrites(cfg, run, key);
    OldIsOnDisk(cfg, run, key);
    if LastWrite(cfg, run, key).value.durable {
      DurableIsLast(cfg, run, key);
    } else {
      LastWriteShape(cfg, run, key);
    }
    hide After, LastWrite, LastDurable, EntryValid;
  }

  /** A write that misses the disk was a Put. */
  lemma {:induction false} LastWriteShape(cfg: Settings, run: seq<Event>, key: Key)
    requires LastWrite(cfg, run, key).Some? && !LastWrite(cfg, run, key).value.durable
    ensures exists e :: e in run && e.Put? && e.key == key
  {
    var before, e := run[..|run| - 1], run[|run| - 1];
    assert e in run;
    if LastStepWrite(cfg, run, key).None? {
      LastWriteShape(cfg, before, key);
      var p :| p in before && p.Put? && p.key == key;
      assert p in run;
    }
  }

  /** The same seen from one Put: it lets the body before it come back exactly
      when it is too short-lived for the disk and the disk can still serve another
      body; at once when memory drops the new entry, and otherwise as soon as the
      new entry has lapsed or is outdated. */
  lemma {:induction false} PutLetsOldBodyBack(cfg: Settings, run: seq<Event>, put: Event, key: Key, now: Instant)
    requires cfg.enabled && put.Put? && put.key == key && put.ttl > 0
    ensures var s, t := After(cfg, run), After(cfg, run + [put]);
            var w := PutWrite(cfg, s, key, put.body, put.ttl, put.chain, put.number, put.hash, put.now, put.later);
            var back := !w.durable && OldServes(cfg, s, key, put.body, now);
            && (Found(cfg, t, key, now) !in {None, Some(put.body)} <==>
                  back && !(w.entry.expiry >= Millis(now) && EntryValid(cfg, s, w.entry)))
            && (Found(cfg, Step(cfg, t, Evict({key})), key, now) !in {None, Some(put.body)} <==> back)
  {
    Extended(cfg, run, put);
    PutEffect(cfg, After(cfg, run), put);
    var s, t := After(cfg, run), After(cfg, run + [put]);
    var gone := Step(cfg, t, Evict({key}));
    assert gone.mem == t.mem - {key} && gone.disk == t.disk && gone.index == t.index;
    SameIndex(cfg, s, t);
    SameIndex(cfg, s, gone);
    hide After, Step, PutWrite, EntryValid;
  }

  lemma PutEffect(cfg: Settings, s: Store, put: Event)
    requires cfg.enabled && put.Put? && put.ttl > 0
    ensures var w := PutWrite(cfg, s, put.key, put.body, put.ttl, put.chain, put.number, put.hash, put.now, put.later);
            Step(cfg, s, put) == Written(s, w) && w.key == put.key && w.entry.body == put.body
  {
  }

  lemma SameIndex(cfg: Settings, s: Store, t: Store)
    requires s.index == t.index
    ensures forall e: CacheEntry :: EntryValid(cfg, s, e) == EntryValid(cfg, t, e)
  {
  }

  /** A run in which it happens, with both writes for the lifetime of answers that
      follow the tip: with the tip at 9, an answer about block 5 is settled and kept
      for good, an answer about block 9 under the same key stays in memory only, and
      once that has lapsed the first one is served again. */
  lemma {:induction false} OverwrittenBodyComesBack()
    ensures var cfg := Settings(true, map["1" := 1], 250_000_000, 86_400_000_000_000);
            var key := Canonical("k");
            var run := [Report(Head("1", 9, "h9", None)),
                        Put(key, [1], 250_000_000, "1", 5, "h5", 0, 0),
                        Put(key, [2], 250_000_000, "1", 9, "h9", 0, 0)];
            && (forall e :: e in run ==> Issued(cfg, e))
            && LastWrite(cfg, run, key).value.entry.body == [2]
            && Found(cfg, After(cfg, run), key, 300_000_000) == Some([1])
  {
    var cfg := Settings(true, map["1" := 1], 250_000_000, 86_400_000_000_000);
    var key := Canonical("k");
    var head: Event := Report(Head("1", 9, "h9", None));
    var first: Event := Put(key, [1], 250_000_000, "1", 5, "h5", 0, 0);
    var second: Event := Put(key, [2], 250_000_000, "1", 9, "h9", 0, 0);
    var none: seq<Event> := [];
    var run := none + [head] + [first];
    Extended(cfg, none, head);
    Extended(cfg, none + [head], first);
    Extended(cfg, run, second);
    assert run + [second] == [head, first, second];
    var s := After(cfg, none + [head]);
    assert s.index.latest == map["1" := 9] && s.index.hashes == map["1" := map[9 := "h9"]];
    assert s.mem == map[] && s.disk == map[];
    var settled := CacheEntry(NEVER, [1], "1", "h5", 5);
    assert WriteOf(cfg, s, first) == Some(Write(key, settled, true));
    assert After(cfg, run) == Written(s, Write(key, settled, true));
    assert WriteOf(cfg, After(cfg, run), second) == Some(Write(key, CacheEntry(250, [2], "1", "h9", 9), false));
    assert (run + [second])[..2] == run;
  }

  lemma {:induction false} DurableIsLast(cfg: Settings, run: seq<Event>, key: Key)
    requires LastWrite(cfg, run, key).Some? && LastWrite(cfg, run, key).value.durable
    ensures LastDurable(cfg, run, key) == LastWrite(cfg, run, key)
  {
    if LastStepWrite(cfg, run, key).None? {
      DurableIsLast(cfg, run[..|run| - 1], key);
    }
  }

  /* ---------- Reorgs ---------- */

  /** A reorg empties its own chain out of memory and touches nothing else. */
  lemma {:induction false} ReorgIsLocal(cfg: Settings, s: Store, head: Head, key: Key)
    ensures var t := Reported(cfg, s, head);
            && t.disk == s.disk
            && (key in s.mem && (s.mem[key].chain != head.chain || !Contradicts(s.index, head)) ==>
                  key in t.mem && t.mem[key] == s.mem[key])
            && (key in t.mem ==> key in s.mem && t.mem[key] == s.mem[key])
            && (Contradicts(s.index, head) && key in t.mem ==> t.mem[key].chain != head.chain)
  {
    hide Contradicts, Updated;
  }
}
