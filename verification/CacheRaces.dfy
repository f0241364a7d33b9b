/** Get and Put as two steps each: between a Get's read of the disk and what it
    does with the entry it read, and between a Put's read of the tip and its write,
    every other operation of the store may run. */
module CacheRaces {
  import opened Options
  import opened Words
  import opened Tracker
  import opened Cache

  /** A Get that has read the disk and not yet used what it read, or a Put that has
      made its entry and not yet written it. */
  datatype Half = Load(key: Key, entry: CacheEntry, now: Instant) | Prepared(write: Write)

  datatype Machine = Machine(store: Store, pending: seq<Option<Half>>)

  /** A whole operation, the first half of a Get or of a Put, or the second half of
      either. */
  datatype Move = Whole(e: Event) | Read(key: Key, now: Instant) | Prepare(put: Event) | Finish(half: nat)

  /** Get up to its disk read: memory may answer, or drop an outdated entry. */
  function ReadStep(cfg: Settings, m: Machine, key: Key, now: Instant): Machine {
    var s := m.store;
    if !cfg.enabled || Serves(cfg, s, s.mem, key, now) then m
    else
      var s' := if Outdated(cfg, s, s.mem, key, now) then s.(mem := s.mem - {key}) else s;
      Machine(s', if key in s.disk then m.pending + [Some(Load(key, s.disk[key], now))] else m.pending)
  }

  /** Put up to the making of its entry. */
  function PrepareStep(cfg: Settings, m: Machine, put: Event): Machine {
    match if put.Put? then WriteOf(cfg, m.store, put) else None
    case Some(w) => m.(pending := m.pending + [Some(Prepared(w))])
    case None => m
  }

  /** The rest of a Get: the entry read is promoted, or its key dropped from disk.
      The rest of a Put: the write. */
  function FinishStep(cfg: Settings, s: Store, h: Half): Store {
    match h
    case Load(key, entry, now) =>
      if entry.expiry < Millis(now) then s
      else if EntryValid(cfg, s, entry) then s.(mem := s.mem[key := entry])
      else s.(disk := s.disk - {key})
    case Prepared(w) => Written(s, w)
  }

  function HalfAt(m: Machine, k: nat): Option<Half> {
    if k < |m.pending| then m.pending[k] else None
  }

  function MoveStep(cfg: Settings, m: Machine, move: Move): Machine {
    match move
    case Whole(e) => m.(store := Step(cfg, m.store, e))
    case Read(key, now) => ReadStep(cfg, m, key, now)
    case Prepare(put) => PrepareStep(cfg, m, put)
    case Finish(k) =>
      match HalfAt(m, k)
      case Some(h) => Machine(FinishStep(cfg, m.store, h), m.pending[k := None])
      case None => m
  }

  function AfterMoves(cfg: Settings, run: seq<Move>): Machine {
    if run == [] then Machine(Opened, [])
    else MoveStep(cfg, AfterMoves(cfg, run[..|run| - 1]), run[|run| - 1])
  }

  function MoveWrite(cfg: Settings, m: Machine, move: Move): Option<Write> {
    match move
    case Whole(e) => WriteOf(cfg, m.store, e)
    case Finish(k) => (match HalfAt(m, k)
                       case Some(Prepared(w)) => Some(w)
                       case _ => None)
    case _ => None
  }

  /** The two halves, one right after the other, are the whole. */
  lemma {:induction false} HalvesMakeGet(cfg: Settings, m: Machine, key: Key, now: Instant)
    ensures var half := ReadStep(cfg, m, key, now);
            (if |half.pending| > |m.pending| then MoveStep(cfg, half, Finish(|m.pending|)).store else half.store)
            == Looked(cfg, m.store, key, now)
  {
    var s, half := m.store, ReadStep(cfg, m, key, now);
    if key in s.disk {
      assert half.store.index == s.index;
      assert EntryValid(cfg, half.store, s.disk[key]) == EntryValid(cfg, s, s.disk[key]);
    }
    hide EntryValid;
  }

  /** The same for Put. */
  lemma {:induction false} HalvesMakePut(cfg: Settings, m: Machine, put: Event)
    requires put.Put?
    ensures var half := PrepareStep(cfg, m, put);
            (if |half.pending| > |m.pending| then MoveStep(cfg, half, Finish(|m.pending|)).store else half.store)
            == Step(cfg, m.store, put)
  {
    hide PutWrite;
  }

  /** A Get in progress that has read the key. */
  predicate LoadOf(h: Option<Half>, key: Key) {
    h.Some? && h.value.Load? && h.value.key == key
  }

  /** Everything the machine holds under a key has a property. */
  ghost predicate Holds(m: Machine, key: Key, good: CacheEntry -> bool) {
    && (key in m.store.mem ==> good(m.store.mem[key]))
    && (key in m.store.disk ==> good(m.store.disk[key]))
    && forall k :: 0 <= k < |m.pending| && LoadOf(m.pending[k], key) ==> good(m.pending[k].value.entry)
  }

  lemma MoveHolds(cfg: Settings, m: Machine, move: Move, key: Key, good: CacheEntry -> bool)
    requires Holds(m, key, good)
    requires var w := MoveWrite(cfg, m, move); w.Some? && w.value.key == key ==> good(w.value.entry)
    ensures Holds(MoveStep(cfg, m, move), key, good)
  {
    hide EntryValid, WriteOf;
    if move.Whole? {
      StepAt(cfg, m.store, move.e, key);
      hide Step;
    }
  }

  /** Every write under the key in a run has the property. */
  ghost predicate WritesAre(cfg: Settings, run: seq<Move>, key: Key, good: CacheEntry -> bool) {
    run == [] ||
    (WritesAre(cfg, run[..|run| - 1], key, good)
     && var w := MoveWrite(cfg, AfterMoves(cfg, run[..|run| - 1]), run[|run| - 1]);
        (w.Some? && w.value.key == key ==> good(w.value.entry)))
  }

  /** Whatever is true of all writes under a key is true of all a Get can find
      there, in memory, on disk or in another Get's hands: nothing is ever served
      that was not stored under that key. */
  lemma {:induction false} OnlyWhatWasWritten(cfg: Settings, run: seq<Move>, key: Key, good: CacheEntry -> bool)
    requires WritesAre(cfg, run, key, good)
    ensures Holds(AfterMoves(cfg, run), key, good)
  {
    hide MoveStep, MoveWrite;
    if run != [] {
      var before := run[..|run| - 1];
      OnlyWhatWasWritten(cfg, before, key, good);
      MoveHolds(cfg, AfterMoves(cfg, before), run[|run| - 1], key, good);
    }
  }

  predicate IsImmortal(body: seq<byte>, e: CacheEntry) {
    e.expiry == NEVER && e.body == body && e.hash == ""
  }

  lemma MoveKeepsOnDisk(cfg: Settings, m: Machine, move: Move, key: Key, body: seq<byte>)
    requires Holds(m, key, e => IsImmortal(body, e)) && key in m.store.disk
    ensures key in MoveStep(cfg, m, move).store.disk
  {
    hide PutWrite, Updated, Contradicts, HashValid;
    forall e: CacheEntry | e.hash == ""
      ensures EntryValid(cfg, m.store, e)
    {
      EmptyHashValid(cfg, m.store, e);
    }
  }

  /** Some write of the run was made under the key. */
  predicate WrittenIn(cfg: Settings, run: seq<Move>, key: Key) {
    run != [] &&
    (WrittenIn(cfg, run[..|run| - 1], key)
     || var w := MoveWrite(cfg, AfterMoves(cfg, run[..|run| - 1]), run[|run| - 1]); w.Some? && w.value.key == key)
  }

  /** No move of the run is a Put under the key. */
  predicate NoPuts(run: seq<Move>, key: Key) {
    forall move :: move in run ==>
      && (move.Whole? && move.e.Put? ==> move.e.key != key)
      && (move.Prepare? && move.put.Put? ==> move.put.key != key)
  }

  predicate NonePrepared(m: Machine, key: Key) {
    forall k :: 0 <= k < |m.pending| && m.pending[k].Some? && m.pending[k].value.Prepared? ==>
      m.pending[k].value.write.key != key
  }

  lemma {:induction false} NoPutsPending(cfg: Settings, run: seq<Move>, key: Key)
    requires NoPuts(run, key)
    ensures NonePrepared(AfterMoves(cfg, run), key)
  {
    if run != [] {
      var before, move := run[..|run| - 1], run[|run| - 1];
      assert move in run;
      NoPutsPending(cfg, before, key);
      NonePreparedOn(cfg, AfterMoves(cfg, before), move, key);
      hide MoveStep;
    }
  }

  lemma NonePreparedOn(cfg: Settings, m: Machine, move: Move, key: Key)
    requires NonePrepared(m, key) && (move.Prepare? && move.put.Put? ==> move.put.key != key)
    ensures NonePrepared(MoveStep(cfg, m, move), key)
  {
    hide Step, FinishStep, EntryValid;
  }

  /** A write under the key that is not a Put reaches the disk at once. */
  lemma WrittenNow(cfg: Settings, m: Machine, move: Move, key: Key)
    requires NonePrepared(m, key) && (move.Whole? && move.e.Put? ==> move.e.key != key)
    requires MoveWrite(cfg, m, move).Some? && MoveWrite(cfg, m, move).value.key == key
    ensures key in MoveStep(cfg, m, move).store.disk
  {
    hide EntryValid, Updated, Contradicts;
  }

  lemma {:induction false} ImmortalOnDisk(cfg: Settings, run: seq<Move>, key: Key, body: seq<byte>)
    requires WritesAre(cfg, run, key, e => IsImmortal(body, e)) && WrittenIn(cfg, run, key) && !key.Neg?
    requires NoPuts(run, key)
    ensures key in AfterMoves(cfg, run).store.disk
  {
    var before, move := run[..|run| - 1], run[|run| - 1];
    assert move in run;
    var m := AfterMoves(cfg, before);
    if WrittenIn(cfg, before, key) {
      ImmortalOnDisk(cfg, before, key, body);
      OnlyWhatWasWritten(cfg, before, key, e => IsImmortal(body, e));
      MoveKeepsOnDisk(cfg, m, move, key, body);
      hide MoveStep;
    } else {
      NoPutsPending(cfg, before, key);
      WrittenNow(cfg, m, move, key);
      hide MoveStep;
    }
  }

  /** An immutable sub-call's entry, always written with the same body, survives
      every interleaving: once written it is found by every later Get. */
  lemma {:induction false} ImmortalSurvivesRaces(cfg: Settings, run: seq<Move>, key: Key, body: seq<byte>, now: Instant)
    requires cfg.enabled && key.Sub?
    requires WritesAre(cfg, run, key, e => IsImmortal(body, e)) && WrittenIn(cfg, run, key)
    requires forall move :: move in run ==>
               (move.Whole? ==> Issued(cfg, move.e)) && (move.Prepare? ==> Issued(cfg, move.put))
    ensures Found(cfg, AfterMoves(cfg, run).store, key, now) == Some(body)
  {
    ImmortalOnDisk(cfg, run, key, body);
    OnlyWhatWasWritten(cfg, run, key, e => IsImmortal(body, e));
    var s := AfterMoves(cfg, run).store;
    EmptyHashValid(cfg, s, s.disk[key]);
    if key in s.mem {
      EmptyHashValid(cfg, s, s.mem[key]);
    }
    hide EntryValid, AfterMoves;
  }

  /** What does not survive: a Get that read the disk before a newer durable write
      promotes the older entry over it, and the older body is served again. */
  lemma PromotionUndoesWrite()
    ensures var cfg := Settings(true, map[], 250_000_000, 1_000_000_000);
            var key := Canonical("k");
            var run := [Whole(Put(key, [1], 1_000_000_000, "1", 0, "", 0, 0)), Whole(Evict({key})), Read(key, 0),
                        Whole(Put(key, [2], 1_000_000_000, "1", 0, "", 0, 0)), Finish(0)];
            Found(cfg, AfterMoves(cfg, run).store, key, 0) == Some([1])
  {
    var cfg := Settings(true, map[], 250_000_000, 1_000_000_000);
    var key := Canonical("k");
    var put1: Event := Put(key, [1], 1_000_000_000, "1", 0, "", 0, 0);
    var put2: Event := Put(key, [2], 1_000_000_000, "1", 0, "", 0, 0);
    var evict: Event := Evict({key});
    var earlier, newer := CacheEntry(1000, [1], "1", "", 0), CacheEntry(1000, [2], "1", "", 0);
    var none: seq<Move> := [];
    var a := none + [Whole(put1)];
    var b := a + [Whole(evict)];
    var c := b + [Read(key, 0)];
    var d := c + [Whole(put2)];
    Moved(cfg, none, Whole(put1));
    Moved(cfg, a, Whole(evict));
    Moved(cfg, b, Read(key, 0));
    Moved(cfg, c, Whole(put2));
    Moved(cfg, d, Finish(0));
    assert d + [Finish(0)] == [Whole(put1), Whole(evict), Read(key, 0), Whole(put2), Finish(0)];
    assert AfterMoves(cfg, a) == Machine(Store(NoIndex, map[key := earlier], map[key := earlier]), []);
    assert AfterMoves(cfg, b) == Machine(Store(NoIndex, map[], map[key := earlier]), []);
    assert AfterMoves(cfg, c) == Machine(Store(NoIndex, map[], map[key := earlier]), [Some(Load(key, earlier, 0))]);
    assert AfterMoves(cfg, d).store == Store(NoIndex, map[key := newer], map[key := newer]);
  }

  lemma Moved(cfg: Settings, run: seq<Move>, move: Move)
    ensures AfterMoves(cfg, run + [move]) == MoveStep(cfg, AfterMoves(cfg, run), move)
  {
    assert (run + [move])[..|run + [move]| - 1] == run;
  }

  /** Nor does the purge: a Put that read the tip before a reorg writes its entry
      after the purge. Only the check of its block hash keeps it from being served. */
  lemma {:induction false} PutOutlivesPurge()
    ensures var cfg := Settings(true, map["1" := 1], 250_000_000, 86_400_000_000_000);
            var key := Canonical("k");
            var run := [Whole(Report(Head("1", 9, "a", None))), Prepare(Put(key, [1], 250_000_000, "1", 0, "", 0, 0)),
                        Whole(Report(Head("1", 9, "b", None))), Finish(0)];
            var s := AfterMoves(cfg, run).store;
            && key in s.mem && s.mem[key].hash == "a"
            && Found(cfg, s, key, 0) == None
  {
    var cfg := Settings(true, map["1" := 1], 250_000_000, 86_400_000_000_000);
    var key := Canonical("k");
    var first, second: Event := Report(Head("1", 9, "a", None)), Report(Head("1", 9, "b", None));
    var put: Event := Put(key, [1], 250_000_000, "1", 0, "", 0, 0);
    var e := CacheEntry(250, [1], "1", "a", 9);
    var none: seq<Move> := [];
    var a := none + [Whole(first)];
    var b := a + [Prepare(put)];
    var c := b + [Whole(second)];
    Moved(cfg, none, Whole(first));
    Moved(cfg, a, Prepare(put));
    Moved(cfg, b, Whole(second));
    Moved(cfg, c, Finish(0));
    assert c + [Finish(0)] == [Whole(first), Prepare(put), Whole(second), Finish(0)];
    FirstReport(cfg, "a");
    SecondReport(cfg, "a", "b");
    PreparedAtNine(cfg, key, put, e);
    StampedOut(cfg, key, e);
    hide Reported, PrepareStep, Found, HashValid;
    assert AfterMoves(cfg, a) == Machine(Store(AtNine("a", "a"), map[], map[]), []);
    assert AfterMoves(cfg, b) == Machine(Store(AtNine("a", "a"), map[], map[]), [Some(Prepared(Write(key, e, false)))]);
    assert AfterMoves(cfg, c) == Machine(Store(AtNine("b", "a"), map[], map[]), [Some(Prepared(Write(key, e, false)))]);
  }

  /** The tip at 9, with the hash now known there and the one first reported. */
  function AtNine(hash: Hash, first: Hash): Index {
    Index(map["1" := map[9 := hash]], map["1" := 9], map["1" := first])
  }

  lemma PreparedAtNine(cfg: Settings, key: Key, put: Event, e: CacheEntry)
    requires cfg == Settings(true, map["1" := 1], 250_000_000, 86_400_000_000_000)
    requires put == Put(key, [1], 250_000_000, "1", 0, "", 0, 0) && e == CacheEntry(250, [1], "1", "a", 9)
    ensures PrepareStep(cfg, Machine(Store(AtNine("a", "a"), map[], map[]), []), put)
         == Machine(Store(AtNine("a", "a"), map[], map[]), [Some(Prepared(Write(key, e, false)))])
  {
  }

  lemma StampedOut(cfg: Settings, key: Key, e: CacheEntry)
    requires e.chain == "1" && e.hash == "a" && e.number == 9
    ensures Found(cfg, Store(AtNine("b", "a"), map[key := e], map[]), key, 0) == None
  {
  }

  lemma FirstReport(cfg: Settings, hash: Hash)
    requires cfg.depths == map["1" := 1]
    ensures Reported(cfg, Opened, Head("1", 9, hash, None)) == Store(AtNine(hash, hash), map[], map[])
  {
    assert Recorded(NoIndex, Head("1", 9, hash, None)) == AtNine(hash, hash);
  }

  lemma SecondReport(cfg: Settings, first: Hash, second: Hash)
    requires cfg.depths == map["1" := 1]
    ensures Reported(cfg, Store(AtNine(first, first), map[], map[]), Head("1", 9, second, None))
         == Store(AtNine(second, first), map[], map[])
  {
    var known: map<Height, Hash> := map[9 := first];
    assert known[9 := second] == map[9 := second];
    assert Recorded(AtNine(first, first), Head("1", 9, second, None)) == AtNine(second, first);
    assert Purged(map[], "1") == map[];
  }
}
