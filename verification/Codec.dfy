/** The Multicall3 codec: what an aggregate3 call and its answer are in ABI
    terms, and the two encoders that fill a byte buffer in place. */
module Codec {
  import opened Words
  import Abi

  type Address = a: seq<byte> | |a| == 20 witness Zeros(20)

  datatype Call3 = Call3(target: Address, allowFailure: bool, callData: seq<byte>)

  datatype CallResult = CallResult(success: bool, returnData: seq<byte>)

  /** aggregate3((address,bool,bytes)[]) */
  const SELECTOR: seq<byte> := [0x82, 0xad, 0x56, 0xcb]

  function CallValue(c: Call3): Abi.Value {
    Abi.Tuple([Abi.Address(c.target), Abi.Bool(c.allowFailure), Abi.Bytes(c.callData)])
  }

  function CallValues(calls: seq<Call3>): (xs: seq<Abi.Value>)
    ensures |xs| == |calls|
    ensures forall i :: 0 <= i < |calls| ==> xs[i] == CallValue(calls[i])
  {
    seq(|calls|, i requires 0 <= i < |calls| => CallValue(calls[i]))
  }

  function ResultValue(r: CallResult): Abi.Value {
    Abi.Tuple([Abi.Bool(r.success), Abi.Bytes(r.returnData)])
  }

  function ResultValues(results: seq<CallResult>): (xs: seq<Abi.Value>)
    ensures |xs| == |results|
    ensures forall i :: 0 <= i < |results| ==> xs[i] == ResultValue(results[i])
  {
    seq(|results|, i requires 0 <= i < |results| => ResultValue(results[i]))
  }

  /** The calldata of aggregate3(calls): the selector, then the encoded argument tuple. */
  function CallsBytes(calls: seq<Call3>): seq<byte> {
    SELECTOR + Abi.Enc(Abi.Tuple([Abi.Array(CallValues(calls))]))
  }

  /** The return data of aggregate3: the encoded tuple of its one result. */
  function ResultsBytes(results: seq<CallResult>): seq<byte> {
    Abi.Enc(Abi.Tuple([Abi.Array(ResultValues(results))]))
  }

  function CallBytes(c: Call3): (s: seq<byte>)
    ensures |s| == 128 + Ceil32(|c.callData|)
  {
    Zeros(12) + c.target + Word(if c.allowFailure then 1 else 0) + Word(96)
    + Word(|c.callData|) + Abi.PadRight(c.callData)
  }

  function ResultBytes(r: CallResult): (s: seq<byte>)
    ensures |s| == 96 + Ceil32(|r.returnData|)
  {
    Word(if r.success then 1 else 0) + Word(64) + Word(|r.returnData|) + Abi.PadRight(r.returnData)
  }

  /* ---------- The ABI encoding, flattened ---------- */

  lemma CallLayout(c: Call3)
    ensures Abi.Dynamic(CallValue(c))
    ensures Abi.Enc(CallValue(c)) == CallBytes(c)
  {
    hide Word, Abi.PadRight;
    var ps := [Abi.Address(c.target), Abi.Bool(c.allowFailure), Abi.Bytes(c.callData)];
    assert Abi.Dynamic(ps[2]) && !Abi.Dynamic(ps[0]) && !Abi.Dynamic(ps[1]);
    var h0, h1 := Zeros(12) + c.target, Word(if c.allowFailure then 1 else 0);
    var b := Word(|c.callData|) + Abi.PadRight(c.callData);
    assert Abi.Enc(ps[0]) == h0 && Abi.Enc(ps[1]) == h1 && Abi.Enc(ps[2]) == b;
    ThreeParts(ps, h0, h1, b);
    var l := Word(|c.callData|);
    assert CallBytes(c) == (h0 + h1 + Word(96)) + l + Abi.PadRight(c.callData);
  }

  /** A tuple of two static words and one dynamic part. */
  lemma ThreeParts(ps: seq<Abi.Value>, h0: seq<byte>, h1: seq<byte>, b: seq<byte>)
    requires |ps| == 3 && !Abi.Dynamic(ps[0]) && !Abi.Dynamic(ps[1]) && Abi.Dynamic(ps[2])
    requires Abi.Enc(ps[0]) == h0 && Abi.Enc(ps[1]) == h1 && Abi.Enc(ps[2]) == b && |h0| == |h1| == 32
    ensures Abi.Enc(Abi.Tuple(ps)) == (h0 + h1 + Word(96)) + b
  {
    hide Word, Abi.Dynamic;
    assert Abi.HeadsLength(ps, 1) == 32;
    assert Abi.HeadsLength(ps, 2) == 64;
    assert Abi.HeadsLength(ps, 3) == 96;
    assert Abi.Tails(ps, 1) == [];
    assert Abi.Tails(ps, 2) == [];
    assert Abi.Tails(ps, 3) == b;
    assert Abi.Heads(ps, 1) == h0;
    assert Abi.Heads(ps, 2) == h0 + h1;
    assert Abi.Heads(ps, 3) == h0 + h1 + Word(96);
  }

  lemma ResultLayout(r: CallResult)
    ensures Abi.Dynamic(ResultValue(r))
    ensures Abi.Enc(ResultValue(r)) == ResultBytes(r)
  {
    hide Word, Abi.PadRight;
    var ps := [Abi.Bool(r.success), Abi.Bytes(r.returnData)];
    assert Abi.Dynamic(ps[1]) && !Abi.Dynamic(ps[0]);
    var h0, b := Word(if r.success then 1 else 0), Word(|r.returnData|) + Abi.PadRight(r.returnData);
    assert Abi.Enc(ps[0]) == h0 && Abi.Enc(ps[1]) == b;
    TwoParts(ps, h0, b);
    var l := Word(|r.returnData|);
    assert ResultBytes(r) == (h0 + Word(64)) + l + Abi.PadRight(r.returnData);
  }

  lemma TwoParts(ps: seq<Abi.Value>, h0: seq<byte>, b: seq<byte>)
    requires |ps| == 2 && !Abi.Dynamic(ps[0]) && Abi.Dynamic(ps[1])
    requires Abi.Enc(ps[0]) == h0 && Abi.Enc(ps[1]) == b && |h0| == 32
    ensures Abi.Enc(Abi.Tuple(ps)) == (h0 + Word(64)) + b
  {
    hide Word, Abi.Dynamic;
    assert Abi.HeadsLength(ps, 1) == 32;
    assert Abi.HeadsLength(ps, 2) == 64;
    assert Abi.Tails(ps, 1) == [];
    assert Abi.Tails(ps, 2) == b;
    assert Abi.Heads(ps, 1) == h0;
    assert Abi.Heads(ps, 2) == h0 + Word(64);
  }

  lemma ArgumentLayout(xs: seq<Abi.Value>)
    ensures Abi.Enc(Abi.Tuple([Abi.Array(xs)])) == Word(32) + Abi.Enc(Abi.Array(xs))
  {
    var ps := [Abi.Array(xs)];
    assert Abi.HeadsLength(ps, 1) == 32;
    assert Abi.Tails(ps, 0) == [];
    assert Abi.Heads(ps, 1) == Word(32);
    assert Abi.Tails(ps, 1) == Abi.Enc(Abi.Array(xs));
  }

  lemma {:induction false} CallsLayout(calls: seq<Call3>)
    ensures var xs := CallValues(calls);
            && Abi.AllDynamic(xs)
            && (forall i :: 0 <= i < |calls| ==> Abi.Tail(xs[i]) == CallBytes(calls[i]))
            && CallsBytes(calls) == SELECTOR + (Word(32) + (Word(|calls|)
                                    + (Abi.Heads(xs, |calls|) + Abi.Tails(xs, |calls|))))
            && |CallsBytes(calls)| == 68 + 32 * |calls| + |Abi.Tails(xs, |calls|)|
            && CallsBytes(calls)[..4] == [0x82, 0xad, 0x56, 0xcb]
  {
    var xs := CallValues(calls);
    forall i | 0 <= i < |calls|
      ensures Abi.Dynamic(xs[i]) && Abi.Tail(xs[i]) == CallBytes(calls[i])
    {
      CallLayout(calls[i]);
    }
    ArgumentLayout(xs);
    Abi.AllDynamicHeads(xs, |xs|);
  }

  lemma ResultsLayout(results: seq<CallResult>)
    ensures var xs := ResultValues(results);
            && Abi.AllDynamic(xs)
            && (forall i :: 0 <= i < |results| ==> Abi.Tail(xs[i]) == ResultBytes(results[i]))
            && ResultsBytes(results) == Word(32) + (Word(|results|)
                                        + (Abi.Heads(xs, |results|) + Abi.Tails(xs, |results|)))
            && |ResultsBytes(results)| == 64 + 32 * |results| + |Abi.Tails(xs, |results|)|
  {
    var xs := ResultValues(results);
    forall i | 0 <= i < |results|
      ensures Abi.Dynamic(xs[i]) && Abi.Tail(xs[i]) == ResultBytes(results[i])
    {
      ResultLayout(results[i]);
    }
    ArgumentLayout(xs);
    Abi.AllDynamicHeads(xs, |xs|);
  }

  /* ---------- Filling a zeroed buffer from the front ---------- */

  /** done has been written; the rest of the buffer is still zero. */
  ghost predicate Filled(buf: array<byte>, done: seq<byte>)
    reads buf
  {
    |done| <= buf.Length && buf[..] == done + Zeros(buf.Length - |done|)
  }

  lemma NothingDone(buf: array<byte>)
    requires forall k :: 0 <= k < buf.Length ==> buf[k] == 0
    ensures Filled(buf, [])
  {
  }

  lemma EverythingDone(buf: array<byte>, done: seq<byte>)
    requires Filled(buf, done) && |done| == buf.Length
    ensures buf[..] == done
  {
  }

  lemma Skip(buf: array<byte>, base: seq<byte>, part: seq<byte>, k: nat)
    requires Filled(buf, base + part) && |base + part| + k <= buf.Length
    ensures Filled(buf, base + (part + Zeros(k)))
  {
    assert base + (part + Zeros(k)) == base + part + Zeros(k);
  }

  /** Go's copy(buf[pos:], src). */
  method Put(buf: array<byte>, pos: nat, src: seq<byte>, ghost base: seq<byte>, ghost part: seq<byte>)
    requires Filled(buf, base + part) && pos == |base| + |part| && pos + |src| <= buf.Length
    modifies buf
    ensures Filled(buf, base + (part + src))
  {
    forall k | 0 <= k < |src| {
      buf[pos + k] := src[k];
    }
    assert forall k :: 0 <= k < pos ==> buf[k] == old(buf[..])[k] == (base + part)[k];
    assert forall k :: pos + |src| <= k < buf.Length ==> buf[k] == old(buf[..])[k] == 0;
    assert base + (part + src) == base + part + src;
  }

  /** writeUint256 touches the low eight bytes of the word at pos. */
  method WriteUint256(buf: array<byte>, pos: nat, v: nat, ghost base: seq<byte>, ghost part: seq<byte>)
    requires Filled(buf, base + part) && pos == |base| + |part| && pos + 32 <= buf.Length && v < TWO_64
    modifies buf
    ensures Filled(buf, base + (part + Word(v)))
  {
    hide Filled;
    Skip(buf, base, part, 24);
    Put(buf, pos + 24, BigEndian(v, 8), base, part + Zeros(24));
    WordLayout(v);
    assert part + Zeros(24) + BigEndian(v, 8) == part + Word(v);
  }

  /** A Go bool slot: only its last byte is ever written. */
  method PutBool(buf: array<byte>, pos: nat, b: bool, ghost base: seq<byte>, ghost part: seq<byte>)
    requires Filled(buf, base + part) && pos == |base| + |part| && pos + 32 <= buf.Length
    modifies buf
    ensures Filled(buf, base + (part + Word(if b then 1 else 0)))
  {
    hide Filled;
    BigEndianSplit(if b then 1 else 0, 32, 1);
    var v: byte := if b then 1 else 0;
    assert BigEndian(v, 1) == [v];
    if b {
      Skip(buf, base, part, 31);
      Put(buf, pos + 31, [1], base, part + Zeros(31));
      assert part + Zeros(31) + [1] == part + Word(1);
    } else {
      Skip(buf, base, part, 32);
      assert Zeros(31) + [0] == Zeros(32) == Word(0);
    }
  }

  method PutPadded(buf: array<byte>, pos: nat, data: seq<byte>, ghost base: seq<byte>, ghost part: seq<byte>)
    requires Filled(buf, base + part) && pos == |base| + |part| && pos + Ceil32(|data|) <= buf.Length
    modifies buf
    ensures Filled(buf, base + (part + Abi.PadRight(data)))
  {
    hide Filled;
    Put(buf, pos, data, base, part);
    Skip(buf, base, part + data, Ceil32(|data|) - |data|);
    assert part + data + Zeros(Ceil32(|data|) - |data|) == part + Abi.PadRight(data);
  }

  method PutCall(buf: array<byte>, start: nat, c: Call3, ghost done: seq<byte>) returns (pos: nat)
    requires Filled(buf, done) && start == |done| && start + |CallBytes(c)| <= buf.Length < TWO_63
    modifies buf
    ensures Filled(buf, done + CallBytes(c)) && pos == start + |CallBytes(c)|
  {
    hide Filled;
    pos := start;
    assert done + [] == done;
    Skip(buf, done, [], 12);
    ghost var d := [] + Zeros(12);
    assert d == Zeros(12);
    Put(buf, pos + 12, c.target, done, d);
    d, pos := d + c.target, pos + 32;
    PutBool(buf, pos, c.allowFailure, done, d);
    d, pos := d + Word(if c.allowFailure then 1 else 0), pos + 32;
    WriteUint256(buf, pos, 96, done, d);
    d, pos := d + Word(96), pos + 32;
    WriteUint256(buf, pos, |c.callData|, done, d);
    d, pos := d + Word(|c.callData|), pos + 32;
    PutPadded(buf, pos, c.callData, done, d);
    pos := pos + Ceil32(|c.callData|);
  }

  method PutResult(buf: array<byte>, start: nat, r: CallResult, ghost done: seq<byte>) returns (pos: nat)
    requires Filled(buf, done) && start == |done| && start + |ResultBytes(r)| <= buf.Length < TWO_63
    modifies buf
    ensures Filled(buf, done + ResultBytes(r)) && pos == start + |ResultBytes(r)|
  {
    hide Filled;
    pos := start;
    assert done + [] == done;
    PutBool(buf, pos, r.success, done, []);
    ghost var d := [] + Word(if r.success then 1 else 0);
    assert d == Word(if r.success then 1 else 0);
    pos := pos + 32;
    WriteUint256(buf, pos, 64, done, d);
    d, pos := d + Word(64), pos + 32;
    WriteUint256(buf, pos, |r.returnData|, done, d);
    d, pos := d + Word(|r.returnData|), pos + 32;
    PutPadded(buf, pos, r.returnData, done, d);
    pos := pos + Ceil32(|r.returnData|);
  }

  /** offsets holds, for each item, where its tail starts past the offset table. */
  ghost predicate OffsetsOf(offsets: seq<nat>, xs: seq<Abi.Value>, k: nat) {
    k <= |xs| == |offsets| && forall j :: 0 <= j < k ==> offsets[j] == 32 * |xs| + |Abi.Tails(xs, j)|
  }

  /** The offset table, written after whatever precedes it. */
  method PutOffsets(buf: array<byte>, start: nat, offsets: array<nat>, ghost xs: seq<Abi.Value>, ghost done: seq<byte>)
    returns (pos: nat)
    requires buf != offsets as object
    requires Filled(buf, done) && start == |done| && Abi.AllDynamic(xs)
    requires start + 32 * |xs| + |Abi.Tails(xs, |xs|)| <= buf.Length < TWO_63
    requires OffsetsOf(offsets[..], xs, |xs|)
    modifies buf
    ensures Filled(buf, done + Abi.Heads(xs, |xs|)) && pos == start + 32 * |xs|
  {
    hide Filled;
    pos := start;
    Abi.AllDynamicHeads(xs, |xs|);
    assert done + Abi.Heads(xs, 0) == done;
    for i := 0 to offsets.Length
      invariant pos == start + 32 * i && |Abi.Heads(xs, i)| == 32 * i
      invariant Filled(buf, done + Abi.Heads(xs, i))
      invariant OffsetsOf(offsets[..], xs, |xs|)
    {
      Abi.AllDynamicHeads(xs, i + 1);
      Abi.TailsPrefix(xs, i, |xs|);
      WriteUint256(buf, pos, offsets[i], done, Abi.Heads(xs, i));
      assert offsets[i] == offsets[..][i];
      pos := pos + 32;
    }
  }

  /** The first pass of encodeAggregate3: where each tuple will start. */
  method CallOffsets(calls: seq<Call3>, ghost xs: seq<Abi.Value>) returns (tupleOffsets: array<nat>, runningOffset: nat)
    requires |xs| == |calls| && forall i :: 0 <= i < |calls| ==> Abi.Tail(xs[i]) == CallBytes(calls[i])
    ensures fresh(tupleOffsets) && OffsetsOf(tupleOffsets[..], xs, |xs|)
    ensures runningOffset == 32 * |xs| + |Abi.Tails(xs, |xs|)|
  {
    hide Abi.Tail, Abi.Enc, Abi.Dynamic, CallBytes;
    tupleOffsets := new nat[|calls|];
    runningOffset := |calls| * 32;
    for i := 0 to |calls|
      invariant runningOffset == 32 * |xs| + |Abi.Tails(xs, i)|
      invariant OffsetsOf(tupleOffsets[..], xs, i)
    {
      tupleOffsets[i] := runningOffset;
      runningOffset := runningOffset + 128 + Ceil32(|calls[i].callData|);
    }
  }

  /** The first pass of encodeAggregate3Result. */
  method ResultOffsets(results: seq<CallResult>, ghost xs: seq<Abi.Value>)
    returns (elemOffsets: array<nat>, running: nat)
    requires |xs| == |results| && forall i :: 0 <= i < |results| ==> Abi.Tail(xs[i]) == ResultBytes(results[i])
    ensures fresh(elemOffsets) && OffsetsOf(elemOffsets[..], xs, |xs|)
    ensures running == 32 * |xs| + |Abi.Tails(xs, |xs|)|
  {
    hide Abi.Tail, Abi.Enc, Abi.Dynamic, ResultBytes;
    elemOffsets := new nat[|results|];
    running := |results| * 32;
    for i := 0 to |results|
      invariant running == 32 * |xs| + |Abi.Tails(xs, i)|
      invariant OffsetsOf(elemOffsets[..], xs, i)
    {
      elemOffsets[i] := running;
      running := running + 96 + Ceil32(|results[i].returnData|);
    }
  }

  /** The last pass of encodeAggregate3: the tuples themselves. */
  method PutCalls(buf: array<byte>, start: nat, calls: seq<Call3>, ghost xs: seq<Abi.Value>, ghost done: seq<byte>)
    requires |xs| == |calls| && forall i :: 0 <= i < |calls| ==> Abi.Tail(xs[i]) == CallBytes(calls[i])
    requires Filled(buf, done) && start == |done| && start + |Abi.Tails(xs, |xs|)| == buf.Length < TWO_63
    modifies buf
    ensures buf[..] == done + Abi.Tails(xs, |xs|)
  {
    hide Filled, Abi.Tail, Abi.Enc, Abi.Dynamic, CallBytes;
    var pos := start;
    assert done + Abi.Tails(xs, 0) == done;
    for i := 0 to |calls|
      invariant pos == start + |Abi.Tails(xs, i)|
      invariant Filled(buf, done + Abi.Tails(xs, i))
    {
      Abi.TailsPrefix(xs, i + 1, |xs|);
      pos := PutCall(buf, pos, calls[i], done + Abi.Tails(xs, i));
      assert done + Abi.Tails(xs, i + 1) == done + Abi.Tails(xs, i) + CallBytes(calls[i]);
    }
    EverythingDone(buf, done + Abi.Tails(xs, |xs|));
  }

  /** The last pass of encodeAggregate3Result. */
  method PutResults(buf: array<byte>, start: nat, results: seq<CallResult>, ghost xs: seq<Abi.Value>,
                    ghost done: seq<byte>)
    requires |xs| == |results| && forall i :: 0 <= i < |results| ==> Abi.Tail(xs[i]) == ResultBytes(results[i])
    requires Filled(buf, done) && start == |done| && start + |Abi.Tails(xs, |xs|)| == buf.Length < TWO_63
    modifies buf
    ensures buf[..] == done + Abi.Tails(xs, |xs|)
  {
    hide Filled, Abi.Tail, Abi.Enc, Abi.Dynamic, ResultBytes;
    var pos := start;
    assert done + Abi.Tails(xs, 0) == done;
    for i := 0 to |results|
      invariant pos == start + |Abi.Tails(xs, i)|
      invariant Filled(buf, done + Abi.Tails(xs, i))
    {
      Abi.TailsPrefix(xs, i + 1, |xs|);
      pos := PutResult(buf, pos, results[i], done + Abi.Tails(xs, i));
      assert done + Abi.Tails(xs, i + 1) == done + Abi.Tails(xs, i) + ResultBytes(results[i]);
    }
    EverythingDone(buf, done + Abi.Tails(xs, |xs|));
  }

  /** encodeAggregate3: the in-place fill is the ABI encoding, for every call
      list whose encoding a Go slice can hold. */
  method EncodeAggregate3(calls: seq<Call3>) returns (buf: array<byte>)
    requires |CallsBytes(calls)| < TWO_63
    ensures fresh(buf) && buf[..] == CallsBytes(calls)
  {
    hide Filled, Abi.Enc, Abi.Tail, Abi.Dynamic, CallBytes, CallValues;
    ghost var xs := CallValues(calls);
    CallsLayout(calls);
    var tupleOffsets, runningOffset := CallOffsets(calls, xs);
    buf := new byte[4 + 32 + 32 + runningOffset](_ => 0);
    NothingDone(buf);
    var pos := 0;
    ghost var none: seq<byte> := [];
    assert none + none == none;
    Put(buf, pos, SELECTOR, none, none);
    assert none + (none + SELECTOR) == SELECTOR + none;
    pos := pos + 4;
    WriteUint256(buf, pos, 32, SELECTOR, none);
    assert none + Word(32) == Word(32);
    pos := pos + 32;
    WriteUint256(buf, pos, |calls|, SELECTOR, Word(32));
    pos := pos + 32;
    ghost var head := SELECTOR + (Word(32) + Word(|calls|));
    pos := PutOffsets(buf, pos, tupleOffsets, xs, head);
    Abi.AllDynamicHeads(xs, |xs|);
    PutCalls(buf, pos, calls, xs, head + Abi.Heads(xs, |xs|));
    Rejoined(SELECTOR, Word(32), Word(|calls|), Abi.Heads(xs, |xs|), Abi.Tails(xs, |xs|));
  }

  lemma Rejoined(s: seq<byte>, a: seq<byte>, b: seq<byte>, c: seq<byte>, d: seq<byte>)
    ensures s + (a + b) + c + d == s + (a + (b + (c + d)))
  {
  }

  /** encodeAggregate3Result: likewise for a result list. */
  method EncodeAggregate3Result(results: seq<CallResult>) returns (buf: array<byte>)
    requires |ResultsBytes(results)| < TWO_63
    ensures fresh(buf) && buf[..] == ResultsBytes(results)
  {
    hide Filled, Abi.Enc, Abi.Tail, Abi.Dynamic, ResultBytes, ResultValues;
    ghost var xs := ResultValues(results);
    ResultsLayout(results);
    var elemOffsets, running := ResultOffsets(results, xs);
    buf := new byte[32 + 32 + running](_ => 0);
    NothingDone(buf);
    var pos := 0;
    ghost var none: seq<byte> := [];
    assert none + none == none;
    WriteUint256(buf, pos, 32, none, none);
    assert none + Word(32) == Word(32);
    pos := pos + 32;
    WriteUint256(buf, pos, |results|, none, Word(32));
    pos := pos + 32;
    ghost var head := none + (Word(32) + Word(|results|));
    pos := PutOffsets(buf, pos, elemOffsets, xs, head);
    Abi.AllDynamicHeads(xs, |xs|);
    PutResults(buf, pos, results, xs, head + Abi.Heads(xs, |xs|));
    Rejoined(none, Word(32), Word(|results|), Abi.Heads(xs, |xs|), Abi.Tails(xs, |xs|));
  }
}
