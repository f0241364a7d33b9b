/** The two decoders, with Go's integer conversions and slice checks spelled
    out: an index Go would refuse is the outcome Fault, never undefined. */
module Decoder {
  import opened Words
  import opened Codec
  import Abi

  datatype Outcome<+T> = Decoded(value: T) | Rejected | Fault

  /** s[lo:hi], or Fault when the bounds do not hold. */
  function Slice(s: seq<byte>, lo: int, hi: int): Outcome<seq<byte>> {
    if 0 <= lo <= hi <= |s| then Decoded(s[lo..hi]) else Fault
  }

  /** The bytes value whose offset is held in the word at `at` of tuple, as
      decodeAggregate3Calls reads it. */
  function CallDataAt(tuple: seq<byte>, at: nat): Outcome<seq<byte>>
    requires at + 32 <= |tuple|
  {
    var off := WordAt(tuple, at);
    var hi := (off + 32) % TWO_64;
    if WrapInt(ToInt(off) + 32) > |tuple| then Rejected
    else if !(off <= hi <= |tuple|) then Fault
    else
      var len := WordAt(tuple, off);
      var start := WrapInt(ToInt(off) + 32);
      if WrapInt(start + ToInt(len)) > |tuple| then Rejected
      else Slice(tuple, start, WrapInt(start + ToInt(len)))
  }

  /** Tuple i of the array arr of decodeAggregate3Calls. */
  function CallAt(arr: seq<byte>, i: nat): Outcome<Call3>
    requires 64 + 32 * i <= |arr|
  {
    var off := WordAt(arr, 32 + 32 * i);
    var abs := WrapInt(32 + ToInt(off));
    if abs < 0 || WrapInt(abs + 96) > |arr| then Rejected
    else if abs > |arr| || |arr| - abs < 96 then Fault
    else
      var tuple := arr[abs..];
      match CallDataAt(tuple, 64)
      case Decoded(data) => Decoded(Call3(tuple[12..32], tuple[63] != 0, data))
      case Rejected => Rejected
      case Fault => Fault
  }

  /** The first k tuples, or the first thing that goes wrong among them. */
  function CallsUpTo(arr: seq<byte>, k: nat): (o: Outcome<seq<Call3>>)
    requires 32 + 32 * k <= |arr|
    ensures o.Decoded? ==> |o.value| == k
  {
    if k == 0 then Decoded([])
    else
      match CallsUpTo(arr, k - 1)
      case Decoded(calls) =>
        (match CallAt(arr, k - 1)
         case Decoded(c) => Decoded(calls + [c])
         case Rejected => Rejected
         case Fault => Fault)
      case other => other
  }

  /** The bounds decodeAggregate3Calls sets on the array length. */
  function CallCount(arr: seq<byte>): Outcome<nat>
    requires |arr| >= 32
  {
    var n := WordAt(arr, 0);
    if n == 0 || n > 10000 || |arr| < 32 + n * 32 then Rejected else Decoded(n)
  }

  /** The argument array of aggregate3 calldata. */
  function CallArray(data: seq<byte>): (o: Outcome<seq<byte>>)
    ensures o.Decoded? ==> |o.value| >= 32
  {
    if |data| < 4 || data[..4] != SELECTOR then Rejected
    else
      var args := data[4..];
      if |args| < 32 then Rejected
      else
        var off := WordAt(args, 0);
        if ToInt(off) > |args| || WrapInt(|args| - ToInt(off)) < 32 then Rejected
        else if off > |args| || |args| - off < 32 then Fault
        else Decoded(args[off..])
  }

  function DecodeCalls(data: seq<byte>): Outcome<seq<Call3>> {
    match CallArray(data)
    case Decoded(arr) =>
      (match CallCount(arr)
       case Decoded(n) => CallsUpTo(arr, n)
       case Rejected => Rejected
       case Fault => Fault)
    case Rejected => Rejected
    case Fault => Fault
  }

  /** The returnData of a result tuple; its offset and length stay uint64 here,
      so their sums wrap before they are compared. */
  function ReturnDataAt(tuple: seq<byte>): Outcome<seq<byte>>
    requires |tuple| >= 64
  {
    var off := WordAt(tuple, 32);
    var start := (off + 32) % TWO_64;
    if WrapInt(ToInt(off) + 32) > |tuple| then Rejected
    else if !(off <= start <= |tuple|) then Fault
    else
      var end := (start + WordAt(tuple, off)) % TWO_64;
      if ToInt(end) > |tuple| then Rejected else Slice(tuple, start, end)
  }

  function ResultAt(arr: seq<byte>, i: nat): Outcome<CallResult>
    requires 64 + 32 * i <= |arr|
  {
    var off := WordAt(arr, 32 + 32 * i);
    var abs := WrapInt(32 + ToInt(off));
    if abs >= |arr| then Rejected
    else if abs < 0 then Fault
    else
      var tuple := arr[abs..];
      if |tuple| < 64 then Rejected
      else
        match ReturnDataAt(tuple)
        case Decoded(data) => Decoded(CallResult(tuple[31] != 0, data))
        case Rejected => Rejected
        case Fault => Fault
  }

  function ResultsUpTo(arr: seq<byte>, k: nat): (o: Outcome<seq<CallResult>>)
    requires 32 + 32 * k <= |arr|
    ensures o.Decoded? ==> |o.value| == k
  {
    if k == 0 then Decoded([])
    else
      match ResultsUpTo(arr, k - 1)
      case Decoded(results) =>
        (match ResultAt(arr, k - 1)
         case Decoded(r) => Decoded(results + [r])
         case Rejected => Rejected
         case Fault => Fault)
      case other => other
  }

  function ResultArray(data: seq<byte>): (o: Outcome<seq<byte>>)
    ensures o.Decoded? ==> |o.value| >= 32
  {
    if |data| < 64 then Rejected
    else
      var off := WordAt(data, 0);
      if ToInt(off) >= |data| then Rejected
      else if off > |data| then Fault
      else if |data| - off < 32 then Rejected
      else Decoded(data[off..])
  }

  function ResultCount(arr: seq<byte>): Outcome<nat>
    requires |arr| >= 32
  {
    var n := WordAt(arr, 0);
    if n > 10000 || |arr| < 32 + n * 32 then Rejected else Decoded(n)
  }

  function DecodeResults(data: seq<byte>): Outcome<seq<CallResult>> {
    match ResultArray(data)
    case Decoded(arr) =>
      (match ResultCount(arr)
       case Decoded(n) => ResultsUpTo(arr, n)
       case Rejected => Rejected
       case Fault => Fault)
    case Rejected => Rejected
    case Fault => Fault
  }

  /* ---------- The loops ---------- */

  lemma {:induction false} CallsStop(arr: seq<byte>, k: nat, n: nat)
    requires k <= n && 32 + 32 * n <= |arr|
    requires !CallsUpTo(arr, k).Decoded?
    ensures CallsUpTo(arr, n) == CallsUpTo(arr, k)
  {
    hide CallAt;
    if k < n {
      CallsStop(arr, k, n - 1);
    }
  }

  lemma {:induction false} ResultsStop(arr: seq<byte>, k: nat, n: nat)
    requires k <= n && 32 + 32 * n <= |arr|
    requires !ResultsUpTo(arr, k).Decoded?
    ensures ResultsUpTo(arr, n) == ResultsUpTo(arr, k)
  {
    hide ResultAt;
    if k < n {
      ResultsStop(arr, k, n - 1);
    }
  }

  /** decodeAggregate3Calls */
  method DecodeAggregate3Calls(data: seq<byte>) returns (o: Outcome<seq<Call3>>)
    ensures o == DecodeCalls(data)
  {
    hide CallAt, CallArray;
    var found := CallArray(data);
    if !found.Decoded? {
      return if found.Rejected? then Rejected else Fault;
    }
    var arr := found.value;
    var count := CallCount(arr);
    if !count.Decoded? {
      return Rejected;
    }
    var n := count.value;
    var calls := new Call3[n](_ => Call3(Zeros(20), false, []));
    for i := 0 to n
      invariant CallsUpTo(arr, i) == Decoded(calls[..i])
    {
      var c := CallAt(arr, i);
      if !c.Decoded? {
        CallsStop(arr, i + 1, n);
        return if c.Rejected? then Rejected else Fault;
      }
      calls[i] := c.value;
      assert calls[..i + 1] == calls[..i] + [c.value];
    }
    assert calls[..] == calls[..n];
    return Decoded(calls[..]);
  }

  /** decodeAggregate3Result, on the bytes the hex text stands for. */
  method DecodeAggregate3Result(data: seq<byte>) returns (o: Outcome<seq<CallResult>>)
    ensures o == DecodeResults(data)
  {
    hide ResultAt, ResultArray;
    var found := ResultArray(data);
    if !found.Decoded? {
      return if found.Rejected? then Rejected else Fault;
    }
    var arrayData := found.value;
    var count := ResultCount(arrayData);
    if !count.Decoded? {
      return Rejected;
    }
    var n := count.value;
    var results := new CallResult[n](_ => CallResult(false, []));
    for i := 0 to n
      invariant ResultsUpTo(arrayData, i) == Decoded(results[..i])
    {
      var r := ResultAt(arrayData, i);
      if !r.Decoded? {
        ResultsStop(arrayData, i + 1, n);
        return if r.Rejected? then Rejected else Fault;
      }
      results[i] := r.value;
      assert results[..i + 1] == results[..i] + [r.value];
    }
    assert results[..] == results[..n];
    return Decoded(results[..]);
  }

  /* ---------- Decoding undoes encoding ---------- */

  /** A bytes value found where its offset says. */
  lemma BytesRoundTrip(tuple: seq<byte>, at: nat, off: nat, data: seq<byte>)
    requires at + 32 <= off && off + 32 + |data| <= |tuple| < TWO_63
    requires tuple[at..at + 32] == Word(off)
    requires tuple[off..off + 32] == Word(|data|)
    requires tuple[off + 32..off + 32 + |data|] == data
    ensures CallDataAt(tuple, at) == Decoded(data)
    ensures at == 32 ==> ReturnDataAt(tuple) == Decoded(data)
  {
    hide Word, WordAt;
    WordAtWritten(tuple, at, off);
    WordAtWritten(tuple, off, |data|);
  }

  /** The slices of an encoded call. */
  lemma CallParts(c: Call3, tuple: seq<byte>)
    requires CallBytes(c) <= tuple
    ensures tuple[12..32] == c.target
    ensures tuple[32..64] == Word(if c.allowFailure then 1 else 0)
    ensures tuple[64..96] == Word(96)
    ensures tuple[96..128] == Word(|c.callData|)
    ensures tuple[128..128 + |c.callData|] == c.callData
  {
    hide Word;
    var n := |c.callData|;
    var b := CallBytes(c);
    assert tuple[..|b|] == b;
    assert tuple[12..32] == b[12..32];
    assert tuple[32..64] == b[32..64];
    assert tuple[64..96] == b[64..96];
    assert tuple[96..128] == b[96..128];
    assert tuple[128..128 + n] == b[128..128 + n];
  }

  lemma LastByte(b: bool)
    ensures Word(if b then 1 else 0)[31] != 0 <==> b
  {
  }

  lemma CallRoundTrip(c: Call3, tuple: seq<byte>)
    requires CallBytes(c) <= tuple && |tuple| < TWO_63
    ensures |tuple| >= 96 && CallDataAt(tuple, 64) == Decoded(c.callData)
    ensures tuple[12..32] == c.target && (tuple[63] != 0 <==> c.allowFailure)
  {
    hide Word, CallDataAt, CallBytes;
    CallParts(c, tuple);
    LastByte(c.allowFailure);
    assert tuple[63] == tuple[32..64][31];
    BytesRoundTrip(tuple, 64, 96, c.callData);
  }

  lemma ResultParts(r: CallResult, tuple: seq<byte>)
    requires ResultBytes(r) <= tuple
    ensures tuple[..32] == Word(if r.success then 1 else 0)
    ensures tuple[32..64] == Word(64)
    ensures tuple[64..96] == Word(|r.returnData|)
    ensures tuple[96..96 + |r.returnData|] == r.returnData
  {
    hide Word;
    var n := |r.returnData|;
    var b := ResultBytes(r);
    assert tuple[..|b|] == b;
    assert tuple[..32] == b[..32];
    assert tuple[32..64] == b[32..64];
    assert tuple[64..96] == b[64..96];
    assert tuple[96..96 + n] == b[96..96 + n];
  }

  lemma ResultRoundTrip(r: CallResult, tuple: seq<byte>)
    requires ResultBytes(r) <= tuple && |tuple| < TWO_63
    ensures |tuple| >= 64 && ReturnDataAt(tuple) == Decoded(r.returnData)
    ensures tuple[31] != 0 <==> r.success
  {
    hide Word, ReturnDataAt, CallDataAt, ResultBytes;
    ResultParts(r, tuple);
    LastByte(r.success);
    assert tuple[31] == tuple[..32][31];
    BytesRoundTrip(tuple, 32, 64, r.returnData);
  }

  /** Item i of an encoded array, as a decoder reaches it. */
  lemma ItemReached(xs: seq<Abi.Value>, i: nat, arr: seq<byte>) returns (off: nat)
    requires Abi.AllDynamic(xs) && i < |xs| && arr == Abi.Enc(Abi.Array(xs)) && |arr| < TWO_63
    ensures 64 + 32 * i <= |arr| && off + 32 + |Abi.Enc(xs[i])| <= |arr|
    ensures WordAt(arr, 32 + 32 * i) == off
    ensures Abi.Enc(xs[i]) <= arr[32 + off..]
  {
    hide Word, Abi.Enc, WordAt;
    off := 32 * |xs| + |Abi.Tails(xs, i)|;
    Abi.ArrayOffsetAt(xs, i, arr, off, 32 + 32 * i);
    Abi.ArrayItemAt(xs, i, arr, 32 + off, 32 + off + |Abi.Enc(xs[i])|);
    WordAtWritten(arr, 32 + 32 * i, off);
    assert arr[32 + off..][..|Abi.Enc(xs[i])|] == arr[32 + off..32 + off + |Abi.Enc(xs[i])|];
  }

  lemma CallReached(calls: seq<Call3>, i: nat, arr: seq<byte>)
    requires i < |calls| && arr == Abi.Enc(Abi.Array(CallValues(calls))) && |arr| < TWO_63
    ensures 64 + 32 * i <= |arr| && CallAt(arr, i) == Decoded(calls[i])
  {
    hide Abi.Enc, Word, CallDataAt, CallBytes, WordAt, Abi.Tails, Abi.Heads, Abi.Dynamic;
    CallsLayout(calls);
    var off := ItemReached(CallValues(calls), i, arr);
    CallLayout(calls[i]);
    CallRoundTrip(calls[i], arr[32 + off..]);
  }

  lemma {:induction false} CallsRoundTrip(calls: seq<Call3>, k: nat, arr: seq<byte>)
    requires k <= |calls| && arr == Abi.Enc(Abi.Array(CallValues(calls))) && |arr| < TWO_63
    ensures 32 + 32 * |calls| <= |arr|
    ensures CallsUpTo(arr, k) == Decoded(calls[..k])
  {
    hide Abi.Enc, CallAt, CallValues;
    ArrayLength(CallValues(calls));
    if |calls| > 0 {
      CallReached(calls, |calls| - 1, arr);
    }
    if k > 0 {
      CallsRoundTrip(calls, k - 1, arr);
      CallReached(calls, k - 1, arr);
      assert calls[..k] == calls[..k - 1] + [calls[k - 1]];
    }
  }

  lemma ResultReached(results: seq<CallResult>, i: nat, arr: seq<byte>)
    requires i < |results| && arr == Abi.Enc(Abi.Array(ResultValues(results))) && |arr| < TWO_63
    ensures 64 + 32 * i <= |arr| && ResultAt(arr, i) == Decoded(results[i])
  {
    hide Abi.Enc, Word, ReturnDataAt, ResultBytes, WordAt, Abi.Tails, Abi.Heads, Abi.Dynamic;
    ResultsLayout(results);
    var off := ItemReached(ResultValues(results), i, arr);
    ResultLayout(results[i]);
    ResultRoundTrip(results[i], arr[32 + off..]);
  }

  lemma {:induction false} ResultsRoundTrip(results: seq<CallResult>, k: nat, arr: seq<byte>)
    requires k <= |results| && arr == Abi.Enc(Abi.Array(ResultValues(results))) && |arr| < TWO_63
    ensures 32 + 32 * |results| <= |arr|
    ensures ResultsUpTo(arr, k) == Decoded(results[..k])
  {
    hide Abi.Enc, ResultAt, ResultValues;
    ArrayLength(ResultValues(results));
    if |results| > 0 {
      ResultReached(results, |results| - 1, arr);
    }
    if k > 0 {
      ResultsRoundTrip(results, k - 1, arr);
      ResultReached(results, k - 1, arr);
      assert results[..k] == results[..k - 1] + [results[k - 1]];
    }
  }

  lemma ArrayLength(xs: seq<Abi.Value>)
    ensures |Abi.Enc(Abi.Array(xs))| >= 32
    ensures Abi.Enc(Abi.Array(xs))[0..32] == Word(|xs|)
  {
  }

  /** decodeAggregate3Calls inverts encodeAggregate3 on every call list the
      decoder's own length bounds admit, whatever the calldata. */
  lemma DecodeCallsInvertsEncode(calls: seq<Call3>)
    requires 1 <= |calls| <= 10000 && |CallsBytes(calls)| < TWO_63
    ensures DecodeCalls(CallsBytes(calls)) == Decoded(calls)
  {
    hide Abi.Enc, Word, WordAt, CallsUpTo;
    var xs := CallValues(calls);
    var data, arr := CallsBytes(calls), Abi.Enc(Abi.Array(xs));
    ArgumentLayout(xs);
    ArrayLength(xs);
    assert data[4..] == Word(32) + arr;
    assert data[4..][0..32] == Word(32) && data[4..][32..] == arr;
    WordAtWritten(data[4..], 0, 32);
    WordAtWritten(arr, 0, |calls|);
    CallsRoundTrip(calls, |calls|, arr);
    assert CallArray(data) == Decoded(arr);
    assert calls[..|calls|] == calls;
  }

  /** decodeAggregate3Result inverts encodeAggregate3Result, the empty list included. */
  lemma DecodeResultsInvertsEncode(results: seq<CallResult>)
    requires |results| <= 10000 && |ResultsBytes(results)| < TWO_63
    ensures DecodeResults(ResultsBytes(results)) == Decoded(results)
  {
    hide Abi.Enc, Word, WordAt, ResultsUpTo;
    var xs := ResultValues(results);
    var data, arr := ResultsBytes(results), Abi.Enc(Abi.Array(xs));
    ArgumentLayout(xs);
    ArrayLength(xs);
    assert data[0..32] == Word(32) && data[32..] == arr;
    WordAtWritten(data, 0, 32);
    WordAtWritten(arr, 0, |results|);
    ResultsRoundTrip(results, |results|, arr);
    assert ResultArray(data) == Decoded(arr);
    assert results[..|results|] == results;
  }

  /* ---------- Bounds on arbitrary input ---------- */

  /** The bytes value whose offset is the word at `at` lies inside the tuple. */
  predicate BytesFit(tuple: seq<byte>, at: nat)
    requires at + 32 <= |tuple|
  {
    var off := WordAt(tuple, at);
    off + 32 <= |tuple| && off + 32 + WordAt(tuple, off) <= |tuple|
  }

  /** Its offset, or the end its length gives it, is more than an int can hold. */
  predicate BytesWrap(tuple: seq<byte>, at: nat)
    requires at + 32 <= |tuple|
  {
    var off := WordAt(tuple, at);
    off >= TWO_63 - 32 || (off + 32 <= |tuple| && off + 32 + WordAt(tuple, off) >= TWO_63)
  }

  /** Where the i-th offset word of an array leads, by uint64 addition. */
  function TupleStart(arr: seq<byte>, i: nat): nat
    requires 64 + 32 * i <= |arr|
  {
    (32 + WordAt(arr, 32 + 32 * i)) % TWO_64
  }

  predicate CallFits(arr: seq<byte>, i: nat)
    requires 64 + 32 * i <= |arr|
  {
    TupleStart(arr, i) + 96 <= |arr| && BytesFit(arr[TupleStart(arr, i)..], 64)
  }

  /** The words of call i that the decoder's int arithmetic cannot hold. */
  predicate CallWraps(arr: seq<byte>, i: nat)
    requires 64 + 32 * i <= |arr|
  {
    || TWO_63 - 128 <= WordAt(arr, 32 + 32 * i) < TWO_63 - 32
    || (TupleStart(arr, i) + 96 <= |arr| && BytesWrap(arr[TupleStart(arr, i)..], 64))
  }

  predicate ResultFits(arr: seq<byte>, i: nat)
    requires 64 + 32 * i <= |arr|
  {
    TupleStart(arr, i) + 64 <= |arr| && BytesFit(arr[TupleStart(arr, i)..], 32)
  }

  predicate ResultWraps(arr: seq<byte>, i: nat)
    requires 64 + 32 * i <= |arr|
  {
    || TWO_63 - 32 <= WordAt(arr, 32 + 32 * i) < TWO_64 - 32
    || (TupleStart(arr, i) + 64 <= |arr| && BytesWrap(arr[TupleStart(arr, i)..], 32))
  }

  lemma CallBytesExactly(tuple: seq<byte>, at: nat)
    requires at + 32 <= |tuple| < TWO_63
    ensures CallDataAt(tuple, at).Decoded? <==> BytesFit(tuple, at)
    ensures CallDataAt(tuple, at).Fault? <==> BytesWrap(tuple, at)
  {
    hide WordAt;
  }

  lemma ReturnBytesExactly(tuple: seq<byte>)
    requires 64 <= |tuple| < TWO_63
    ensures ReturnDataAt(tuple).Decoded? <==> BytesFit(tuple, 32)
    ensures ReturnDataAt(tuple).Fault? <==> BytesWrap(tuple, 32)
  {
    hide WordAt;
  }

  lemma CallExactly(arr: seq<byte>, i: nat)
    requires 64 + 32 * i <= |arr| < TWO_63
    ensures CallAt(arr, i).Decoded? <==> CallFits(arr, i)
    ensures CallAt(arr, i).Fault? <==> CallWraps(arr, i)
  {
    hide WordAt, CallDataAt, BytesFit, BytesWrap;
    var start := TupleStart(arr, i);
    StartExactly(WordAt(arr, 32 + 32 * i), |arr|, 96);
    if start + 96 <= |arr| {
      CallBytesExactly(arr[start..], 64);
    }
  }

  lemma ResultExactly(arr: seq<byte>, i: nat)
    requires 64 + 32 * i <= |arr| < TWO_63
    ensures ResultAt(arr, i).Decoded? <==> ResultFits(arr, i)
    ensures ResultAt(arr, i).Fault? <==> ResultWraps(arr, i)
  {
    hide WordAt, ReturnDataAt, BytesFit, BytesWrap;
    var start := TupleStart(arr, i);
    StartExactly(WordAt(arr, 32 + 32 * i), |arr|, 64);
    if start + 64 <= |arr| {
      ReturnBytesExactly(arr[start..]);
    }
  }

  /** Where a uint64 offset leads in int arithmetic, against an array of n bytes. */
  lemma StartExactly(off: nat, n: nat, need: nat)
    requires off < TWO_64 && n < TWO_63 && need < 1000
    ensures var abs := WrapInt(32 + ToInt(off));
            && (TWO_63 - 32 <= off < TWO_64 - 32 <==> abs < 0)
            && (abs >= 0 ==> abs == (32 + off) % TWO_64)
            && (abs >= 0 ==> WrapInt(abs + need) == if abs + need < TWO_63 then abs + need else abs + need - TWO_64)
  {
  }

  /** Some call among the first n wraps, and those before it are in order. */
  predicate SomeCallWraps(arr: seq<byte>, n: nat)
    requires 32 + 32 * n <= |arr|
  {
    exists k :: 0 <= k < n && CallWraps(arr, k) && forall j :: 0 <= j < k ==> CallFits(arr, j)
  }

  predicate SomeResultWraps(arr: seq<byte>, n: nat)
    requires 32 + 32 * n <= |arr|
  {
    exists k :: 0 <= k < n && ResultWraps(arr, k) && forall j :: 0 <= j < k ==> ResultFits(arr, j)
  }

  lemma {:induction false} CallsExactly(arr: seq<byte>, n: nat)
    requires 32 + 32 * n <= |arr| < TWO_63
    ensures CallsUpTo(arr, n).Decoded? <==> forall j :: 0 <= j < n ==> CallFits(arr, j)
    ensures CallsUpTo(arr, n).Fault? <==> SomeCallWraps(arr, n)
  {
    hide CallAt, CallFits, CallWraps;
    if n > 0 {
      CallsExactly(arr, n - 1);
      CallExactly(arr, n - 1);
      assert SomeCallWraps(arr, n) <==>
             SomeCallWraps(arr, n - 1) || (CallWraps(arr, n - 1) && forall j :: 0 <= j < n - 1 ==> CallFits(arr, j));
    }
  }

  lemma {:induction false} ResultsExactly(arr: seq<byte>, n: nat)
    requires 32 + 32 * n <= |arr| < TWO_63
    ensures ResultsUpTo(arr, n).Decoded? <==> forall j :: 0 <= j < n ==> ResultFits(arr, j)
    ensures ResultsUpTo(arr, n).Fault? <==> SomeResultWraps(arr, n)
  {
    hide ResultAt, ResultFits, ResultWraps;
    if n > 0 {
      ResultsExactly(arr, n - 1);
      ResultExactly(arr, n - 1);
      assert SomeResultWraps(arr, n) <==>
             SomeResultWraps(arr, n - 1) ||
             (ResultWraps(arr, n - 1) && forall j :: 0 <= j < n - 1 ==> ResultFits(arr, j));
    }
  }

  /** The calldata on which decodeAggregate3Calls slices out of bounds: behind a
      correct selector, an array offset so large that its int is negative and the
      subtraction from the length does not overflow; or, in an array of acceptable
      length, a call that wraps with none wrong before it. */
  predicate CallDataWraps(data: seq<byte>) {
    && |data| >= 36 && data[..4] == SELECTOR
    && var args := data[4..];
       var off := WordAt(args, 0);
       || off > TWO_63 + |args|
       || (off + 32 <= |args|
           && var arr := args[off..];
              var n := WordAt(arr, 0);
              1 <= n <= 10000 && 32 + 32 * n <= |arr| && SomeCallWraps(arr, n))
  }

  /** The return data on which decodeAggregate3Result does. */
  predicate ResultDataWraps(data: seq<byte>) {
    && |data| >= 64
    && var off := WordAt(data, 0);
       || off >= TWO_63
       || (off + 32 <= |data|
           && var arr := data[off..];
              var n := WordAt(arr, 0);
              n <= 10000 && 32 + 32 * n <= |arr| && SomeResultWraps(arr, n))
  }

  /** decodeAggregate3Calls decodes or rejects every other byte string. */
  lemma DecodeCallsFaultsExactly(data: seq<byte>)
    requires |data| < TWO_63
    ensures DecodeCalls(data).Fault? <==> CallDataWraps(data)
  {
    hide WordAt, CallsUpTo, SomeCallWraps;
    if |data| >= 36 {
      var args := data[4..];
      var off := WordAt(args, 0);
      if off + 32 <= |args| {
        var arr := args[off..];
        var n := WordAt(arr, 0);
        if 32 + 32 * n <= |arr| {
          CallsExactly(arr, n);
        }
      }
    }
  }

  /** So does decodeAggregate3Result. */
  lemma DecodeResultsFaultsExactly(data: seq<byte>)
    requires |data| < TWO_63
    ensures DecodeResults(data).Fault? <==> ResultDataWraps(data)
  {
    hide WordAt, ResultsUpTo, SomeResultWraps;
    if |data| >= 64 {
      var off := WordAt(data, 0);
      if off + 32 <= |data| {
        var arr := data[off..];
        var n := WordAt(arr, 0);
        if 32 + 32 * n <= |arr| {
          ResultsExactly(arr, n);
        }
      }
    }
  }

  /* ---------- What is decoded ---------- */

  /** The bytes value whose offset is the word at `at`: as many bytes as the word there
      says, after that word. */
  function BytesThere(tuple: seq<byte>, at: nat): seq<byte>
    requires at + 32 <= |tuple| && BytesFit(tuple, at)
  {
    var off := WordAt(tuple, at);
    tuple[off + 32..off + 32 + WordAt(tuple, off)]
  }

  lemma BytesAreThere(tuple: seq<byte>, at: nat)
    requires at + 32 <= |tuple| < TWO_63 && BytesFit(tuple, at)
    ensures CallDataAt(tuple, at) == Decoded(BytesThere(tuple, at))
    ensures at == 32 && |tuple| >= 64 ==> ReturnDataAt(tuple) == Decoded(BytesThere(tuple, at))
  {
    hide WordAt;
  }

  /** Call i of the array: the last twenty bytes of its first word, whether the last byte
      of its second is not zero, and the bytes its third leads to. */
  ghost predicate CallThere(arr: seq<byte>, i: nat, c: Call3)
    requires 64 + 32 * i <= |arr|
  {
    && CallFits(arr, i)
    && var tuple := arr[TupleStart(arr, i)..];
       && c.target == tuple[12..32]
       && (c.allowFailure <==> tuple[63] != 0)
       && c.callData == BytesThere(tuple, 64)
  }

  ghost predicate ResultThere(arr: seq<byte>, i: nat, r: CallResult)
    requires 64 + 32 * i <= |arr|
  {
    && ResultFits(arr, i)
    && var tuple := arr[TupleStart(arr, i)..];
       && (r.success <==> tuple[31] != 0)
       && r.returnData == BytesThere(tuple, 32)
  }

  lemma CallIsThere(arr: seq<byte>, i: nat, c: Call3)
    requires 64 + 32 * i <= |arr| < TWO_63
    ensures CallAt(arr, i) == Decoded(c) <==> CallThere(arr, i, c)
  {
    CallExactly(arr, i);
    hide WordAt, CallDataAt, BytesFit, BytesThere;
    if CallFits(arr, i) {
      StartExactly(WordAt(arr, 32 + 32 * i), |arr|, 96);
      BytesAreThere(arr[TupleStart(arr, i)..], 64);
    }
  }

  lemma ResultIsThere(arr: seq<byte>, i: nat, r: CallResult)
    requires 64 + 32 * i <= |arr| < TWO_63
    ensures ResultAt(arr, i) == Decoded(r) <==> ResultThere(arr, i, r)
  {
    ResultExactly(arr, i);
    hide WordAt, ReturnDataAt, BytesFit, BytesThere;
    if ResultFits(arr, i) {
      StartExactly(WordAt(arr, 32 + 32 * i), |arr|, 64);
      BytesAreThere(arr[TupleStart(arr, i)..], 32);
    }
  }

  lemma {:induction false} CallsAreThere(arr: seq<byte>, calls: seq<Call3>)
    requires 32 + 32 * |calls| <= |arr| < TWO_63
    ensures CallsUpTo(arr, |calls|) == Decoded(calls) <==> forall i :: 0 <= i < |calls| ==> CallThere(arr, i, calls[i])
  {
    hide CallAt, CallThere;
    if calls != [] {
      var n := |calls| - 1;
      CallsAreThere(arr, calls[..n]);
      CallIsThere(arr, n, calls[n]);
      assert calls == calls[..n] + [calls[n]];
    }
  }

  lemma {:induction false} ResultsAreThere(arr: seq<byte>, rs: seq<CallResult>)
    requires 32 + 32 * |rs| <= |arr| < TWO_63
    ensures ResultsUpTo(arr, |rs|) == Decoded(rs) <==> forall i :: 0 <= i < |rs| ==> ResultThere(arr, i, rs[i])
  {
    hide ResultAt, ResultThere;
    if rs != [] {
      var n := |rs| - 1;
      ResultsAreThere(arr, rs[..n]);
      ResultIsThere(arr, n, rs[n]);
      assert rs == rs[..n] + [rs[n]];
    }
  }

  /** The calldata holds these calls: behind the selector, an offset inside it that leads
      to their number, 1 to 10000, and their offsets, each of which leads to one call. */
  ghost predicate CallDataHolds(data: seq<byte>, calls: seq<Call3>) {
    && |data| >= 36 && data[..4] == SELECTOR
    && var args := data[4..];
       var off := WordAt(args, 0);
       && off + 32 <= |args|
       && var arr := args[off..];
          && WordAt(arr, 0) == |calls| && 1 <= |calls| <= 10000 && 32 + 32 * |calls| <= |arr|
          && forall i :: 0 <= i < |calls| ==> CallThere(arr, i, calls[i])
  }

  /** The same for return data; there may be no result at all. */
  ghost predicate ResultDataHolds(data: seq<byte>, rs: seq<CallResult>) {
    && |data| >= 64
    && var off := WordAt(data, 0);
       && off + 32 <= |data|
       && var arr := data[off..];
          && WordAt(arr, 0) == |rs| <= 10000 && 32 + 32 * |rs| <= |arr|
          && forall i :: 0 <= i < |rs| ==> ResultThere(arr, i, rs[i])
  }

  /** On any bytes at all, these calls are decoded exactly when the calldata holds them. */
  lemma DecodeCallsExactly(data: seq<byte>, calls: seq<Call3>)
    requires |data| < TWO_63
    ensures DecodeCalls(data) == Decoded(calls) <==> CallDataHolds(data, calls)
  {
    hide WordAt, CallsUpTo, CallThere;
    if |data| >= 36 && data[..4] == SELECTOR {
      var args := data[4..];
      var off := WordAt(args, 0);
      if off + 32 <= |args| {
        var arr := args[off..];
        if 32 + 32 * |calls| <= |arr| {
          CallsAreThere(arr, calls);
        }
      }
    }
  }

  lemma DecodeResultsExactly(data: seq<byte>, rs: seq<CallResult>)
    requires |data| < TWO_63
    ensures DecodeResults(data) == Decoded(rs) <==> ResultDataHolds(data, rs)
  {
    hide WordAt, ResultsUpTo, ResultThere;
    if |data| >= 64 {
      var off := WordAt(data, 0);
      if off + 32 <= |data| {
        var arr := data[off..];
        if 32 + 32 * |rs| <= |arr| {
          ResultsAreThere(arr, rs);
        }
      }
    }
  }

  /** An input out of bounds for each: an array offset with all its bits set. */
  lemma AllOnesOffsetFaults()
    ensures var ones: seq<byte> := seq(32, _ => 255);
            DecodeCalls(SELECTOR + ones).Fault? && DecodeResults(ones + ones).Fault?
  {
    var ones: seq<byte> := seq(32, _ => 255);
    AllOnes(8);
    Power256Of8();
    assert ones[24..32] == seq(8, _ => 255);
    var data := SELECTOR + ones;
    assert data[4..] == ones && ones[0..32] == ones && data[..4] == SELECTOR;
    assert (ones + ones)[0..32] == ones;
    assert WordAt(ones, 0) == TWO_64 - 1 && WordAt(ones + ones, 0) == TWO_64 - 1;
    DecodeCallsFaultsExactly(data);
    DecodeResultsFaultsExactly(ones + ones);
  }

  lemma {:induction false} AllOnes(n: nat)
    ensures Value(seq(n, _ => 255)) == Power256(n) - 1
  {
    if n > 0 {
      AllOnes(n - 1);
      assert seq(n, _ => 255 as byte)[..n - 1] == seq(n - 1, _ => 255 as byte);
    }
  }
}
