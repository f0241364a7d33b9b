/** The Solidity contract ABI, as its specification defines it ("Formal
    Specification of the Encoding"): a recursive head/tail encoding of values,
    independent of any buffer or running offset. */
module Abi {
  import opened Words

  datatype Value =
    | Uint(n: nat)
    | Bool(b: bool)
    | Address(a: seq<byte>)
    | Bytes(data: seq<byte>)
    | Tuple(parts: seq<Value>)
    | Array(items: seq<Value>)

  /** Dynamic values are encoded out of line, behind an offset. */
  predicate Dynamic(x: Value) {
    match x
    case Bytes(_) => true
    case Array(_) => true
    case Tuple(ps) => exists i :: 0 <= i < |ps| && Dynamic(ps[i])
    case _ => false
  }

  function PadRight(data: seq<byte>): (s: seq<byte>)
    ensures |s| == Ceil32(|data|)
  {
    data + Zeros(Ceil32(|data|) - |data|)
  }

  function PadLeft(data: seq<byte>): seq<byte> {
    if |data| <= 32 then Zeros(32 - |data|) + data else data
  }

  function Enc(x: Value): seq<byte>
    decreases x, 4
  {
    match x
    case Uint(n) => Word(n)
    case Bool(b) => Word(if b then 1 else 0)
    case Address(a) => PadLeft(a)
    case Bytes(d) => Word(|d|) + PadRight(d)
    case Tuple(ps) => Heads(ps, |ps|) + Tails(ps, |ps|)
    case Array(xs) => Word(|xs|) + (Heads(xs, |xs|) + Tails(xs, |xs|))
  }

  /** tail(X): the encoding of a dynamic value, nothing for a static one. */
  function Tail(x: Value): seq<byte>
    decreases x, 5
  {
    if Dynamic(x) then Enc(x) else []
  }

  /** The summed length of the first k heads. */
  function HeadsLength(xs: seq<Value>, k: nat): nat
    requires k <= |xs|
    decreases xs, 0, k
  {
    if k == 0 then 0
    else HeadsLength(xs, k - 1) + if Dynamic(xs[k - 1]) then 32 else |Enc(xs[k - 1])|
  }

  /** tail(X1) ... tail(Xk). */
  function Tails(xs: seq<Value>, k: nat): seq<byte>
    requires k <= |xs|
    decreases xs, 0, k
  {
    if k == 0 then [] else Tails(xs, k - 1) + Tail(xs[k - 1])
  }

  /** head(Xi): a static value in place, or the offset of its tail, which is
      the length of all the heads and of the tails before it. */
  function Head(xs: seq<Value>, i: nat): seq<byte>
    requires i < |xs|
    decreases xs, 1
  {
    if Dynamic(xs[i]) then Word(HeadsLength(xs, |xs|) + |Tails(xs, i)|) else Enc(xs[i])
  }

  /** head(X1) ... head(Xk). */
  function Heads(xs: seq<Value>, k: nat): seq<byte>
    requires k <= |xs|
    decreases xs, 2, k
  {
    if k == 0 then [] else Heads(xs, k - 1) + Head(xs, k - 1)
  }

  ghost predicate AllDynamic(xs: seq<Value>) {
    forall i :: 0 <= i < |xs| ==> Dynamic(xs[i])
  }

  lemma {:induction false} AllDynamicHeads(xs: seq<Value>, k: nat)
    requires AllDynamic(xs) && k <= |xs|
    ensures HeadsLength(xs, k) == 32 * k && |Heads(xs, k)| == 32 * k
  {
    if k > 0 {
      AllDynamicHeads(xs, k - 1);
    }
  }

  lemma {:induction false} HeadsPrefix(xs: seq<Value>, i: nat, k: nat)
    requires i <= k <= |xs|
    ensures Heads(xs, i) <= Heads(xs, k)
  {
    if i < k {
      HeadsPrefix(xs, i, k - 1);
    }
  }

  lemma {:induction false} TailsPrefix(xs: seq<Value>, i: nat, k: nat)
    requires i <= k <= |xs|
    ensures Tails(xs, i) <= Tails(xs, k)
  {
    if i < k {
      TailsPrefix(xs, i, k - 1);
    }
  }

  lemma HeadAt(xs: seq<Value>, i: nat, off: nat, from: nat)
    requires AllDynamic(xs) && i < |xs|
    requires off == 32 * |xs| + |Tails(xs, i)| && from == 32 * i
    ensures |Heads(xs, |xs|)| == 32 * |xs|
    ensures Heads(xs, |xs|)[from..from + 32] == Word(off)
  {
    AllDynamicHeads(xs, |xs|);
    AllDynamicHeads(xs, i);
    HeadsPrefix(xs, i + 1, |xs|);
    SliceLast(Heads(xs, |xs|), Heads(xs, i), Head(xs, i));
  }

  lemma TailAt(xs: seq<Value>, i: nat, from: nat, to: nat)
    requires i < |xs| && Dynamic(xs[i])
    requires from == |Tails(xs, i)| && to == from + |Enc(xs[i])|
    ensures to <= |Tails(xs, |xs|)|
    ensures Tails(xs, |xs|)[from..to] == Enc(xs[i])
  {
    TailsPrefix(xs, i + 1, |xs|);
    SliceLast(Tails(xs, |xs|), Tails(xs, i), Enc(xs[i]));
  }

  /** Where a decoder finds the offset of item i of an encoded array of dynamic items. */
  lemma ArrayOffsetAt(xs: seq<Value>, i: nat, arr: seq<byte>, off: nat, from: nat)
    requires AllDynamic(xs) && i < |xs| && arr == Enc(Array(xs))
    requires off == 32 * |xs| + |Tails(xs, i)| && from == 32 + 32 * i
    ensures from + 32 <= 32 + 32 * |xs| <= |arr|
    ensures arr[from..from + 32] == Word(off)
  {
    HeadAt(xs, i, off, 32 * i);
    var w, hs, ts := Word(|xs|), Heads(xs, |xs|), Tails(xs, |xs|);
    SliceOf(arr, w, hs, ts, from, from + 32, 32 * i, 32 * i + 32);
  }

  /** Where a decoder finds item i itself: 32 bytes past its offset. */
  lemma ArrayItemAt(xs: seq<Value>, i: nat, arr: seq<byte>, from: nat, to: nat)
    requires AllDynamic(xs) && i < |xs| && arr == Enc(Array(xs))
    requires from == 32 + 32 * |xs| + |Tails(xs, i)| && to == from + |Enc(xs[i])|
    ensures to <= |arr| && arr[from..to] == Enc(xs[i])
  {
    AllDynamicHeads(xs, |xs|);
    var t := |Tails(xs, i)|;
    TailAt(xs, i, t, t + |Enc(xs[i])|);
    var w, hs, ts := Word(|xs|), Heads(xs, |xs|), Tails(xs, |xs|);
    assert arr == (w + hs) + (ts + []);
    SliceOf(arr, w + hs, ts, [], from, to, t, t + |Enc(xs[i])|);
  }
}
