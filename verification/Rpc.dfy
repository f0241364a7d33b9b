/** JSON-RPC requests and replies, with the JSON text already parsed. */
module Rpc {
  import opened Words
  import opened Collections
  import opened Codec

  /** A raw JSON id: a decimal as strconv.Itoa writes it, another spelling that
      parseWireID reads as a number, an id minted for a fused call, or anything else. */
  datatype Id = Wire(n: nat) | Spelled(number: int, text: string) | Synthetic(ticket: nat) | Other(text: string)

  /** A hex string field of a call object; the empty string counts as absent. */
  datatype Hex = Absent | HexBytes(bytes: seq<byte>) | Malformed(text: string)

  /** The block parameter: missing, a JSON string, or any other JSON value. */
  datatype BlockParam = NoBlock | BlockText(text: string) | BlockValue(json: string)

  /** The params of an eth_call, or any others as text. rest holds the members of
      the call object that ethCallParams does not name, such as maxFeePerGas. */
  datatype Params =
    | CallParams(to: Hex, data: Hex, from: string, gas: string, gasPrice: string, value: string,
                 rest: string, block: BlockParam, overrides: bool)
    | Unparsed(text: string)

  datatype Request = Request(id: Id, rpcMethod: string, params: Params)

  datatype Failure = ResponseMissing | NotAHexString | DecodeError | CountMismatch

  datatype Payload =
    | HexResult(bytes: seq<byte>)
    | TextResult(text: string)
    | OtherResult(json: string)
    | Revert(data: seq<byte>)
    | UpstreamError(json: string)
    | FusionError(failure: Failure)

  datatype Reply = Reply(id: Id, payload: Payload)

  /** BatchResponse.HasError */
  predicate HasError(p: Payload) {
    p.Revert? || p.UpstreamError? || p.FusionError?
  }

  /** hexToBytes: nothing when the text is not hex. */
  function HexToBytes(h: Hex): seq<byte> {
    if h.HexBytes? then h.bytes else []
  }

  /** hexToAddress: right-aligned, keeping the last twenty bytes. */
  function HexToAddress(h: Hex): Address {
    var b := HexToBytes(h);
    if |b| > 20 then b[|b| - 20..] else Zeros(20 - |b|) + b
  }

  /** The block tag parseEthCallParams settles on. */
  function BlockTag(p: BlockParam): string {
    if p.BlockText? && p.text != "" then p.text else "latest"
  }

  /** Whether aggregateEthCalls may wrap the request; it does not look at rest. */
  predicate Eligible(r: Request) {
    && r.rpcMethod == "eth_call" && r.params.CallParams?
    && r.params.to != Absent && r.params.data != Absent
    && !r.params.overrides
    && r.params.from == "" && r.params.value == "" && r.params.gas == "" && r.params.gasPrice == ""
  }

  /** Sender, gas, value and state are part of what a node computes a call with. */
  predicate Altered(p: Params)
    requires p.CallParams?
  {
    p.from != "" || p.gas != "" || p.gasPrice != "" || p.value != "" || p.overrides
  }

  /** An eth_call with a target and data that asks for nothing but a read. */
  predicate AsksRead(r: Request) {
    && r.rpcMethod == "eth_call" && r.params.CallParams?
    && r.params.to != Absent && r.params.data != Absent && !Altered(r.params)
  }

  /** The call objects whose direct meaning the read oracle fixes: a twenty-byte
      target, hex calldata, no further members and an absent or non-empty string
      block tag. */
  predicate Plain(p: Params) {
    && p.CallParams?
    && p.to.HexBytes? && |p.to.bytes| == 20
    && p.data.HexBytes?
    && p.rest == ""
    && (p.block.NoBlock? || (p.block.BlockText? && p.block.text != ""))
  }

  /** What an upstream node computes: contract reads at a block tag, and its
      answer to every other request, which cannot depend on the request's id. */
  datatype Upstream = Upstream(read: (Address, seq<byte>, string) -> CallResult,
                               other: (string, Params) -> Payload)

  /** A read's answer as JSON-RPC: the data, or the code 3 revert with its data. */
  function AnswerOf(r: CallResult): Payload {
    if r.success then HexResult(r.returnData) else Revert(r.returnData)
  }

  /** What the upstream answers when the request is sent on its own. */
  function Direct(u: Upstream, r: Request): Payload {
    if AsksRead(r) && Plain(r.params) then
      AnswerOf(u.read(r.params.to.bytes, r.params.data.bytes,
                      if r.params.block.NoBlock? then "latest" else r.params.block.text))
    else
      u.other(r.rpcMethod, r.params)
  }

  function DirectReply(u: Upstream, r: Request): Reply {
    Reply(r.id, Direct(u, r))
  }

  function DirectReplies(u: Upstream, rs: seq<Request>): (ps: seq<Reply>)
    ensures |ps| == |rs|
    ensures forall i :: 0 <= i < |rs| ==> ps[i] == DirectReply(u, rs[i])
  {
    seq(|rs|, i requires 0 <= i < |rs| => DirectReply(u, rs[i]))
  }

  /** An id picks out one request. */
  ghost predicate IdsIdentify(rs: seq<Request>) {
    forall a, b :: a in rs && b in rs && a.id == b.id ==> a == b
  }

  lemma DirectRepliesSplit(u: Upstream, a: seq<Request>, b: seq<Request>)
    ensures DirectReplies(u, a + b) == DirectReplies(u, a) + DirectReplies(u, b)
  {
    hide DirectReply;
  }

  lemma DirectRepliesWithout(u: Upstream, rs: seq<Request>, j: nat)
    requires j < |rs|
    ensures multiset(rs) == multiset(rs[..j] + rs[j + 1..]) + multiset{rs[j]}
    ensures multiset(DirectReplies(u, rs))
         == multiset(DirectReplies(u, rs[..j] + rs[j + 1..])) + multiset{DirectReply(u, rs[j])}
  {
    hide DirectReply;
    var a, x, b := rs[..j], [rs[j]], rs[j + 1..];
    assert rs == a + (x + b);
    DirectRepliesSplit(u, a, x + b);
    DirectRepliesSplit(u, x, b);
    DirectRepliesSplit(u, a, b);
    assert DirectReplies(u, x) == [DirectReply(u, rs[j])];
  }

  /** The order of the requests does not matter to the replies as a whole. */
  lemma {:induction false} DirectRepliesReordered(u: Upstream, a: seq<Request>, b: seq<Request>)
    requires multiset(a) == multiset(b)
    ensures multiset(DirectReplies(u, a)) == multiset(DirectReplies(u, b))
    decreases |a|
  {
    hide DirectReply, DirectReplies;
    if |a| == 0 {
      assert |multiset(a)| == |a| && |multiset(b)| == |b|;
      assert a == b;
    } else {
      assert a[0] in multiset(b);
      var j :| 0 <= j < |b| && b[j] == a[0];
      var a', b' := a[..0] + a[1..], b[..j] + b[j + 1..];
      DirectRepliesWithout(u, a, 0);
      DirectRepliesWithout(u, b, j);
      SameRest(multiset(a), multiset(a'), multiset(b'), a[0]);
      DirectRepliesReordered(u, a', b');
    }
  }
}
