/** tools/mock_wss/replay.py: rows grouped by block, and each row rendered as an ABI-encoded log. */
module Replay {
  import opened Prelude
  import opened HexText
  import opened Abi
  import opened Events

  /** A 20-byte address left-padded to an indexed topic; the text is not checked. */
  function AddrTopic(addr: string): string {
    "0x" + "000000000000000000000000" + RemovePrefix0x(Lower(addr))
  }

  /** The non-indexed tuple of each event: its types and its values. */
  function Layout(event: Option<Event>, amount0: int, amount1: int): (r: (seq<AbiType>, seq<int>))
    ensures |r.0| == |r.1|
  {
    match event
    case Some(Swap) => ([SInt(32), SInt(32), UInt(20), UInt(16), SInt(3)], [amount0, amount1, 0, 0, 0])
    case Some(Mint) => ([Address, UInt(16), UInt(32), UInt(32)], [0, 0, amount0, amount1])
    case Some(Burn) => ([UInt(16), UInt(32), UInt(32)], [0, amount0, amount1])
    case Some(Supply) => ([Address, UInt(32)], [0, amount0])
    case Some(Borrow) => ([Address, UInt(32), UInt(32), UInt(32)], [0, amount0, 0, 0])
    case Some(Withdraw) => ([UInt(32)], [amount0])
    case Some(Liquidation) => ([UInt(32), UInt(32), Address, Bool], [amount1, amount0, 0, 0])
    case None => ([SInt(32), SInt(32)], [amount0, amount1])
  }

  function TopicsTail(event: Option<Event>, token0: string, token1: string): seq<string> {
    var zero := AddrTopic(ZERO_ADDRESS);
    match event
    case Some(Swap) => [zero, zero]
    case Some(Mint) => [zero, ZERO_WORD, ZERO_WORD]
    case Some(Burn) => [zero, ZERO_WORD, ZERO_WORD]
    case Some(Supply) => [AddrTopic(token0), zero, ZERO_WORD]
    case Some(Borrow) => [AddrTopic(token0), zero, ZERO_WORD]
    case Some(Withdraw) => [AddrTopic(token0), zero, zero]
    case Some(Liquidation) => [AddrTopic(token0), AddrTopic(token1), zero]
    case None => []
  }

  /** The raw log of a row; `None` is the ValueError on a bad or unencodable amount. */
  function BuildRawLog(row: Row): Option<Log> {
    if row.amount0.None? || row.amount1.None? then None
    else
      var layout := Layout(row.event, row.amount0.value, row.amount1.value);
      var data := Encode(layout.0, layout.1);
      if data.None? then None
      else
        Some(Log(row.pool, row.event, TopicsTail(row.event, row.token0, row.token1),
                 "0x" + BytesToHex(data.value), Hex(row.blockNumber), row.txHash, Hex(row.logIndex)))
  }

  function Int256(): AbiType { SInt(32) }

  function Uint256(): AbiType { UInt(32) }

  /** When `BuildRawLog` succeeds, in terms of the row alone. */
  predicate Renderable(row: Row) {
    row.amount0.Some? && row.amount1.Some? &&
    var a0, a1 := row.amount0.value, row.amount1.value;
    match row.event
    case Some(Swap) => InRange(Int256(), a0) && InRange(Int256(), a1)
    case None => InRange(Int256(), a0) && InRange(Int256(), a1)
    case Some(Supply) => InRange(Uint256(), a0)
    case Some(Borrow) => InRange(Uint256(), a0)
    case Some(Withdraw) => InRange(Uint256(), a0)
    case Some(_) => InRange(Uint256(), a0) && InRange(Uint256(), a1)
  }

  /** The placeholder words of the layouts are always in range. */
  lemma ZeroInRange(t: AbiType)
    ensures InRange(t, 0)
  {
  }

  /** A tuple is in range, and encodable, component by component. */
  lemma TupleCons(t: AbiType, v: int, types: seq<AbiType>, values: seq<int>)
    requires |types| == |values|
    ensures AllInRange([t] + types, [v] + values) <==> InRange(t, v) && AllInRange(types, values)
    ensures AllFit([t] + types) <==> FitsWord(t) && AllFit(types)
  {
    assert ([t] + types)[1..] == types && ([v] + values)[1..] == values;
  }

  lemma {:induction false} ZerosInRange(types: seq<AbiType>, values: seq<int>)
    requires |types| == |values| && forall i :: 0 <= i < |values| ==> values[i] == 0
    ensures AllInRange(types, values)
  {
    if types != [] {
      ZeroInRange(types[0]);
      ZerosInRange(types[1..], values[1..]);
    }
  }

  lemma LayoutOfTwo(t0: AbiType, t1: AbiType, v0: int, v1: int, types: seq<AbiType>, values: seq<int>)
    requires |types| == |values| && forall i :: 0 <= i < |values| ==> values[i] == 0
    ensures AllInRange([t0, t1] + types, [v0, v1] + values) <==> InRange(t0, v0) && InRange(t1, v1)
  {
    ZerosInRange(types, values);
    TupleCons(t1, v1, types, values);
    TupleCons(t0, v0, [t1] + types, [v1] + values);
    assert [t0, t1] + types == [t0] + ([t1] + types) && [v0, v1] + values == [v0] + ([v1] + values);
  }

  lemma LayoutFits(event: Option<Event>, a0: int, a1: int)
    ensures AllFit(Layout(event, a0, a1).0)
  {
    TupleCons(UInt(16), 0, [UInt(32), UInt(32)], [a0, a1]);
  }

  ghost predicate LayoutAgrees(row: Row)
    requires row.amount0.Some? && row.amount1.Some?
  {
    var l := Layout(row.event, row.amount0.value, row.amount1.value);
    AllInRange(l.0, l.1) <==> Renderable(row)
  }

  lemma SwapLayout(row: Row)
    requires row.amount0.Some? && row.amount1.Some? && row.event in {Some(Swap), None}
    ensures LayoutAgrees(row)
  {
    var a0, a1 := row.amount0.value, row.amount1.value;
    var l := Layout(row.event, a0, a1);
    LayoutOfTwo(SInt(32), SInt(32), a0, a1, l.0[2..], l.1[2..]);
    assert l.0 == [SInt(32), SInt(32)] + l.0[2..] && l.1 == [a0, a1] + l.1[2..];
  }

  lemma BurnTuple(a0: int, a1: int)
    ensures AllInRange([UInt(16), UInt(32), UInt(32)], [0, a0, a1]) <==> InRange(UInt(32), a0) && InRange(UInt(32), a1)
  {
    LayoutOfTwo(UInt(32), UInt(32), a0, a1, [], []);
    TupleCons(UInt(16), 0, [UInt(32), UInt(32)], [a0, a1]);
    ZeroInRange(UInt(16));
    assert [UInt(32), UInt(32)] + [] == [UInt(32), UInt(32)] && [a0, a1] + [] == [a0, a1];
    assert [UInt(16)] + [UInt(32), UInt(32)] == [UInt(16), UInt(32), UInt(32)] && [0] + [a0, a1] == [0, a0, a1];
  }

  lemma MintBurnLayout(row: Row)
    requires row.amount0.Some? && row.amount1.Some? && row.event in {Some(Mint), Some(Burn)}
    ensures LayoutAgrees(row)
  {
    var a0, a1 := row.amount0.value, row.amount1.value;
    BurnTuple(a0, a1);
    TupleCons(Address, 0, [UInt(16), UInt(32), UInt(32)], [0, a0, a1]);
    ZeroInRange(Address);
    assert [Address] + [UInt(16), UInt(32), UInt(32)] == Layout(Some(Mint), a0, a1).0;
    assert [0] + [0, a0, a1] == Layout(Some(Mint), a0, a1).1;
  }

  lemma LendingLayout(row: Row)
    requires row.amount0.Some? && row.amount1.Some?
    requires row.event in {Some(Supply), Some(Borrow), Some(Withdraw)}
    ensures LayoutAgrees(row)
  {
    var a0, a1 := row.amount0.value, row.amount1.value;
    var l := Layout(row.event, a0, a1);
    ZeroInRange(Address);
    if row.event == Some(Withdraw) {
      TupleCons(UInt(32), a0, [], []);
    } else {
      LayoutOfTwo(Address, UInt(32), 0, a0, l.0[2..], l.1[2..]);
      assert l.0 == [Address, UInt(32)] + l.0[2..] && l.1 == [0, a0] + l.1[2..];
    }
  }

  lemma LiquidationLayout(row: Row)
    requires row.amount0.Some? && row.amount1.Some? && row.event == Some(Liquidation)
    ensures LayoutAgrees(row)
  {
    var a0, a1 := row.amount0.value, row.amount1.value;
    LayoutOfTwo(UInt(32), UInt(32), a1, a0, [Address, Bool], [0, 0]);
    assert [UInt(32), UInt(32)] + [Address, Bool] == Layout(row.event, a0, a1).0;
    assert [a1, a0] + [0, 0] == Layout(row.event, a0, a1).1;
  }

  /** The tuple of an event is encodable exactly when its amounts are in range. */
  lemma LayoutInRange(row: Row)
    requires row.amount0.Some? && row.amount1.Some?
    ensures LayoutAgrees(row)
  {
    match row.event
    case Some(Swap) => SwapLayout(row);
    case None => SwapLayout(row);
    case Some(Mint) => MintBurnLayout(row);
    case Some(Burn) => MintBurnLayout(row);
    case Some(Liquidation) => LiquidationLayout(row);
    case Some(_) => LendingLayout(row);
  }

  /** A row is rendered exactly when its amounts are numbers in its event's range. */
  lemma RenderableIff(row: Row)
    ensures BuildRawLog(row).Some? <==> Renderable(row)
  {
    if row.amount0.Some? && row.amount1.Some? {
      var l := Layout(row.event, row.amount0.value, row.amount1.value);
      LayoutInRange(row);
      LayoutFits(row.event, row.amount0.value, row.amount1.value);
      TupleEncodes(l.0, l.1);
    }
  }
}
