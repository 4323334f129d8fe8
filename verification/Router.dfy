/** ingestion/router.py over ingestion/whitelist.py: a log is dispatched on its emitting contract, and
    the event validated before anything downstream sees it. */
module Router {
  import opened Prelude
  import opened HexText
  import opened Abi
  import opened Events
  import opened Decoders
  import opened Replay

  datatype Entry = Entry(protocol: Protocol, meta: PoolMeta)

  /** Keys are lower-cased addresses. */
  type Whitelist = map<string, Entry>

  /** `Err` is an exception; `Ok(None)` is a log silently dropped. */
  function Route(log: Log, whitelist: Whitelist, timestamp: int): Result<Option<Tick>, string> {
    var addr := Lower(log.address);
    if addr !in whitelist then Ok(None)
    else
      var entry := whitelist[addr];
      match entry.protocol
      case UniswapV3 =>
        var tick := DecodeUniswap(log, entry.meta, timestamp);
        if tick.None? then Err("cannot decode") else Ok(tick)
      case AaveV3 =>
        var tick := DecodeAave(log, entry.meta, timestamp);
        if tick.None? then Err("cannot decode") else Ok(tick)
      case OtherProtocol => Ok(None)
  }

  /** The tick-data schema, on the fields whose form is not fixed by construction. */
  predicate MeetsSchema(t: Tick) {
    t.blockNumber >= 0 && t.logIndex >= 0 && IsTxHash(t.txHash)
    && IsAddress(t.pool) && IsAddress(t.token0) && IsAddress(t.token1)
  }

  function RouteValidated(log: Log, whitelist: Whitelist, timestamp: int): Result<Option<Tick>, string> {
    var r := Route(log, whitelist, timestamp);
    if r.Ok? && r.value.Some? && !MeetsSchema(r.value.value) then Err("schema violation") else r
  }

  predicate IsUniswapEvent(e: Event) { e in {Swap, Mint, Burn} }

  const PAD: string := "000000000000000000000000"

  /** An address column without its prefix, lower-cased; nothing else is checked of it. */
  function Digits(addr: string): string {
    RemovePrefix0x(Lower(addr))
  }

  /** The decoder makes an address of this column's topic: whole bytes, and with the padding at least
      twenty of them. */
  predicate TopicReadable(addr: string) {
    |Digits(addr)| >= 16 && |Digits(addr)| % 2 == 0 && AllHex(Digits(addr))
  }

  /** That address: the last twenty bytes, which is the column itself only if it holds exactly twenty. */
  function TopicAddress(addr: string): string {
    "0x" + LastN(PAD + Digits(addr), 40)
  }

  /** What a fixture row becomes once ingested. */
  function Normalize(row: Row, entry: Entry, timestamp: int): Tick
    requires row.event.Some? && row.amount0.Some? && row.amount1.Some?
  {
    var e := row.event.value;
    var single := e in {Supply, Borrow, Withdraw};
    Tick(row.blockNumber, timestamp, if IsUniswapEvent(e) then UniswapV3 else AaveV3, e,
         With0x(Lower(row.pool)),
         if IsUniswapEvent(e) then Lower(entry.meta.token0) else TopicAddress(row.token0),
         if IsUniswapEvent(e) then Lower(entry.meta.token1) else if single then ZERO_ADDRESS
         else TopicAddress(row.token1),
         row.amount0.value, if single then 0 else row.amount1.value,
         With0x(row.txHash), row.logIndex)
  }

  /** The address columns that are read, which are the pool's and, for Aave, the assets', yield addresses. */
  predicate ColumnsReadable(row: Row)
    requires row.event.Some?
  {
    && IsAddress(With0x(Lower(row.pool)))
    && (!IsUniswapEvent(row.event.value) ==> TopicReadable(row.token0))
    && (row.event.value == Liquidation ==> TopicReadable(row.token1))
  }

  /** The rows that reach the ring buffer: in range, whitelisted under their own protocol, with readable
      columns, and with numbers and identifiers the schema admits. */
  predicate Deliverable(row: Row, whitelist: Whitelist) {
    Renderable(row) && row.event.Some? && Lower(row.pool) in whitelist &&
    var entry := whitelist[Lower(row.pool)];
    && entry.protocol == (if IsUniswapEvent(row.event.value) then UniswapV3 else AaveV3)
    && ColumnsReadable(row) && row.blockNumber >= 0 && row.logIndex >= 0 && IsTxHash(With0x(row.txHash))
    && (entry.protocol.UniswapV3? ==> IsAddress(Lower(entry.meta.token0)) && IsAddress(Lower(entry.meta.token1)))
  }

  /** The columns that are read have the shape the fixture contract prescribes. */
  predicate WellFormed(row: Row)
    requires row.event.Some?
  {
    && IsAddress(row.pool)
    && (!IsUniswapEvent(row.event.value) ==> IsAddress(row.token0))
    && (row.event.value == Liquidation ==> IsAddress(row.token1))
  }

  lemma LowerKeepsAddress(s: string)
    requires IsAddress(s)
    ensures IsAddress(Lower(s)) && With0x(Lower(s)) == Lower(s)
  {
    LowerAddress(s);
    assert Lower(s)[0] == LowerChar(s[0]) && Lower(s)[1] == LowerChar(s[1]);
  }

  lemma PadIsHex()
    ensures AllHex(PAD) && |PAD| == 24
  {
    forall i | 0 <= i < |PAD| ensures IsHexDigit(PAD[i]) {
      assert PAD[i] == '0';
    }
  }

  lemma PaddedIsHex(digits: string)
    ensures AllHex(PAD + digits) <==> AllHex(digits)
  {
    PadIsHex();
    if AllHex(PAD + digits) {
      forall i | 0 <= i < |digits| ensures IsHexDigit(digits[i]) {
        assert (PAD + digits)[24 + i] == digits[i];
      }
    }
  }

  lemma PaddedIsLower(digits: string)
    requires Lower(digits) == digits
    ensures Lower(PAD + digits) == PAD + digits
  {
    forall i | 0 <= i < |PAD| ensures LowerChar(PAD[i]) == PAD[i] {
      assert PAD[i] == '0';
    }
    forall i | 0 <= i < |digits| ensures LowerChar(digits[i]) == digits[i] {
      assert Lower(digits)[i] == digits[i];
    }
  }

  lemma DigitsAreLower(addr: string)
    ensures Lower(Digits(addr)) == Digits(addr)
    ensures With0x(Lower(addr)) == "0x" + Digits(addr)
  {
    var low := Lower(addr);
    if "0x" <= low {
      assert Lower(low[2..]) == Lower(low)[2..];
      assert low == "0x" + low[2..];
    }
  }

  lemma TopicBytes(addr: string)
    ensures BytesFromHex(PAD + Digits(addr)).Some? <==> |Digits(addr)| % 2 == 0 && AllHex(Digits(addr))
    ensures RemovePrefix0x(AddrTopic(addr)) == PAD + Digits(addr)
  {
    hide BytesFromHex, AllHex, AddrTopic, Digits;
    TopicText(addr);
    PadIsHex();
    FromHexSucceeds(PAD + Digits(addr));
    PaddedIsHex(Digits(addr));
  }

  lemma TopicText(addr: string)
    ensures RemovePrefix0x(AddrTopic(addr)) == PAD + Digits(addr)
  {
    hide Lower;
    var topic := AddrTopic(addr);
    assert topic == "0x" + (PAD + Digits(addr));
    assert topic[2..] == PAD + Digits(addr);
  }

  lemma TailOfTopic(addr: string)
    requires TopicReadable(addr)
    ensures TopicToAddr(AddrTopic(addr)) == Some(TopicAddress(addr))
  {
    TopicBytes(addr);
    DigitsAreLower(addr);
    var text := PAD + Digits(addr);
    var head, tail := text[..|text| - 40], text[|text| - 40..];
    assert text == head + tail && LastN(text, 40) == tail;
    PaddedIsLower(Digits(addr));
    assert Lower(tail) == Lower(text)[|text| - 40..] == tail;
    LastBytes(head, tail, 20);
  }

  lemma TopicAddressIsAddress(addr: string)
    requires TopicReadable(addr)
    ensures IsAddress(TopicAddress(addr))
  {
    PaddedIsHex(Digits(addr));
    var text, r := PAD + Digits(addr), TopicAddress(addr);
    forall i | 0 <= i < |r[2..]| ensures IsHexDigit(r[2..][i]) {
      assert r[2..][i] == text[|text| - 40 + i];
    }
  }

  lemma ShortTopic(addr: string)
    requires |Digits(addr)| < 16 && TopicToAddr(AddrTopic(addr)).Some?
    ensures |TopicToAddr(AddrTopic(addr)).value| < 42
  {
    TopicBytes(addr);
  }

  /** Through an indexed topic, whatever the column holds: an address comes back exactly if the column is
      readable, and then its last twenty bytes, zero-padded. */
  lemma TopicReadsBack(addr: string)
    ensures var r := TopicToAddr(AddrTopic(addr));
            && (r.Some? && IsAddress(r.value) <==> TopicReadable(addr))
            && (TopicReadable(addr) ==> r == Some(TopicAddress(addr)))
  {
    hide TopicToAddr, AddrTopic, BytesFromHex, TopicAddress, AllHex;
    if TopicReadable(addr) {
      TailOfTopic(addr);
      TopicAddressIsAddress(addr);
    } else if TopicToAddr(AddrTopic(addr)).Some? {
      ReadTopicIsHex(addr);
      ShortTopic(addr);
    }
  }

  lemma ReadTopicIsHex(addr: string)
    requires TopicToAddr(AddrTopic(addr)).Some?
    ensures |Digits(addr)| % 2 == 0 && AllHex(Digits(addr))
  {
    TopicBytes(addr);
  }

  /** A readable column comes back as itself exactly if it holds twenty bytes. */
  lemma TopicRoundTrip(addr: string)
    requires TopicReadable(addr)
    ensures TopicAddress(addr) == With0x(Lower(addr)) <==> |Digits(addr)| == 40
  {
    DigitsAreLower(addr);
    var text := PAD + Digits(addr);
    assert |LastN(text, 40)| == 40;
    if |Digits(addr)| == 40 {
      LastOfConcat(PAD, Digits(addr), 40);
    } else {
      assert |"0x" + LastN(text, 40)| == 42 && |"0x" + Digits(addr)| != 42;
    }
  }

  lemma AddressIsReadable(addr: string)
    requires IsAddress(addr)
    ensures TopicReadable(addr) && |Digits(addr)| == 40 && TopicAddress(addr) == Lower(addr)
  {
    hide TopicAddress;
    LowerKeepsAddress(addr);
    assert Lower(addr)[..2] == "0x";
    TopicRoundTrip(addr);
  }

  lemma LastOfConcat<T>(a: seq<T>, b: seq<T>, n: nat)
    requires |b| == n
    ensures LastN(a + b, n) == b
  {
  }

  /** The text of the last bytes is the end of the text. */
  lemma LastBytes(head: string, tail: string, n: nat)
    requires BytesFromHex(head + tail).Some? && |tail| == 2 * n
    ensures BytesToHex(LastN(BytesFromHex(head + tail).value, n)) == Lower(tail)
  {
    FromHexSplit(head, tail, n);
    LastOfConcat(BytesFromHex(head).value, BytesFromHex(tail).value, n);
    ToHexOfFromHex(tail);
  }

  /** Parsing is compositional over text cut between bytes. */
  lemma FromHexOfNothing()
    ensures BytesFromHex("") == Some([])
  {
  }

  lemma {:induction false} FromHexSplit(a: string, b: string, n: nat)
    requires BytesFromHex(a + b).Some? && |b| == 2 * n
    ensures BytesFromHex(a).Some? && BytesFromHex(b).Some?
    ensures BytesFromHex(a + b).value == BytesFromHex(a).value + BytesFromHex(b).value
  {
    hide BytesFromHex, DigitValue, IsHexDigit;
    if n == 0 {
      assert a + b == a;
      FromHexOfNothing();
    } else {
      var front, hi, lo := b[..|b| - 2], b[|b| - 2], b[|b| - 1];
      assert b == front + [hi, lo] && a + b == a + front + [hi, lo];
      FromHexLast(a + front, hi, lo);
      FromHexSplit(a, front, n - 1);
      FromHexAppend(front, hi, lo);
      FromHexAppend(a + front, hi, lo);
    }
  }

  /** What one row contributes to the buffer when its log is stamped with `timestamp`: nothing if the
      mock cannot render it, or the router drops it or raises. */
  function Deliver(row: Row, whitelist: Whitelist, timestamp: int): Option<Tick> {
    var log := BuildRawLog(row);
    if log.None? then None
    else
      match RouteValidated(log.value, whitelist, timestamp)
      case Ok(tick) => tick
      case Err(_) => None
  }

  lemma DataOfLog(row: Row)
    requires Renderable(row)
    ensures BuildRawLog(row).Some?
    ensures var l := Layout(row.event, row.amount0.value, row.amount1.value);
            && AllFit(l.0) && AllInRange(l.0, l.1)
            && Encode(l.0, l.1).Some? && BuildRawLog(row).value.data == "0x" + BytesToHex(Encode(l.0, l.1).value)
  {
    hide Layout, Encode, BytesToHex, AllFit, AllInRange, TopicsTail, Hex;
    RenderableIff(row);
    LayoutInRange(row);
    LayoutFits(row.event, row.amount0.value, row.amount1.value);
  }

  lemma DataBytesOfHex(data: seq<Byte>)
    ensures DataBytes("0x" + BytesToHex(data)) == Some(data)
  {
    FromHexOfToHex(data);
    assert RemovePrefix0x("0x" + BytesToHex(data)) == BytesToHex(data);
  }

  lemma EncodedDataDecodes(types: seq<AbiType>, values: seq<int>)
    requires |types| == |values| && AllFit(types) && AllInRange(types, values)
    ensures Encode(types, values).Some?
    ensures DataBytes("0x" + BytesToHex(Encode(types, values).value)).Some?
    ensures Decode(types, DataBytes("0x" + BytesToHex(Encode(types, values).value)).value) == Some(values)
  {
    hide Encode, Decode, BytesToHex, DataBytes;
    TupleRoundTrip(types, values, []);
    var data := Encode(types, values).value;
    assert data + [] == data;
    DataBytesOfHex(data);
  }

  /** The data of a rendered log decodes, by the types it was encoded with, to what was encoded. */
  lemma DataRoundTrip(row: Row)
    requires Renderable(row)
    ensures BuildRawLog(row).Some?
    ensures var l := Layout(row.event, row.amount0.value, row.amount1.value);
            var bytes := DataBytes(BuildRawLog(row).value.data);
            bytes.Some? && Decode(l.0, bytes.value) == Some(l.1)
  {
    hide Encode, Decode, BytesToHex, DataBytes, Layout, BuildRawLog;
    DataOfLog(row);
    var l := Layout(row.event, row.amount0.value, row.amount1.value);
    EncodedDataDecodes(l.0, l.1);
  }

  ghost predicate ReadsAmounts(e: Event, bytes: seq<Byte>, a0: int, a1: int) {
    && UniswapAmounts(e, bytes) == (if IsUniswapEvent(e) then Some((a0, a1)) else None)
    && AaveAmounts(e, bytes) == (if IsUniswapEvent(e) then None
                                 else if e == Liquidation then Some((a0, a1)) else Some((a0, 0)))
  }

  /** The decoders pick the amounts out of the positions the encoder put them in. */
  lemma AmountsOfTuple(e: Event, a0: int, a1: int, bytes: seq<Byte>)
    requires var l := Layout(Some(e), a0, a1); Decode(l.0, bytes) == Some(l.1)
    ensures ReadsAmounts(e, bytes, a0, a1)
  {
    hide Decode;
    var l := Layout(Some(e), a0, a1);
    match e
    case Swap => assert l.0 == SWAP_TYPES();
    case Mint => assert l.0 == MINT_TYPES();
    case Burn => assert l.0 == BURN_TYPES();
    case Supply => assert l.0 == SUPPLY_TYPES();
    case Borrow => assert l.0 == BORROW_TYPES();
    case Withdraw => assert l.0 == WITHDRAW_TYPES();
    case Liquidation => assert l.0 == LIQUIDATION_TYPES();
  }

  lemma AmountsRoundTrip(row: Row)
    requires Renderable(row) && row.event.Some?
    ensures BuildRawLog(row).Some? && DataBytes(BuildRawLog(row).value.data).Some?
    ensures ReadsAmounts(row.event.value, DataBytes(BuildRawLog(row).value.data).value,
                         row.amount0.value, row.amount1.value)
  {
    DataRoundTrip(row);
    AmountsOfTuple(row.event.value, row.amount0.value, row.amount1.value,
                   DataBytes(BuildRawLog(row).value.data).value);
  }

  lemma TopicsOfLog(row: Row)
    requires Renderable(row)
    ensures BuildRawLog(row).Some? && BuildRawLog(row).value.topics == TopicsTail(row.event, row.token0, row.token1)
  {
    hide Layout, Encode, BytesToHex, TopicsTail, Hex, Renderable;
    RenderableIff(row);
  }

  /** The assets of an Aave log, from the columns: an address each exactly if the column is readable. */
  lemma AssetsRoundTrip(row: Row)
    requires Renderable(row) && row.event.Some? && !IsUniswapEvent(row.event.value)
    ensures BuildRawLog(row).Some?
    ensures var e, assets := row.event.value, AaveAssets(row.event.value, BuildRawLog(row).value.topics);
            && (assets.Some? && IsAddress(assets.value.0) && IsAddress(assets.value.1) <==>
                TopicReadable(row.token0) && (e == Liquidation ==> TopicReadable(row.token1)))
            && (assets.Some? && IsAddress(assets.value.0) && IsAddress(assets.value.1) ==>
                assets.value == (TopicAddress(row.token0),
                                 if e == Liquidation then TopicAddress(row.token1) else ZERO_ADDRESS))
  {
    hide TopicToAddr, AddrTopic, Lower, BuildRawLog, IsAddress, Renderable, TopicReadable, TopicAddress;
    TopicsOfLog(row);
    TopicReadsBack(row.token0);
    TopicReadsBack(row.token1);
    ZeroAddressIsAddress();
  }

  lemma ZeroAddressIsAddress()
    ensures IsAddress(ZERO_ADDRESS)
  {
    forall i | 2 <= i < 42 ensures IsHexDigit(ZERO_ADDRESS[i]) {
      assert ZERO_ADDRESS[i] == '0';
    }
    forall i | 0 <= i < 40 ensures IsHexDigit(ZERO_ADDRESS[2..][i]) {
      assert ZERO_ADDRESS[2..][i] == ZERO_ADDRESS[i + 2];
    }
  }

  predicate Readable(row: Row) {
    row.blockNumber >= 0 && row.logIndex >= 0
  }

  /** Everything the decoders need to know about the log of a row. */
  ghost predicate Renders(row: Row, log: Log)
    requires row.event.Some? && row.amount0.Some? && row.amount1.Some?
  {
    && log.topic0 == row.event && log.address == row.pool && log.transactionHash == row.txHash
    && log.blockNumber == Hex(row.blockNumber) && log.logIndex == Hex(row.logIndex)
    && DataBytes(log.data).Some?
    && ReadsAmounts(row.event.value, DataBytes(log.data).value, row.amount0.value, row.amount1.value)
  }

  lemma BuildRenders(row: Row)
    requires Renderable(row) && row.event.Some?
    ensures BuildRawLog(row).Some? && Renders(row, BuildRawLog(row).value)
  {
    AmountsRoundTrip(row);
  }

  lemma TickOfLog(row: Row, log: Log, protocol: Protocol, p: Payload, timestamp: int)
    requires row.event.Some? && row.amount0.Some? && row.amount1.Some? && Renders(row, log)
    ensures MakeTick(log, protocol, row.event.value, p, timestamp) ==
            if Readable(row)
            then Some(Tick(row.blockNumber, timestamp, protocol, row.event.value, With0x(Lower(row.pool)),
                           p.token0, p.token1, p.amount0, p.amount1, With0x(row.txHash), row.logIndex))
            else None
  {
    hide Lower, With0x, ReadsAmounts, DataBytes;
    ToIntOfHex(row.blockNumber);
    ToIntOfHex(row.logIndex);
  }

  /** What arrives, validation included: the row in normal form, if the right decoder reads it and its
      numbers, columns and identifiers are admitted. */
  predicate Admitted(row: Row)
    requires row.event.Some?
  {
    Readable(row) && IsTxHash(With0x(row.txHash)) && ColumnsReadable(row)
  }

  predicate Arrives(tick: Option<Tick>) {
    tick.Some? && MeetsSchema(tick.value)
  }

  /** The log of a row through the Uniswap decoder. */
  lemma UniswapOfLog(row: Row, log: Log, entry: Entry, timestamp: int)
    requires row.event.Some? && row.amount0.Some? && row.amount1.Some? && Renders(row, log)
    ensures var r := DecodeUniswap(log, entry.meta, timestamp);
            && (Arrives(r) <==> IsUniswapEvent(row.event.value) && Admitted(row)
                                && IsAddress(Lower(entry.meta.token0)) && IsAddress(Lower(entry.meta.token1)))
            && (Arrives(r) ==> r.value == Normalize(row, entry, timestamp))
  {
    hide AaveAmounts, AaveAssets, UniswapAmounts, DataBytes, MakeTick, Lower, With0x, IsAddress, IsTxHash, Hex,
         TopicReadable, TopicAddress;
    TickOfLog(row, log, UniswapV3, Payload(row.amount0.value, row.amount1.value,
                                           Lower(entry.meta.token0), Lower(entry.meta.token1)), timestamp);
  }

  function AavePayload(row: Row, assets: (string, string)): Payload
    requires row.event.Some? && row.amount0.Some? && row.amount1.Some?
  {
    Payload(row.amount0.value, if row.event == Some(Liquidation) then row.amount1.value else 0, assets.0, assets.1)
  }

  lemma AaveReads(row: Row, log: Log, entry: Entry, timestamp: int)
    requires row.event.Some? && row.amount0.Some? && row.amount1.Some? && Renders(row, log)
    ensures var assets := AaveAssets(row.event.value, log.topics);
            DecodeAave(log, entry.meta, timestamp)
            == if IsUniswapEvent(row.event.value) || assets.None? then None
               else MakeTick(log, AaveV3, row.event.value, AavePayload(row, assets.value), timestamp)
  {
    hide AaveAmounts, AaveAssets, UniswapAmounts, DataBytes, MakeTick, Hex;
  }

  lemma AaveTickAdmitted(row: Row, entry: Entry, tick: Tick, timestamp: int, assets: (string, string))
    requires row.event.Some? && row.amount0.Some? && row.amount1.Some? && !IsUniswapEvent(row.event.value)
    requires var p := AavePayload(row, assets);
             tick == Tick(row.blockNumber, timestamp, AaveV3, row.event.value, With0x(Lower(row.pool)),
                          p.token0, p.token1, p.amount0, p.amount1, With0x(row.txHash), row.logIndex)
    ensures MeetsSchema(tick) <==> Readable(row) && IsTxHash(With0x(row.txHash)) && IsAddress(With0x(Lower(row.pool)))
                                   && IsAddress(assets.0) && IsAddress(assets.1)
    ensures assets == (TopicAddress(row.token0),
                       if row.event == Some(Liquidation) then TopicAddress(row.token1) else ZERO_ADDRESS)
            ==> tick == Normalize(row, entry, timestamp)
  {
    hide IsAddress, IsTxHash, Lower, With0x, TopicAddress;
    assert row.event.value in {Supply, Borrow, Withdraw} <==> row.event.value != Liquidation;
    ZeroAddressIsAddress();
    var p, normal := AavePayload(row, assets), Normalize(row, entry, timestamp);
    assert p.token0 == assets.0 && p.token1 == assets.1;
    assert normal.token0 == TopicAddress(row.token0);
    assert normal.token1 == if row.event == Some(Liquidation) then TopicAddress(row.token1) else ZERO_ADDRESS;
  }

  /** The same through the Aave decoder. */
  lemma AaveOfLog(row: Row, entry: Entry, timestamp: int)
    requires Renderable(row) && row.event.Some?
    ensures BuildRawLog(row).Some?
    ensures var r := DecodeAave(BuildRawLog(row).value, entry.meta, timestamp);
            && (Arrives(r) <==> !IsUniswapEvent(row.event.value) && Admitted(row))
            && (Arrives(r) ==> r.value == Normalize(row, entry, timestamp))
  {
    hide AaveAssets, MakeTick, Lower, With0x, IsAddress, IsTxHash, Hex, TopicReadable, TopicAddress, BuildRawLog,
         DecodeAave, Renders, Renderable, Normalize, MeetsSchema;
    RenderableHasAmounts(row);
    BuildRenders(row);
    var log := BuildRawLog(row).value;
    AaveReads(row, log, entry, timestamp);
    if !IsUniswapEvent(row.event.value) {
      AssetsRoundTrip(row);
      var assets := AaveAssets(row.event.value, log.topics);
      if assets.Some? {
        TickOfLog(row, log, AaveV3, AavePayload(row, assets.value), timestamp);
        var tick := MakeTick(log, AaveV3, row.event.value, AavePayload(row, assets.value), timestamp);
        if tick.Some? {
          AaveTickAdmitted(row, entry, tick.value, timestamp, assets.value);
        }
      }
    }
  }

  lemma RenderableHasAmounts(row: Row)
    requires Renderable(row)
    ensures row.amount0.Some? && row.amount1.Some?
  {
  }

  lemma RouteOfBuild(row: Row, whitelist: Whitelist, timestamp: int)
    requires Renderable(row) && Lower(row.pool) in whitelist && row.event.Some?
    ensures BuildRawLog(row).Some?
    ensures var entry, r := whitelist[Lower(row.pool)], RouteValidated(BuildRawLog(row).value, whitelist, timestamp);
            && (r.Ok? && r.value.Some? <==> Deliverable(row, whitelist))
            && (r.Ok? && r.value.Some? ==> r.value.value == Normalize(row, entry, timestamp))
  {
    hide DecodeUniswap, DecodeAave, Normalize, MeetsSchema, Lower, IsAddress, IsTxHash, With0x, ColumnsReadable,
         Renderable, BuildRawLog, ReadsAmounts, DataBytes, Hex;
    RenderableHasAmounts(row);
    var entry := whitelist[Lower(row.pool)];
    BuildRenders(row);
    UniswapOfLog(row, BuildRawLog(row).value, entry, timestamp);
    AaveOfLog(row, entry, timestamp);
  }

  lemma UnlistedRow(row: Row, whitelist: Whitelist, timestamp: int)
    requires Renderable(row) && (Lower(row.pool) !in whitelist || row.event.None?)
    ensures BuildRawLog(row).Some?
    ensures var r := Route(BuildRawLog(row).value, whitelist, timestamp);
            r.Err? || r.value.None?
  {
    RenderableIff(row);
  }

  /** The ABI round trip, in full and for every row: a row is delivered exactly when it is deliverable, and
      then as its normal form with the stamp it was given. */
  lemma DeliveryIsExact(row: Row, whitelist: Whitelist, timestamp: int)
    ensures Deliver(row, whitelist, timestamp)
         == if Deliverable(row, whitelist) then Some(Normalize(row, whitelist[Lower(row.pool)], timestamp)) else None
  {
    hide Lower, IsAddress, IsTxHash, With0x, BuildRawLog, Renderable, Route, Normalize, MeetsSchema, ColumnsReadable;
    RenderableIff(row);
    if Renderable(row) {
      if Lower(row.pool) in whitelist && row.event.Some? {
        RouteOfBuild(row, whitelist, timestamp);
      } else {
        UnlistedRow(row, whitelist, timestamp);
      }
    }
  }

  /** Single-asset Aave rows come back unchanged only if their asset column holds twenty bytes and their
      second amount and token were zero. */
  lemma AaveSingleAssetFidelity(row: Row, whitelist: Whitelist, timestamp: int)
    requires Deliverable(row, whitelist) && row.event.value in {Supply, Borrow, Withdraw}
    ensures var tick := Deliver(row, whitelist, timestamp);
            tick.Some? && tick.value.amount0 == row.amount0.value
            && (tick.value.token0 == With0x(Lower(row.token0)) <==> |Digits(row.token0)| == 40)
            && (tick.value.amount1 == row.amount1.value <==> row.amount1 == Some(0))
            && (tick.value.token1 == Lower(row.token1) <==> Lower(row.token1) == ZERO_ADDRESS)
  {
    hide Deliver, Lower, IsAddress, IsTxHash, With0x, TopicAddress, TopicReadable, Renderable, Digits;
    RenderableHasAmounts(row);
    DeliveryIsExact(row, whitelist, timestamp);
    TopicRoundTrip(row.token0);
  }

  // Malformed columns.

  /** The row as its own columns spell it. */
  function PlainForm(row: Row, entry: Entry, timestamp: int): Tick
    requires row.event.Some? && row.amount0.Some? && row.amount1.Some?
  {
    var e := row.event.value;
    var single := e in {Supply, Borrow, Withdraw};
    Tick(row.blockNumber, timestamp, if IsUniswapEvent(e) then UniswapV3 else AaveV3, e, Lower(row.pool),
         if IsUniswapEvent(e) then Lower(entry.meta.token0) else Lower(row.token0),
         if IsUniswapEvent(e) then Lower(entry.meta.token1) else if single then ZERO_ADDRESS else Lower(row.token1),
         row.amount0.value, if single then 0 else row.amount1.value,
         With0x(row.txHash), row.logIndex)
  }

  lemma WellFormedIsPlain(row: Row, entry: Entry, timestamp: int)
    requires row.event.Some? && row.amount0.Some? && row.amount1.Some? && WellFormed(row)
    ensures ColumnsReadable(row) && Normalize(row, entry, timestamp) == PlainForm(row, entry, timestamp)
  {
    hide Lower, IsAddress, With0x, TopicAddress, TopicReadable;
    LowerKeepsAddress(row.pool);
    if !IsUniswapEvent(row.event.value) {
      AddressIsReadable(row.token0);
      if row.event.value == Liquidation {
        AddressIsReadable(row.token1);
      }
    }
  }

  /** A malformed asset column that is delivered all the same names another contract. */
  lemma MalformedTokenArrives(row: Row, whitelist: Whitelist, timestamp: int)
    requires Deliverable(row, whitelist) && !IsUniswapEvent(row.event.value) && |Digits(row.token0)| != 40
    ensures !WellFormed(row) && Deliver(row, whitelist, timestamp).Some?
    ensures IsAddress(Deliver(row, whitelist, timestamp).value.token0)
    ensures Deliver(row, whitelist, timestamp).value.token0 != With0x(Lower(row.token0))
  {
    hide Deliver, Lower, IsAddress, IsTxHash, With0x, TopicAddress, TopicReadable, Renderable, Digits;
    RenderableHasAmounts(row);
    DeliveryIsExact(row, whitelist, timestamp);
    TopicAddressIsAddress(row.token0);
    TopicRoundTrip(row.token0);
    if IsAddress(row.token0) {
      AddressIsReadable(row.token0);
    }
  }

  function Zeros(n: nat): string {
    seq(n, _ => '0')
  }

  /** A supply row whose asset column holds `n` digits. */
  function ColumnRow(n: nat): Row {
    Row(1, "", Some(Supply), "0x" + Zeros(40), "0x" + Zeros(n), ZERO_ADDRESS, Some(1), Some(0), "0x" + Zeros(64), 0)
  }

  lemma ZerosAreHex(n: nat)
    ensures AllHex(Zeros(n)) && Lower("0x" + Zeros(n)) == "0x" + Zeros(n) && ("0x" + Zeros(n))[2..] == Zeros(n)
  {
    forall i | 0 <= i < n ensures IsHexDigit(Zeros(n)[i]) {
      assert Zeros(n)[i] == '0';
    }
  }

  /** Such rows exist, too long and too short: any even number of digits from 16 on gets through. */
  lemma MalformedColumnsExist(n: nat, timestamp: int)
    requires n >= 16 && n % 2 == 0 && n != 40
    ensures var row, whitelist := ColumnRow(n), map["0x" + Zeros(40) := Entry(AaveV3, PoolMeta("", ""))];
            !WellFormed(row) && Deliver(row, whitelist, timestamp).Some?
  {
    hide Zeros, Deliver, Lower, IsAddress, IsTxHash, With0x, RemovePrefix0x, InRange, AllHex;
    var row, whitelist := ColumnRow(n), map["0x" + Zeros(40) := Entry(AaveV3, PoolMeta("", ""))];
    ZeroTexts(40);
    ZeroTexts(64);
    ZeroTexts(n);
    RangeOfOne();
    DeliveryIsExact(row, whitelist, timestamp);
  }

  lemma ZeroTexts(n: nat)
    ensures var s := "0x" + Zeros(n);
            && Lower(s) == s && With0x(s) == s && RemovePrefix0x(s) == Zeros(n) && |Zeros(n)| == n && AllHex(Zeros(n))
            && (IsAddress(s) <==> n == 40) && (IsTxHash(s) <==> n == 64)
  {
    ZerosAreHex(n);
  }

  lemma RangeOfOne()
    ensures InRange(Uint256(), 1)
  {
    assert Pow256(1) == 256;
    Pow256Monotone(1, 32);
  }
}
