/** The hand-written decoders of tools/extract_fixtures.py, which slice 32-byte words out of the hex
    text, against the ABI-typed decoders of the ingestion path. */
module FixtureDecoders {
  import opened Prelude
  import opened HexText
  import opened Abi
  import opened Events
  import opened Decoders
  import opened Router

  /** The 64 digits of word `k`; `None` is the ValueError on text without prefix or too short. */
  function SliceData(data: string, k: nat): Option<string> {
    if !("0x" <= data) || |data| < 2 + 64 * k + 64 then None
    else Some(data[2 + 64 * k..2 + 64 * k + 64])
  }

  function IntFromHex(data: string, k: nat, signed: bool): Option<int> {
    var word := SliceData(data, k);
    if word.None? then None
    else
      var n := ParseHex(word.value);
      if n.None? then None
      else Some(if signed && 2 * n.value >= Pow256(32) then n.value - Pow256(32) else n.value)
  }

  /** Python's `s.replace("0x", "")`. */
  function Without0x(s: string): string {
    if |s| < 2 then s
    else if s[..2] == "0x" then Without0x(s[2..])
    else [s[0]] + Without0x(s[1..])
  }

  function Rjust(s: string, width: nat): string {
    if |s| >= width then s else seq(width - |s|, _ => '0') + s
  }

  function HexToAddr(word: string): string {
    "0x" + LastN(Rjust(Without0x(Lower(word)), 64), 40)
  }

  function SwapAmounts(log: Log): Option<(int, int)> {
    var a0, a1 := IntFromHex(log.data, 0, true), IntFromHex(log.data, 1, true);
    if a0.None? || a1.None? then None else Some((a0.value, a1.value))
  }

  /** Supply and borrow: amount in word 1, asset in the first indexed topic. */
  function SingleAsset(log: Log): Option<Payload> {
    var a := IntFromHex(log.data, 1, false);
    if a.None? || |log.topics| < 1 then None
    else Some(Payload(a.value, 0, Lower(HexToAddr(log.topics[0])), ZERO_ADDRESS))
  }

  function LiquidationFields(log: Log): Option<Payload> {
    var debt, collateral := IntFromHex(log.data, 0, false), IntFromHex(log.data, 1, false);
    if debt.None? || collateral.None? || |log.topics| < 2 then None
    else
      Some(Payload(collateral.value, debt.value,
                   Lower(HexToAddr(log.topics[0])), Lower(HexToAddr(log.topics[1]))))
  }

  /** Reading digits is reading the bytes they spell, big-endian. */
  lemma ParseHexPair(front: string, hi: char, lo: char)
    requires IsHexDigit(hi) && IsHexDigit(lo) && (front != "" ==> ParseHex(front).Some?)
    ensures ParseHex(front + [hi, lo])
         == Some((if front == "" then 0 else ParseHex(front).value) * 256
                 + DigitValue(hi).value * 16 + DigitValue(lo).value)
  {
    hide ParseHex, DigitValue;
    assert front + [hi, lo] == front + [hi] + [lo];
    ParseHexStep(front, hi);
    ParseHexStep(front + [hi], lo);
  }

  lemma ParseHexStep(front: string, c: char)
    requires IsHexDigit(c) && (front != "" ==> ParseHex(front).Some?)
    ensures ParseHex(front + [c])
         == Some((if front == "" then 0 else ParseHex(front).value) * 16 + DigitValue(c).value)
  {
    hide DigitValue;
    assert (front + [c])[..|front|] == front;
  }

  lemma FromBytesAppend(bytes: seq<Byte>, b: Byte)
    ensures FromBytes(bytes + [b]) == 256 * FromBytes(bytes) + b
  {
    assert (bytes + [b])[..|bytes|] == bytes;
  }

  lemma {:induction false} ParseHexOfBytes(s: string)
    requires s != "" && BytesFromHex(s).Some?
    ensures ParseHex(s) == Some(FromBytes(BytesFromHex(s).value))
  {
    hide ParseHex, FromBytes, IsHexDigit;
    var front, hi, lo := s[..|s| - 2], s[|s| - 2], s[|s| - 1];
    assert s == front + [hi, lo];
    FromHexLast(front, hi, lo);
    FromHexAppend(front, hi, lo);
    if front != "" {
      ParseHexOfBytes(front);
    } else {
      NoBytes();
    }
    ParseHexPair(front, hi, lo);
    FromBytesAppend(BytesFromHex(front).value, DigitValue(hi).value * 16 + DigitValue(lo).value);
  }

  lemma NoBytes()
    ensures FromBytes([]) == 0
  {
  }

  lemma CutOut(a: string, b: string, c: string, k: nat, m: nat)
    requires BytesFromHex(a + b + c).Some? && |a| == 64 * k && |b| == 64 && |c| == 2 * m
    ensures BytesFromHex(b).Some?
    ensures var bytes := BytesFromHex(a + b + c).value;
            32 * k + 32 <= |bytes| && bytes[32 * k..32 * k + 32] == BytesFromHex(b).value
  {
    FromHexSplit(a + b, c, m);
    FromHexSplit(a, b, 32);
  }

  /** A sliced word has the value of the 32 bytes at its offset. */
  lemma SliceIsWord(data: string, bytes: seq<Byte>, k: nat)
    requires "0x" <= data && BytesFromHex(data[2..]) == Some(bytes) && 32 * k + 32 <= |bytes|
    ensures SliceData(data, k).Some?
    ensures ParseHex(SliceData(data, k).value) == Some(FromBytes(bytes[32 * k..32 * k + 32]))
  {
    var h := data[2..];
    var a, b, c := h[..64 * k], h[64 * k..64 * k + 64], h[64 * k + 64..];
    assert BytesFromHex(b).Some? && BytesFromHex(b).value == bytes[32 * k..32 * k + 32] by {
      assert h == a + b + c;
      CutOut(a, b, c, k, |bytes| - 32 * k - 32);
    }
    assert data[2 + 64 * k..2 + 64 * k + 64] == b;
    ParseHexOfBytes(b);
  }

  lemma WordValue(t: AbiType, word: seq<Byte>, n: nat)
    requires DecodeWord(t, word).Some? && n == FromBytes(word)
    ensures DecodeWord(t, word).value == if Signed(t) && 2 * n >= Pow256(32) then n - Pow256(32) else n
  {
  }

  lemma IntOfWord(data: string, k: nat, signed: bool, n: nat)
    requires SliceData(data, k).Some? && ParseHex(SliceData(data, k).value) == Some(n)
    ensures IntFromHex(data, k, signed) == Some(if signed && 2 * n >= Pow256(32) then n - Pow256(32) else n)
  {
    hide Pow256, ParseHex, SliceData;
  }

  /** What a typed decoder accepts at position `k`, the slicer reads as the same integer. */
  lemma SliceAgrees(types: seq<AbiType>, data: string, bytes: seq<Byte>, k: nat)
    requires "0x" <= data && BytesFromHex(data[2..]) == Some(bytes)
    requires Decode(types, bytes).Some? && k < |types|
    ensures IntFromHex(data, k, Signed(types[k])) == Some(Decode(types, bytes).value[k])
  {
    DecodeAt(types, bytes, k);
    var word := bytes[32 * k..32 * k + 32];
    var n := FromBytes(word);
    WordValue(types[k], word, n);
    SliceIsWord(data, bytes, k);
    IntOfWord(data, k, Signed(types[k]), n);
  }

  lemma {:induction false} NothingToRemove(s: string)
    requires 'x' !in s
    ensures Without0x(s) == s
  {
    if |s| >= 2 {
      assert s[1] == 'x' ==> 'x' in s;
      assert s == [s[0]] + s[1..];
      NothingToRemove(s[1..]);
    }
  }

  lemma WordDigits(topic: string)
    requires "0x" <= topic && AllHex(topic[2..])
    ensures Without0x(Lower(topic)) == Lower(topic[2..])
  {
    var low := Lower(topic);
    assert low[..2] == "0x";
    assert low[2..] == Lower(topic[2..]);
    LowerKeepsHex(topic[2..]);
    forall i | 0 <= i < |low[2..]| ensures low[2..][i] != 'x' {
      assert IsHexDigit(Lower(topic[2..])[i]);
    }
    NothingToRemove(low[2..]);
  }

  lemma TypedTopic(topic: string)
    requires "0x" <= topic && BytesFromHex(topic[2..]).Some?
    ensures |topic| >= 42 ==> TopicToAddr(topic) == Some("0x" + Lower(topic[|topic| - 40..]))
    ensures |topic| < 42 ==> TopicToAddr(topic).Some? && |TopicToAddr(topic).value| == |topic|
  {
    var h := topic[2..];
    if |topic| >= 42 {
      var head, tail := h[..|h| - 40], topic[|topic| - 40..];
      assert h == head + tail;
      LastBytes(head, tail, 20);
    }
  }

  lemma TailOfLower(digits: string)
    requires |digits| >= 40
    ensures LastN(Rjust(Lower(digits), 64), 40) == Lower(digits[|digits| - 40..])
  {
    var low := Lower(digits);
    assert low[|low| - 40..] == Lower(digits[|digits| - 40..]);
  }

  lemma LowerPrefixed(word: string)
    ensures Lower("0x" + Lower(word)) == "0x" + Lower(word)
  {
    LowerIdempotent(word);
    assert Lower("0x" + Lower(word)) == "0x" + Lower(Lower(word));
  }

  /** What the hand-written slicer makes of a topic of digits. */
  lemma SlicedTopic(topic: string)
    requires "0x" <= topic && AllHex(topic[2..])
    ensures |Lower(HexToAddr(topic))| == 42
    ensures |topic| >= 42 ==> Lower(HexToAddr(topic)) == "0x" + Lower(topic[|topic| - 40..])
  {
    WordDigits(topic);
    if |topic| >= 42 {
      var word := topic[|topic| - 40..];
      assert topic[2..][|topic[2..]| - 40..] == word;
      TailOfLower(topic[2..]);
      LowerPrefixed(word);
    }
  }

  /** Both decoders name the same asset exactly when the topic holds at least 20 bytes. */
  lemma AssetsAgreeIff(topic: string)
    requires "0x" <= topic && BytesFromHex(topic[2..]).Some?
    ensures TopicToAddr(topic) == Some(Lower(HexToAddr(topic))) <==> |topic| >= 42
  {
    hide TopicToAddr, HexToAddr, BytesFromHex, AllHex, Lower;
    FromHexSucceeds(topic[2..]);
    TypedTopic(topic);
    SlicedTopic(topic);
  }

  ghost predicate WellFormedTopics(log: Log) {
    forall i :: 0 <= i < |log.topics| ==>
      "0x" <= log.topics[i] && |log.topics[i]| == 66 && BytesFromHex(log.topics[i][2..]).Some?
  }

  /** Swaps: whatever the typed decoder accepts, the word slicer reads as the same two amounts. */
  lemma SwapDecodersAgree(log: Log, bytes: seq<Byte>)
    requires "0x" <= log.data && DataBytes(log.data) == Some(bytes) && UniswapAmounts(Swap, bytes).Some?
    ensures SwapAmounts(log) == UniswapAmounts(Swap, bytes)
  {
    SliceAgrees(SWAP_TYPES(), log.data, bytes, 0);
    SliceAgrees(SWAP_TYPES(), log.data, bytes, 1);
  }

  lemma AaveAmountsAgree(log: Log, bytes: seq<Byte>, e: Event)
    requires "0x" <= log.data && DataBytes(log.data) == Some(bytes)
    requires e in {Supply, Borrow, Liquidation} && AaveAmounts(e, bytes).Some?
    ensures IntFromHex(log.data, 1, false) == Some(AaveAmounts(e, bytes).value.0)
    ensures e == Liquidation ==> IntFromHex(log.data, 0, false) == Some(AaveAmounts(e, bytes).value.1)
    ensures e != Liquidation ==> AaveAmounts(e, bytes).value.1 == 0
  {
    match e
    case Supply => SliceAgrees(SUPPLY_TYPES(), log.data, bytes, 1);
    case Borrow => SliceAgrees(BORROW_TYPES(), log.data, bytes, 1);
    case Liquidation =>
      SliceAgrees(LIQUIDATION_TYPES(), log.data, bytes, 0);
      SliceAgrees(LIQUIDATION_TYPES(), log.data, bytes, 1);
  }

  /** Supply, borrow and liquidation: the same amounts and the same assets. */
  lemma AaveDecodersAgree(log: Log, bytes: seq<Byte>, e: Event)
    requires "0x" <= log.data && DataBytes(log.data) == Some(bytes) && WellFormedTopics(log)
    requires e in {Supply, Borrow, Liquidation}
    requires AaveAmounts(e, bytes).Some? && AaveAssets(e, log.topics).Some?
    ensures var amounts, assets := AaveAmounts(e, bytes).value, AaveAssets(e, log.topics).value;
            (if e == Liquidation then LiquidationFields(log) else SingleAsset(log))
            == Some(Payload(amounts.0, amounts.1, assets.0, assets.1))
  {
    hide IntFromHex, AaveAmounts, TopicToAddr, HexToAddr, DataBytes, Lower;
    AaveAmountsAgree(log, bytes, e);
    AssetsAgreeIff(log.topics[0]);
    if e == Liquidation {
      AssetsAgreeIff(log.topics[1]);
    }
  }
}
