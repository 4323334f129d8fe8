/** The static part of the Solidity Contract ABI Specification ("Formal Specification of the
    Encoding"): every value is one 32-byte big-endian word. */
module Abi {
  import opened Prelude
  import opened HexText

  function Pow256(k: nat): (p: nat)
    ensures p >= 1
  {
    if k == 0 then 1 else 256 * Pow256(k - 1)
  }

  /** Integer types are given by their size in bytes: `uint128` is `UInt(16)`. */
  datatype AbiType = UInt(size: nat) | SInt(size: nat) | Address | Bool

  predicate InRange(t: AbiType, v: int) {
    match t
    case UInt(k) => 0 <= v < Pow256(k)
    case SInt(k) => -(Pow256(k) as int) <= 2 * v < Pow256(k)
    case Address => 0 <= v < Pow256(20)
    case Bool => 0 <= v <= 1
  }

  predicate FitsWord(t: AbiType) {
    match t
    case UInt(k) => k <= 32
    case SInt(k) => k <= 32
    case Address => true
    case Bool => true
  }

  predicate Signed(t: AbiType) { t.SInt? }

  /** Big-endian value of a byte string. */
  function FromBytes(b: seq<Byte>): (n: nat) {
    if b == [] then 0 else 256 * FromBytes(b[..|b| - 1]) + b[|b| - 1]
  }

  /** The `k`-th byte of `n`, counted from the least significant. */
  function ByteOf(n: nat, k: nat): Byte
    decreases k
  {
    if k == 0 then n % 256 else ByteOf(n / 256, k - 1)
  }

  function ToBytes(n: nat, len: nat): (b: seq<Byte>)
    ensures |b| == len
  {
    seq(len, i requires 0 <= i < len => ByteOf(n, len - 1 - i))
  }

  lemma ToBytesStep(n: nat, len: nat)
    requires len > 0
    ensures ToBytes(n, len) == ToBytes(n / 256, len - 1) + [n % 256]
  {
    var b := ToBytes(n / 256, len - 1) + [n % 256];
    forall i | 0 <= i < len ensures ToBytes(n, len)[i] == b[i] {
      assert ToBytes(n, len)[i] == ByteOf(n, len - 1 - i);
      if i < len - 1 {
        assert b[i] == ByteOf(n / 256, len - 2 - i);
      }
    }
  }

  lemma {:induction false} FromBytesOfToBytes(n: nat, len: nat)
    requires n < Pow256(len)
    ensures FromBytes(ToBytes(n, len)) == n
    decreases len
  {
    if len > 0 {
      FromBytesOfToBytes(n / 256, len - 1);
      ToBytesStep(n, len);
      var b := ToBytes(n, len);
      assert b[..|b| - 1] == ToBytes(n / 256, len - 1);
    }
  }

  lemma {:induction false} ToBytesOfFromBytes(b: seq<Byte>)
    ensures FromBytes(b) < Pow256(|b|)
    ensures ToBytes(FromBytes(b), |b|) == b
  {
    if b != [] {
      ToBytesOfFromBytes(b[..|b| - 1]);
      ToBytesStep(FromBytes(b), |b|);
      assert b == b[..|b| - 1] + [b[|b| - 1]];
    }
  }

  lemma {:induction false} Pow256Monotone(a: nat, b: nat)
    requires a <= b
    ensures Pow256(a) <= Pow256(b)
    decreases b - a
  {
    if a < b {
      Pow256Monotone(a, b - 1);
    }
  }

  /** Two's complement of a word. */
  function AsSigned(n: nat): int {
    if 2 * n < Pow256(32) then n else n - Pow256(32)
  }

  /** The word that stands for `v` modulo 2^256. */
  function Unsigned(v: int): nat {
    if v >= 0 then v else Max(v + Pow256(32), 0)
  }

  lemma TwosComplement(v: int)
    requires -(Pow256(32) as int) <= 2 * v < Pow256(32)
    ensures Unsigned(v) < Pow256(32) && AsSigned(Unsigned(v)) == v
  {
    hide Pow256;
  }

  lemma TwosComplementBack(n: nat)
    requires n < Pow256(32)
    ensures -(Pow256(32) as int) <= 2 * AsSigned(n) < Pow256(32) && Unsigned(AsSigned(n)) == n
  {
    hide Pow256;
  }

  function EncodeWord(t: AbiType, v: int): Option<seq<Byte>> {
    if !FitsWord(t) || !InRange(t, v) then None
    else Some(ToBytes(Unsigned(v), 32))
  }

  /** A strict decoder: a word whose padding is not the type's own is refused. */
  function DecodeWord(t: AbiType, word: seq<Byte>): Option<int> {
    var n := FromBytes(word);
    var v := if Signed(t) then AsSigned(n) else n;
    if |word| == 32 && FitsWord(t) && InRange(t, v) then Some(v) else None
  }

  lemma RangeFitsWord(t: AbiType, v: int)
    requires FitsWord(t) && InRange(t, v)
    ensures if Signed(t) then -(Pow256(32) as int) <= 2 * v < Pow256(32) else 0 <= v < Pow256(32)
  {
    match t
    case UInt(k) => Pow256Monotone(k, 32);
    case SInt(k) => Pow256Monotone(k, 32);
    case Address => Pow256Monotone(20, 32);
    case Bool => Pow256Monotone(1, 32);
  }

  /** A value encodes exactly when it is in range, and its word decodes to it. */
  lemma WordRoundTrip(t: AbiType, v: int)
    requires FitsWord(t)
    ensures EncodeWord(t, v).Some? <==> InRange(t, v)
    ensures InRange(t, v) ==> DecodeWord(t, EncodeWord(t, v).value) == Some(v)
  {
    if InRange(t, v) {
      RangeFitsWord(t, v);
      if Signed(t) {
        TwosComplement(v);
      }
      var word := ToBytes(Unsigned(v), 32);
      assert FromBytes(word) == Unsigned(v) by {
        FromBytesOfToBytes(Unsigned(v), 32);
      }
    }
  }

  /** Full words leave no value out: every one of 32 bytes decodes, in both readings. */
  lemma AnyWord(word: seq<Byte>)
    requires |word| == 32
    ensures DecodeWord(UInt(32), word) == Some(FromBytes(word))
    ensures DecodeWord(SInt(32), word)
         == Some(if 2 * FromBytes(word) < Pow256(32) then FromBytes(word) else FromBytes(word) - Pow256(32))
  {
    hide Pow256;
    ToBytesOfFromBytes(word);
    TwosComplementBack(FromBytes(word));
  }

  lemma {:induction false} LeadingZeros(word: seq<Byte>, k: nat)
    requires k <= |word|
    ensures FromBytes(word) < Pow256(k) <==> forall i :: 0 <= i < |word| - k ==> word[i] == 0
    decreases |word|
  {
    if word != [] {
      var front, last := word[..|word| - 1], word[|word| - 1];
      if k > 0 {
        LeadingZeros(front, k - 1);
      } else {
        LeadingZeros(front, 0);
      }
    }
  }

  /** A narrow unsigned word is accepted exactly if its padding is zeros. */
  lemma NarrowWord(word: seq<Byte>, k: nat)
    requires |word| == 32 && k <= 32
    ensures DecodeWord(UInt(k), word).Some? <==> forall i :: 0 <= i < 32 - k ==> word[i] == 0
  {
    LeadingZeros(word, k);
  }

  /** Only one word decodes to a value: its own encoding. */
  lemma WordCanonical(t: AbiType, word: seq<Byte>)
    requires DecodeWord(t, word).Some?
    ensures EncodeWord(t, DecodeWord(t, word).value) == Some(word)
  {
    var n := FromBytes(word);
    assert n < Pow256(32) && ToBytes(n, 32) == word by {
      ToBytesOfFromBytes(word);
    }
    TwosComplementBack(n);
    assert Unsigned(DecodeWord(t, word).value) == n;
  }

  function Encode(types: seq<AbiType>, values: seq<int>): (r: Option<seq<Byte>>)
    requires |types| == |values|
    ensures r.Some? ==> |r.value| == 32 * |types|
  {
    if types == [] then Some([])
    else
      var word := EncodeWord(types[0], values[0]);
      var rest := Encode(types[1..], values[1..]);
      if word.None? || rest.None? then None else Some(word.value + rest.value)
  }

  /** Too little data is an error; trailing data is ignored. */
  function Decode(types: seq<AbiType>, data: seq<Byte>): (r: Option<seq<int>>)
    ensures r.Some? ==> |r.value| == |types| && 32 * |types| <= |data|
  {
    if types == [] then Some([])
    else if |data| < 32 then None
    else
      var v := DecodeWord(types[0], data[..32]);
      var rest := Decode(types[1..], data[32..]);
      if v.None? || rest.None? then None else Some([v.value] + rest.value)
  }

  predicate AllInRange(types: seq<AbiType>, values: seq<int>)
    requires |types| == |values|
  {
    types == [] || (InRange(types[0], values[0]) && AllInRange(types[1..], values[1..]))
  }

  predicate AllFit(types: seq<AbiType>) {
    types == [] || (FitsWord(types[0]) && AllFit(types[1..]))
  }

  /** A tuple encodes exactly when every component is in range. */
  lemma {:induction false} TupleEncodes(types: seq<AbiType>, values: seq<int>)
    requires |types| == |values| && AllFit(types)
    ensures Encode(types, values).Some? <==> AllInRange(types, values)
  {
    if types != [] {
      WordRoundTrip(types[0], values[0]);
      TupleEncodes(types[1..], values[1..]);
    }
  }

  lemma DecodeCons(types: seq<AbiType>, word: seq<Byte>, rest: seq<Byte>)
    requires types != [] && |word| == 32
    requires DecodeWord(types[0], word).Some? && Decode(types[1..], rest).Some?
    ensures Decode(types, word + rest)
         == Some([DecodeWord(types[0], word).value] + Decode(types[1..], rest).value)
  {
    assert (word + rest)[..32] == word && (word + rest)[32..] == rest;
  }

  /** Decoding undoes encoding, whatever follows the tuple. */
  lemma {:induction false} TupleRoundTrip(types: seq<AbiType>, values: seq<int>, extra: seq<Byte>)
    requires |types| == |values| && AllFit(types) && AllInRange(types, values)
    ensures Encode(types, values).Some?
    ensures Decode(types, Encode(types, values).value + extra) == Some(values)
  {
    TupleEncodes(types, values);
    if types != [] {
      var word, rest := EncodeWord(types[0], values[0]), Encode(types[1..], values[1..]);
      WordRoundTrip(types[0], values[0]);
      TupleRoundTrip(types[1..], values[1..], extra);
      DecodeCons(types, word.value, rest.value + extra);
      assert Encode(types, values).value + extra == word.value + (rest.value + extra);
      assert values == [values[0]] + values[1..];
    }
  }

  /** Each decoded component is the decoding of its own 32-byte slice. */
  lemma {:induction false} DecodeAt(types: seq<AbiType>, data: seq<Byte>, k: nat)
    requires Decode(types, data).Some? && k < |types|
    ensures 32 * k + 32 <= |data|
    ensures DecodeWord(types[k], data[32 * k..32 * k + 32]) == Some(Decode(types, data).value[k])
  {
    if k > 0 {
      DecodeAt(types[1..], data[32..], k - 1);
      assert data[32..][32 * (k - 1)..32 * (k - 1) + 32] == data[32 * k..32 * k + 32];
    }
  }
}
