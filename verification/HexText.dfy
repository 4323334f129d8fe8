/** Hexadecimal text as the wire carries it: Python's `bytes.hex`, `bytes.fromhex`, `hex`, `int` and
    ASCII `lower`. */
module HexText {
  import opened Prelude

  type Byte = n: nat | n < 256

  const DIGITS: string := "0123456789abcdef"

  function DigitValue(c: char): Option<nat> {
    if '0' <= c <= '9' then Some((c - '0') as nat)
    else if 'a' <= c <= 'f' then Some((c - 'a') as nat + 10)
    else if 'A' <= c <= 'F' then Some((c - 'A') as nat + 10)
    else None
  }

  predicate IsHexDigit(c: char) {
    DigitValue(c).Some?
  }

  predicate AllHex(s: string) {
    forall i :: 0 <= i < |s| ==> IsHexDigit(s[i])
  }

  function LowerChar(c: char): char {
    if 'A' <= c <= 'Z' then 'a' + (c - 'A') else c
  }

  function Lower(s: string): string {
    seq(|s|, i requires 0 <= i < |s| => LowerChar(s[i]))
  }

  function RemovePrefix0x(s: string): string {
    if "0x" <= s then s[2..] else s
  }

  /** Lower-cased, with `0x` put in front when missing: `_addr`. */
  function With0x(s: string): string {
    if "0x" <= s then s else "0x" + s
  }

  function ByteHex(b: Byte): string {
    [DIGITS[b / 16], DIGITS[b % 16]]
  }

  /** `bytes.hex()`. */
  function BytesToHex(bytes: seq<Byte>): (s: string)
    ensures |s| == 2 * |bytes|
  {
    if bytes == [] then "" else BytesToHex(bytes[..|bytes| - 1]) + ByteHex(bytes[|bytes| - 1])
  }

  /** `bytes.fromhex()`: an even number of digits, of either case. */
  function BytesFromHex(s: string): (r: Option<seq<Byte>>)
    ensures r.Some? ==> 2 * |r.value| == |s|
  {
    if s == "" then Some([])
    else if |s| == 1 then None
    else
      var front := BytesFromHex(s[..|s| - 2]);
      var hi, lo := DigitValue(s[|s| - 2]), DigitValue(s[|s| - 1]);
      if front.None? || hi.None? || lo.None? then None
      else Some(front.value + [hi.value * 16 + lo.value])
  }

  lemma DigitRoundTrip(n: nat)
    requires n < 16
    ensures DigitValue(DIGITS[n]) == Some(n) && LowerChar(DIGITS[n]) == DIGITS[n]
  {
  }

  lemma LowerOfDigit(c: char)
    requires IsHexDigit(c)
    ensures DigitValue(c).value < 16 && DIGITS[DigitValue(c).value] == LowerChar(c)
  {
  }

  lemma FromHexPair(t: string, front: seq<Byte>)
    requires |t| >= 2 && BytesFromHex(t[..|t| - 2]) == Some(front)
    requires IsHexDigit(t[|t| - 2]) && IsHexDigit(t[|t| - 1])
    ensures BytesFromHex(t)
         == Some(front + [DigitValue(t[|t| - 2]).value * 16 + DigitValue(t[|t| - 1]).value])
  {
  }

  lemma FromHexAppend(s: string, hi: char, lo: char)
    requires BytesFromHex(s).Some? && IsHexDigit(hi) && IsHexDigit(lo)
    ensures BytesFromHex(s + [hi, lo])
         == Some(BytesFromHex(s).value + [DigitValue(hi).value * 16 + DigitValue(lo).value])
  {
    hide BytesFromHex, DigitValue;
    var t := s + [hi, lo];
    assert t[..|t| - 2] == s && t[|t| - 2] == hi && t[|t| - 1] == lo;
    FromHexPair(t, BytesFromHex(s).value);
  }

  lemma ToHexAppend(bytes: seq<Byte>, b: Byte)
    ensures BytesToHex(bytes + [b]) == BytesToHex(bytes) + ByteHex(b)
  {
    assert (bytes + [b])[..|bytes|] == bytes;
  }

  lemma ByteOfDigits(b: Byte, hi: char, lo: char)
    requires ByteHex(b) == [hi, lo]
    ensures IsHexDigit(hi) && IsHexDigit(lo) && DigitValue(hi).value * 16 + DigitValue(lo).value == b
  {
    assert ByteHex(b)[0] == hi && ByteHex(b)[1] == lo;
    DigitRoundTrip(b / 16);
    DigitRoundTrip(b % 16);
  }

  lemma FromHexOfPair(s: string, b: Byte, hi: char, lo: char)
    requires BytesFromHex(s).Some? && ByteHex(b) == [hi, lo]
    ensures BytesFromHex(s + [hi, lo]) == Some(BytesFromHex(s).value + [b])
  {
    hide *;
    ByteOfDigits(b, hi, lo);
    FromHexAppend(s, hi, lo);
  }

  lemma {:induction false} FromHexOfToHex(bytes: seq<Byte>)
    ensures BytesFromHex(BytesToHex(bytes)) == Some(bytes)
  {
    if bytes != [] {
      var front, b := bytes[..|bytes| - 1], bytes[|bytes| - 1];
      assert bytes == front + [b];
      FromHexOfToHex(front);
      ToHexAppend(front, b);
      FromHexOfPair(BytesToHex(front), b, ByteHex(b)[0], ByteHex(b)[1]);
    }
  }

  /** Parsing succeeds exactly on even-length digit strings. */
  lemma {:induction false} FromHexSucceeds(s: string)
    ensures BytesFromHex(s).Some? <==> |s| % 2 == 0 && AllHex(s)
  {
    if |s| >= 2 {
      FromHexSucceeds(s[..|s| - 2]);
      assert AllHex(s) <==> AllHex(s[..|s| - 2]) && IsHexDigit(s[|s| - 2]) && IsHexDigit(s[|s| - 1]) by {
        if AllHex(s[..|s| - 2]) && IsHexDigit(s[|s| - 2]) && IsHexDigit(s[|s| - 1]) {
          forall i | 0 <= i < |s| ensures IsHexDigit(s[i]) {
            if i < |s| - 2 {
              assert IsHexDigit(s[..|s| - 2][i]);
            }
          }
        }
      }
    }
  }

  lemma PairSplits(h: nat, l: nat)
    requires h < 16 && l < 16
    ensures (h * 16 + l) / 16 == h && (h * 16 + l) % 16 == l
  {
  }

  lemma LowerOfPair(hi: char, lo: char)
    requires IsHexDigit(hi) && IsHexDigit(lo)
    ensures ByteHex(DigitValue(hi).value * 16 + DigitValue(lo).value) == [LowerChar(hi), LowerChar(lo)]
  {
    hide DigitValue, LowerChar;
    LowerOfDigit(hi);
    LowerOfDigit(lo);
    PairSplits(DigitValue(hi).value, DigitValue(lo).value);
  }

  lemma LowerAppend(s: string, hi: char, lo: char)
    ensures Lower(s + [hi, lo]) == Lower(s) + [LowerChar(hi), LowerChar(lo)]
  {
  }

  lemma FromHexLast(s: string, hi: char, lo: char)
    requires BytesFromHex(s + [hi, lo]).Some?
    ensures BytesFromHex(s).Some? && IsHexDigit(hi) && IsHexDigit(lo)
  {
    var t := s + [hi, lo];
    assert t[..|t| - 2] == s && t[|t| - 2] == hi && t[|t| - 1] == lo;
  }

  lemma ToHexStep(front: string, hi: char, lo: char)
    requires BytesFromHex(front + [hi, lo]).Some? && BytesFromHex(front).Some?
    requires BytesToHex(BytesFromHex(front).value) == Lower(front)
    ensures BytesToHex(BytesFromHex(front + [hi, lo]).value) == Lower(front + [hi, lo])
  {
    hide BytesFromHex, BytesToHex, Lower;
    FromHexLast(front, hi, lo);
    FromHexAppend(front, hi, lo);
    ToHexAppend(BytesFromHex(front).value, DigitValue(hi).value * 16 + DigitValue(lo).value);
    LowerOfPair(hi, lo);
    LowerAppend(front, hi, lo);
  }

  /** Re-printing parsed text normalizes its case and nothing else. */
  lemma {:induction false} ToHexOfFromHex(s: string)
    requires BytesFromHex(s).Some?
    ensures BytesToHex(BytesFromHex(s).value) == Lower(s)
  {
    if s != "" {
      var front, hi, lo := s[..|s| - 2], s[|s| - 2], s[|s| - 1];
      assert s == front + [hi, lo];
      ToHexOfFromHex(front);
      ToHexStep(front, hi, lo);
    }
  }

  /** Lower-casing shifts the capital letters, all of them, and nothing else. */
  lemma LowerIs(s: string, i: nat)
    requires i < |s|
    ensures |Lower(s)| == |s| && !('A' <= Lower(s)[i] <= 'Z')
    ensures 'A' <= s[i] <= 'Z' ==> Lower(s)[i] as int == s[i] as int + 32
    ensures !('A' <= s[i] <= 'Z') ==> Lower(s)[i] == s[i]
  {
  }

  lemma LowerIdempotent(s: string)
    ensures Lower(Lower(s)) == Lower(s)
  {
  }

  lemma LowerKeepsHex(s: string)
    ensures AllHex(Lower(s)) <==> AllHex(s)
  {
    forall i | 0 <= i < |s| ensures IsHexDigit(Lower(s)[i]) <==> IsHexDigit(s[i]) {
    }
  }

  /** `int(digits, 16)` for text without sign or prefix. */
  function ParseHex(s: string): Option<nat> {
    if s == "" then None
    else
      var d := DigitValue(s[|s| - 1]);
      if |s| == 1 then d
      else
        var front := ParseHex(s[..|s| - 1]);
        if front.None? || d.None? then None else Some(front.value * 16 + d.value)
  }

  function HexDigits(n: nat): string
    decreases n
  {
    if n < 16 then [DIGITS[n]] else HexDigits(n / 16) + [DIGITS[n % 16]]
  }

  /** Python's `hex(n)`. */
  function Hex(n: int): string {
    if n >= 0 then "0x" + HexDigits(n) else "-0x" + HexDigits(-n)
  }

  lemma {:induction false} ParseHexOfDigits(n: nat)
    ensures ParseHex(HexDigits(n)) == Some(n)
    decreases n
  {
    var s := HexDigits(n);
    if n < 16 {
      DigitRoundTrip(n);
    } else {
      ParseHexOfDigits(n / 16);
      DigitRoundTrip(n % 16);
      assert s[..|s| - 1] == HexDigits(n / 16);
    }
  }

  /** `int(text)` for an optional minus sign and decimal digits. */
  function ParseDecimalDigits(s: string): Option<nat> {
    if s == "" || !('0' <= s[|s| - 1] <= '9') then None
    else
      var d := (s[|s| - 1] - '0') as nat;
      if |s| == 1 then Some(d)
      else
        var front := ParseDecimalDigits(s[..|s| - 1]);
        if front.None? then None else Some(front.value * 10 + d)
  }

  function ParseDecimal(s: string): Option<int> {
    if "-" <= s then
      var digits := ParseDecimalDigits(s[1..]);
      match digits case None => None case Some(n) => Some(-(n as int))
    else
      var digits := ParseDecimalDigits(s);
      match digits case None => None case Some(n) => Some(n)
  }

  /** `_to_int`: hexadecimal when it starts with `0x`, decimal otherwise. */
  function ToInt(s: string): Option<int> {
    if "0x" <= s then
      var n := ParseHex(s[2..]);
      if n.None? then None else Some(n.value)
    else ParseDecimal(s)
  }

  lemma {:induction false} DecimalNeedsDigits(s: string, i: nat)
    requires i < |s| && !('0' <= s[i] <= '9')
    ensures ParseDecimalDigits(s).None?
  {
    if i < |s| - 1 {
      DecimalNeedsDigits(s[..|s| - 1], i);
    }
  }

  /** A number printed by `hex` is read back by `_to_int` exactly when it is not negative. */
  lemma ToIntOfHex(n: int)
    ensures n >= 0 ==> ToInt(Hex(n)) == Some(n)
    ensures n < 0 ==> ToInt(Hex(n)) == None
  {
    if n >= 0 {
      ParseHexOfDigits(n);
      assert Hex(n)[2..] == HexDigits(n);
    } else {
      assert Hex(n)[1..] == "0x" + HexDigits(-n);
      assert Hex(n)[0] == '-';
      DecimalNeedsDigits(Hex(n)[1..], 1);
    }
  }

  /** `int(text, 16)` for a prefixed number, which may have a sign. */
  function ReadHex(s: string): Option<int> {
    var n := if "-0x" <= s then ParseHex(s[3..]) else if "0x" <= s then ParseHex(s[2..]) else None;
    match n
    case None => None
    case Some(m) => if "-0x" <= s then Some(-(m as int)) else Some(m)
  }

  lemma ReadHexOfHex(n: int)
    ensures ReadHex(Hex(n)) == Some(n)
  {
    if n >= 0 {
      ParseHexOfDigits(n);
      assert Hex(n)[0] == '0' && Hex(n)[2..] == HexDigits(n);
    } else {
      ParseHexOfDigits(-n);
      assert Hex(n)[3..] == HexDigits(-n);
    }
  }

  predicate IsAddress(s: string) {
    |s| == 42 && "0x" <= s && AllHex(s[2..])
  }

  predicate IsTxHash(s: string) {
    |s| == 66 && "0x" <= s && AllHex(s[2..])
  }

  lemma LowerAddress(s: string)
    ensures IsAddress(Lower(s)) <==> (|s| == 42 && s[0] == '0' && s[1] in "xX" && AllHex(s[2..]))
  {
    if |s| == 42 {
      assert Lower(s)[2..] == Lower(s[2..]);
      LowerKeepsHex(s[2..]);
      assert Lower(s)[0] == LowerChar(s[0]) && Lower(s)[1] == LowerChar(s[1]);
    }
  }
}
