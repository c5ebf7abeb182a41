/**
 * The random secrets the flows hand out: the six-digit decimal reset code of the live
 * server (`Math.floor(100000 + Math.random() * 900000).toString()`) and the hex token of
 * `genTokenHex` (`crypto.randomBytes(len).toString('hex')`). The random source is an input.
 */
module Codes {

  type Byte = b: int | 0 <= b < 256

  predicate IsDigit(c: char)
  {
    '0' <= c <= '9'
  }

  predicate AllDigits(s: string)
  {
    forall i :: 0 <= i < |s| ==> IsDigit(s[i])
  }

  function DigitChar(d: nat): (c: char)
    requires d < 10
  {
    ('0' as int + d) as char
  }

  function DigitValue(c: char): nat
    requires IsDigit(c)
  {
    c as int - '0' as int
  }

  /** Reads a string of decimal digits as a number (most significant digit first). */
  function ParseDecimal(s: string): nat
    requires AllDigits(s)
  {
    if s == [] then 0 else ParseDecimal(s[..|s| - 1]) * 10 + DigitValue(s[|s| - 1])
  }

  /** `n.toString()` for a natural number: decimal digits whose value is `n`. */
  function DecimalString(n: nat): (s: string)
    ensures |s| >= 1 && AllDigits(s)
    ensures ParseDecimal(s) == n
  {
    if n < 10 then [DigitChar(n)]
    else
      var s := DecimalString(n / 10) + [DigitChar(n % 10)];
      assert s[..|s| - 1] == DecimalString(n / 10);
      s
  }

  function Pow10(k: nat): (p: nat)
    ensures p >= 1
  {
    if k == 0 then 1 else 10 * Pow10(k - 1)
  }

  /** A number with k+1 digits prints as k+1 characters. */
  lemma {:induction false} DecimalLength(n: nat, k: nat)
    requires Pow10(k) <= n < Pow10(k + 1)
    ensures |DecimalString(n)| == k + 1
  {
    if k > 0 {
      DecimalLength(n / 10, k - 1);
    }
  }

  /** The live server's reset code for the random draw `r`, i.e. the number `100000 + r`. */
  function ResetCode(r: nat): (code: string)
    requires r < 900000
    ensures |code| == 6 && AllDigits(code)
    ensures 100000 <= ParseDecimal(code) <= 999999
    ensures ParseDecimal(code) == 100000 + r
  {
    DecimalLength(100000 + r, 5);
    DecimalString(100000 + r)
  }

  predicate IsHexDigit(c: char)
  {
    '0' <= c <= '9' || 'a' <= c <= 'f'
  }

  function HexChar(d: nat): char
    requires d < 16
  {
    if d < 10 then ('0' as int + d) as char else ('a' as int + d - 10) as char
  }

  function HexValue(c: char): nat
    requires IsHexDigit(c)
  {
    if c <= '9' then c as int - '0' as int else c as int - 'a' as int + 10
  }

  /** `Buffer.toString('hex')`: two lower-case hex digits per byte, high nibble first. */
  function HexEncode(bytes: seq<Byte>): (s: string)
    ensures |s| == 2 * |bytes|
    ensures forall i :: 0 <= i < |s| ==> IsHexDigit(s[i])
  {
    if bytes == [] then []
    else [HexChar(bytes[0] / 16), HexChar(bytes[0] % 16)] + HexEncode(bytes[1..])
  }

  /** Reads back pairs of hex digits as bytes; the inverse of HexEncode. */
  function HexDecode(s: string): seq<Byte>
    requires |s| % 2 == 0
    requires forall i :: 0 <= i < |s| ==> IsHexDigit(s[i])
  {
    if s == [] then []
    else [HexValue(s[0]) * 16 + HexValue(s[1])] + HexDecode(s[2..])
  }

  /** Hex encoding loses nothing. */
  lemma {:induction false} HexRoundTrip(bytes: seq<Byte>)
    ensures HexDecode(HexEncode(bytes)) == bytes
  {
    if bytes != [] {
      var s := HexEncode(bytes);
      assert s[2..] == HexEncode(bytes[1..]);
      HexRoundTrip(bytes[1..]);
      assert [bytes[0]] + bytes[1..] == bytes;
    }
  }

  /** `genTokenHex(len)` for the random bytes `bytes` (of length `len`). */
  function TokenHex(bytes: seq<Byte>): (token: string)
    ensures |token| == 2 * |bytes|
    ensures forall i :: 0 <= i < |token| ==> IsHexDigit(token[i])
    ensures HexDecode(token) == bytes
  {
    HexRoundTrip(bytes);
    HexEncode(bytes)
  }
}
