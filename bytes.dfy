/** The optional value used for JavaScript's `undefined` and for calls that may throw. */
module Wrappers {
  datatype Option<+T> = None | Some(value: T)
}

/**
 * Byte strings and the three byte helpers the resolver uses:
 * `arrayify` (ethers: "0x"-prefixed hex text to bytes), `zeroPad` (ethers: left-pad
 * with zero bytes, failing when the value is longer than the width) and
 * `uint8ArrayToHex` (wormhole SDK: bytes to lower-case hex text without prefix).
 */
module Bytes {
  import opened Wrappers

  type Byte = b: int | 0 <= b < 256

  /** A Solana public key or an Algorand public key: always exactly 32 bytes. */
  type Key32 = s: seq<Byte> | |s| == 32 witness seq(32, _ => 0)

  predicate IsLowerHexDigit(c: char) {
    '0' <= c <= '9' || 'a' <= c <= 'f'
  }

  function NibbleChar(n: int): (c: char)
    requires 0 <= n < 16
    ensures IsLowerHexDigit(c)
  {
    if n < 10 then ('0' as int + n) as char else ('a' as int + n - 10) as char
  }

  /** The value of one hex digit; both letter cases are accepted, as ethers does. */
  function NibbleValue(c: char): (v: Option<int>)
    ensures v.Some? <==> ('0' <= c <= '9' || 'a' <= c <= 'f' || 'A' <= c <= 'F')
    ensures v.Some? ==> 0 <= v.value < 16
  {
    if '0' <= c <= '9' then Some(c as int - '0' as int)
    else if 'a' <= c <= 'f' then Some(c as int - 'a' as int + 10)
    else if 'A' <= c <= 'F' then Some(c as int - 'A' as int + 10)
    else None
  }

  lemma NibbleRoundTrip(n: int)
    requires 0 <= n < 16
    ensures NibbleValue(NibbleChar(n)) == Some(n)
  {
  }

  /** `uint8ArrayToHex`: two lower-case digits per byte, high nibble first. */
  function ToHex(b: seq<Byte>): (h: string)
    ensures |h| == 2 * |b|
    ensures forall i :: 0 <= i < |h| ==> IsLowerHexDigit(h[i])
  {
    if b == [] then "" else [NibbleChar(b[0] / 16), NibbleChar(b[0] % 16)] + ToHex(b[1..])
  }

  /** Hex text (no prefix, even length, either letter case) to bytes; None where ethers throws. */
  function ParseHex(s: string): (r: Option<seq<Byte>>)
    ensures r.Some? ==> 2 * |r.value| == |s|
    ensures |s| % 2 == 1 ==> r.None?
  {
    if s == [] then Some([])
    else if |s| == 1 then None
    else
      match (NibbleValue(s[0]), NibbleValue(s[1]), ParseHex(s[2..]))
      case (Some(hi), Some(lo), Some(rest)) => Some([hi * 16 + lo] + rest)
      case _ => None
  }

  /** A hex digit of either case, as `arrayify` accepts. */
  predicate IsHexDigit(c: char) {
    '0' <= c <= '9' || 'a' <= c <= 'f' || 'A' <= c <= 'F'
  }

  /** `ParseHex` fails exactly on odd length or a character that is not a hex digit. */
  lemma {:induction false} ParseHexAccepts(s: string)
    ensures ParseHex(s).Some? <==> |s| % 2 == 0 && forall i :: 0 <= i < |s| ==> IsHexDigit(s[i])
  {
    if |s| >= 2 {
      ParseHexAccepts(s[2..]);
      assert forall i :: 2 <= i < |s| ==> s[i] == s[2..][i - 2];
    }
  }

  lemma {:induction false} HexRoundTrip(b: seq<Byte>)
    ensures ParseHex(ToHex(b)) == Some(b)
  {
    if b != [] {
      var h := ToHex(b);
      NibbleRoundTrip(b[0] / 16);
      NibbleRoundTrip(b[0] % 16);
      assert h[2..] == ToHex(b[1..]);
      HexRoundTrip(b[1..]);
      assert [b[0] / 16 * 16 + b[0] % 16] + b[1..] == b;
    }
  }

  /** Distinct byte strings have distinct hex renderings. */
  lemma ToHexInjective(a: seq<Byte>, b: seq<Byte>)
    requires ToHex(a) == ToHex(b)
    ensures a == b
  {
    HexRoundTrip(a);
    HexRoundTrip(b);
  }

  /** A hex digit as `ToHex` would write it: upper-case letters become lower-case. */
  function LowerDigit(c: char): (l: char)
    ensures IsHexDigit(c) ==> IsLowerHexDigit(l) && NibbleValue(l) == NibbleValue(c)
  {
    if 'A' <= c <= 'F' then (c as int - 'A' as int + 'a' as int) as char else c
  }

  function Lower(s: string): (l: string)
    ensures |l| == |s|
    ensures forall i :: 0 <= i < |s| ==> l[i] == LowerDigit(s[i])
  {
    seq(|s|, i requires 0 <= i < |s| => LowerDigit(s[i]))
  }

  /** The digit a nibble value is written as, for a digit of either case. */
  lemma NibbleReads(c: char)
    requires IsHexDigit(c)
    ensures NibbleChar(NibbleValue(c).value) == LowerDigit(c)
  {
  }

  /** Parsed hex text, written back by `ToHex`, is the text with its letters lower-cased. */
  lemma {:induction false} ParseHexReads(s: string)
    requires ParseHex(s).Some?
    ensures ToHex(ParseHex(s).value) == Lower(s)
  {
    if s != [] {
      var hi, lo, rest := NibbleValue(s[0]).value, NibbleValue(s[1]).value, ParseHex(s[2..]).value;
      assert ParseHex(s).value == [hi * 16 + lo] + rest;
      assert (hi * 16 + lo) / 16 == hi && (hi * 16 + lo) % 16 == lo;
      NibbleReads(s[0]);
      NibbleReads(s[1]);
      ParseHexReads(s[2..]);
      assert ([hi * 16 + lo] + rest)[1..] == rest;
      assert Lower(s) == [LowerDigit(s[0]), LowerDigit(s[1])] + Lower(s[2..]);
    }
  }

  /** ethers `arrayify` on a string: it must be "0x" followed by an even number of hex digits. */
  function Arrayify(s: string): (r: Option<seq<Byte>>)
    ensures r.Some? ==> |s| == 2 + 2 * |r.value| && s[..2] == "0x"
  {
    if |s| >= 2 && s[..2] == "0x" then ParseHex(s[2..]) else None
  }

  /** What ethers accepts as a hex data string: "0x", then an even number of hex digits. */
  predicate IsHexString(s: string) {
    |s| >= 2 && s[..2] == "0x" && |s| % 2 == 0 && forall i :: 2 <= i < |s| ==> IsHexDigit(s[i])
  }

  /** `arrayify` succeeds exactly on hex data strings, in either letter case. */
  lemma ArrayifyAccepts(s: string)
    ensures Arrayify(s).Some? <==> IsHexString(s)
  {
    if |s| >= 2 {
      ParseHexAccepts(s[2..]);
      assert forall i :: 2 <= i < |s| ==> s[i] == s[2..][i - 2];
    }
  }

  /** The bytes `arrayify` reads are those of the digits after "0x", in either letter case. */
  lemma ArrayifyReads(s: string)
    requires Arrayify(s).Some?
    ensures ToHex(Arrayify(s).value) == Lower(s[2..])
  {
    ParseHexReads(s[2..]);
  }

  lemma ArrayifyRoundTrip(b: seq<Byte>)
    ensures Arrayify("0x" + ToHex(b)) == Some(b)
  {
    var s := "0x" + ToHex(b);
    assert s[..2] == "0x" && s[2..] == ToHex(b);
    HexRoundTrip(b);
  }

  /**
   * ethers `zeroPad(value, n)`: a fresh n-byte array holding `value` at its end;
   * it throws (None here) when the value is longer than n bytes.
   */
  function ZeroPad(b: seq<Byte>, n: nat): (r: Option<seq<Byte>>)
    ensures r.Some? <==> |b| <= n
    ensures r.Some? ==> |r.value| == n && r.value[n - |b|..] == b
    ensures r.Some? ==> forall i :: 0 <= i < n - |b| ==> r.value[i] == 0
  {
    if |b| <= n then Some(seq(n - |b|, _ => 0) + b) else None
  }

  /** Padding a value that already has the full width leaves it as it is. */
  lemma ZeroPadFullWidth(b: seq<Byte>)
    ensures ZeroPad(b, |b|) == Some(b)
  {
    assert seq(0, _ => 0) + b == b;
  }
}
