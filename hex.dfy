/** Bytes, hexadecimal strings and the few string helpers the console relies on. */
module Hex {
  import opened Wrappers

  type Byte = x: int | 0 <= x < 256

  predicate StartsWith(s: string, prefix: string) {
    |prefix| <= |s| && s[..|prefix|] == prefix
  }

  /** `value.startsWith('0x')`: the test viem uses for "is a hex string" when not strict. */
  predicate HasHexPrefix(s: string) {
    StartsWith(s, "0x")
  }

  /** ASCII lower-casing. Against the all-ASCII constants this model compares with, it agrees
      with JavaScript's `toLowerCase`, since no non-ASCII character lower-cases to a single
      ASCII letter or digit other than the Kelvin sign, which becomes `k`. */
  function LowerChar(c: char): (r: char)
    ensures 'A' <= c <= 'Z' ==> r as int == c as int + 32
    ensures !('A' <= c <= 'Z') ==> r == c
  {
    if 'A' <= c <= 'Z' then (c as int + 32) as char else c
  }

  function Lower(s: string): (r: string)
    ensures |r| == |s|
    ensures forall i :: 0 <= i < |s| ==> r[i] == LowerChar(s[i])
  {
    if s == [] then [] else [LowerChar(s[0])] + Lower(s[1..])
  }

  lemma LowerOfLower(s: string)
    requires forall i :: 0 <= i < |s| ==> !('A' <= s[i] <= 'Z')
    ensures Lower(s) == s
  {
  }

  lemma NoUpperOfLower(s: string)
    requires Lower(s) == s
    ensures forall i :: 0 <= i < |s| ==> !('A' <= s[i] <= 'Z')
  {
    forall i | 0 <= i < |s| ensures !('A' <= s[i] <= 'Z') {
      assert s[i] == Lower(s)[i] == LowerChar(s[i]);
    }
  }

  /** The value of one hexadecimal digit, either case. */
  function NibbleValue(c: char): (r: Option<nat>)
    ensures r.Some? ==> r.value < 16
    ensures r.Some? <==> ('0' <= c <= '9' || 'a' <= c <= 'f' || 'A' <= c <= 'F')
  {
    if '0' <= c <= '9' then Some(c as int - '0' as int)
    else if 'a' <= c <= 'f' then Some(c as int - 'a' as int + 10)
    else if 'A' <= c <= 'F' then Some(c as int - 'A' as int + 10)
    else None
  }

  predicate IsHexDigit(c: char) {
    NibbleValue(c).Some?
  }

  /** The lower-case digit of a nibble. */
  function NibbleChar(n: nat): (c: char)
    requires n < 16
    ensures NibbleValue(c) == Some(n)
    ensures '0' <= c <= '9' || 'a' <= c <= 'f'
  {
    if n < 10 then ('0' as int + n) as char else ('a' as int + n - 10) as char
  }

  /** Two lower-case digits per byte, most significant nibble first. */
  function Digits(b: seq<Byte>): (s: string)
    ensures |s| == 2 * |b|
    ensures forall i :: 0 <= i < |s| ==> IsHexDigit(s[i]) && !('A' <= s[i] <= 'Z')
  {
    if b == [] then [] else [NibbleChar(b[0] / 16), NibbleChar(b[0] % 16)] + Digits(b[1..])
  }

  /** viem's `bytesToHex`: lower-case, `0x`-prefixed. */
  function ToHex(b: seq<Byte>): (s: string)
    ensures HasHexPrefix(s) && |s| == 2 + 2 * |b|
  {
    "0x" + Digits(b)
  }

  /** Pairs of digits to bytes; the first pair that is not two hex digits fails. */
  function PairsToBytes(d: string): (r: Result<seq<Byte>>)
    requires |d| % 2 == 0
    ensures r.Ok? ==> |r.value| == |d| / 2
    ensures r.Ok? <==> forall i :: 0 <= i < |d| ==> IsHexDigit(d[i])
  {
    if d == [] then Ok([])
    else
      match (NibbleValue(d[0]), NibbleValue(d[1]))
      case (Some(hi), Some(lo)) =>
        var rest := PairsToBytes(d[2..]);
        if rest.Err? then rest
        else
          assert forall i :: 2 <= i < |d| ==> d[i] == d[2..][i - 2];
          Ok([hi * 16 + lo] + rest.value)
      case _ => Err(InvalidHex)
  }

  /** viem's `hexToBytes`: the first two characters are dropped whatever they are, an
      odd number of digits gets a leading `0`, and any non-digit throws. */
  function HexToBytes(s: string): (r: Result<seq<Byte>>)
    ensures r.Ok? ==> |r.value| == (SizeOfDigits(s) + 1) / 2
    ensures r.Ok? <==> forall i :: 2 <= i < |s| ==> IsHexDigit(s[i])
  {
    var digits := if |s| >= 2 then s[2..] else [];
    var padded := if |digits| % 2 == 1 then "0" + digits else digits;
    assert forall i :: 2 <= i < |s| ==> s[i] == digits[i - 2];
    assert forall i :: 0 <= i < |digits| ==> digits[i] == padded[i + |padded| - |digits|];
    PairsToBytes(padded)
  }

  function SizeOfDigits(s: string): nat {
    if |s| >= 2 then |s| - 2 else 0
  }

  /** viem's `size`: bytes of a `0x` string (rounded up), or the length of anything else. */
  function Size(s: string): (n: nat)
    ensures HasHexPrefix(s) ==> n == (|s| - 2 + 1) / 2
    ensures !HasHexPrefix(s) ==> n == |s|
  {
    if HasHexPrefix(s) then (|s| - 2 + 1) / 2 else |s|
  }

  /** `size` of a `0x` string that converts counts the bytes it converts to. */
  lemma SizeCountsBytes(p: string)
    requires HasHexPrefix(p) && HexToBytes(p).Ok?
    ensures Size(p) == |HexToBytes(p).value|
  {
  }

  /** `size` of the hex of some bytes is their number. */
  lemma SizeOfHex(b: seq<Byte>)
    ensures Size(ToHex(b)) == |b|
  {
  }

  /** viem's `slice(value, start)` with no end (or an end past the data): for a `0x` string
      the digits from byte `start` on, re-prefixed; for anything else the characters from
      `start` on. */
  function SliceFrom(s: string, start: nat): (r: string)
    ensures HasHexPrefix(s) ==> HasHexPrefix(r)
  {
    if HasHexPrefix(s) then
      "0x" + (if 2 + 2 * start <= |s| then s[2 + 2 * start..] else [])
    else if start <= |s| then s[start..] else []
  }

  /** viem's `slice(value, 0, end)`. */
  function SliceTo(s: string, end: nat): string {
    if HasHexPrefix(s) then "0x" + s[2..if 2 + 2 * end <= |s| then 2 + 2 * end else |s|]
    else s[..if end <= |s| then end else |s|]
  }

  /** viem's strict `isHex`: `0x` followed only by hex digits. */
  predicate IsHex(s: string) {
    HasHexPrefix(s) && forall i :: 2 <= i < |s| ==> IsHexDigit(s[i])
  }

  lemma {:induction false} PairsOfDigits(b: seq<Byte>)
    ensures PairsToBytes(Digits(b)) == Ok(b)
  {
    if b != [] {
      PairsOfDigits(b[1..]);
      PairsCons(b[0], Digits(b[1..]));
      assert [b[0]] + b[1..] == b;
    }
  }

  /** The two digits of a byte read back as that byte in front of the rest. */
  lemma PairsCons(x: Byte, rest: string)
    requires |rest| % 2 == 0 && PairsToBytes(rest).Ok?
    ensures PairsToBytes([NibbleChar(x / 16), NibbleChar(x % 16)] + rest) == Ok([x] + PairsToBytes(rest).value)
  {
    var hi, lo := x / 16, x % 16;
    var d := [NibbleChar(hi), NibbleChar(lo)] + rest;
    assert d[2..] == rest;
    assert NibbleValue(d[0]) == Some(hi) && NibbleValue(d[1]) == Some(lo);
    assert hi * 16 + lo == x;
  }

  /** Reading back what `ToHex` wrote gives the same bytes. */
  lemma {:induction false} HexRoundTrip(b: seq<Byte>)
    ensures HexToBytes(ToHex(b)) == Ok(b)
  {
    var s := ToHex(b);
    assert s[2..] == Digits(b);
    PairsOfDigits(b);
  }

  /** Writing back what `HexToBytes` read gives the lower-cased digits, for an even count. */
  lemma {:induction false} DigitsOfPairs(d: string)
    requires |d| % 2 == 0
    requires PairsToBytes(d).Ok?
    ensures Digits(PairsToBytes(d).value) == Lower(d)
  {
    if d != [] {
      DigitsOfPairs(d[2..]);
      var hi := NibbleValue(d[0]).value;
      var lo := NibbleValue(d[1]).value;
      var x := hi * 16 + lo;
      assert x / 16 == hi && x % 16 == lo;
      assert NibbleChar(hi) == LowerChar(d[0]);
      assert NibbleChar(lo) == LowerChar(d[1]);
      assert Lower(d) == [LowerChar(d[0])] + Lower(d[1..]);
      assert Lower(d[1..]) == [LowerChar(d[1])] + Lower(d[2..]);
    }
  }

  /** A `0x` string of an even number of lower-case digits is the hex of its own bytes. */
  lemma CanonicalHex(s: string)
    requires HasHexPrefix(s) && |s| % 2 == 0
    requires forall i :: 2 <= i < |s| ==> IsHexDigit(s[i]) && !('A' <= s[i] <= 'Z')
    ensures HexToBytes(s).Ok?
    ensures ToHex(HexToBytes(s).value) == s
  {
    var d := s[2..];
    assert forall i :: 0 <= i < |d| ==> d[i] == s[i + 2];
    DigitsOfPairs(d);
    LowerOfLower(d);
    assert s == "0x" + d;
  }

  /** A lower-case `0x` prefix of whole bytes followed by the digits of some bytes is the hex
      of its own bytes. */
  lemma CanonicalJoin(prefix: string, b: seq<Byte>)
    requires HasHexPrefix(prefix) && |prefix| % 2 == 0
    requires forall i :: 2 <= i < |prefix| ==> IsHexDigit(prefix[i]) && !('A' <= prefix[i] <= 'Z')
    ensures HexToBytes(prefix + Digits(b)).Ok?
    ensures ToHex(HexToBytes(prefix + Digits(b)).value) == prefix + Digits(b)
  {
    var d := Digits(b);
    var s := prefix + d;
    forall i | 2 <= i < |s| ensures IsHexDigit(s[i]) && !('A' <= s[i] <= 'Z') {
      if i < |prefix| {
        assert s[i] == prefix[i];
      } else {
        assert s[i] == d[i - |prefix|];
      }
    }
    assert s[..2] == prefix[..2];
    CanonicalHex(s);
  }
}
