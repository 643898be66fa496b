/** UTF-8 as RFC 3629 section 4 defines it, read the way a WHATWG `TextDecoder("utf-8")`
    reads it: a leading byte-order mark is skipped, and an ill-formed sequence either makes the
    decoder fail (`fatal: true`) or becomes one U+FFFD per maximal ill-formed subpart. */
module Utf8 {
  import opened Wrappers
  import opened Hex

  /** A Unicode scalar value: a code point that is not a surrogate. */
  predicate IsScalar(cp: int) {
    (0 <= cp < 0xD800) || (0xE000 <= cp < 0x110000)
  }

  /** What the decoder makes of the bytes at one position. */
  datatype Step =
    | Scalar(cp: int, len: nat)  // a well-formed sequence of `len` bytes
    | Bad(len: nat)              // an ill-formed subpart of `len` bytes, one U+FFFD

  predicate InRange(b: Byte, lo: int, hi: int) {
    lo <= b <= hi
  }

  /** The bytes a lead byte asks for, and the range its first continuation byte must lie in
      (the narrow ranges after E0, ED, F0 and F4 exclude overlong forms, surrogates and code
      points past U+10FFFF). */
  function Needed(lead: Byte): (r: (nat, int, int))
    ensures r.0 <= 3
  {
    if 0xC2 <= lead <= 0xDF then (1, 0x80, 0xBF)
    else if lead == 0xE0 then (2, 0xA0, 0xBF)
    else if lead == 0xED then (2, 0x80, 0x9F)
    else if 0xE1 <= lead <= 0xEF then (2, 0x80, 0xBF)
    else if lead == 0xF0 then (3, 0x90, 0xBF)
    else if lead == 0xF4 then (3, 0x80, 0x8F)
    else if 0xF1 <= lead <= 0xF3 then (3, 0x80, 0xBF)
    else (0, 0, 0)
  }

  /** One step of the decoder at the head of `b`. */
  function StepAt(b: seq<Byte>): (r: Step)
    requires b != []
    ensures 1 <= r.len <= |b| && r.len <= 4
    ensures r.Scalar? ==> IsScalar(r.cp)
  {
    var lead: int := b[0];
    if lead < 0x80 then Scalar(lead, 1)
    else
      var (n, lo, hi) := Needed(lead);
      if n == 0 then Bad(1)
      else if |b| < 2 || !InRange(b[1], lo, hi) then Bad(1)
      else if n == 1 then Scalar((lead - 0xC0) * 64 + (b[1] as int - 0x80), 2)
      else if |b| < 3 || !InRange(b[2], 0x80, 0xBF) then Bad(2)
      else if n == 2 then Scalar((lead - 0xE0) * 4096 + (b[1] as int - 0x80) * 64 + (b[2] as int - 0x80), 3)
      else if |b| < 4 || !InRange(b[3], 0x80, 0xBF) then Bad(3)
      else Scalar((lead - 0xF0) * 262144 + (b[1] as int - 0x80) * 4096
                  + (b[2] as int - 0x80) * 64 + (b[3] as int - 0x80), 4)
  }

  /** Strict decoding of bytes with no byte-order mark handling. */
  function DecodeStrictRaw(b: seq<Byte>): (r: Option<string>)
    decreases |b|
  {
    if b == [] then Some([])
    else
      match StepAt(b)
      case Bad(_) => None
      case Scalar(cp, n) =>
        match DecodeStrictRaw(b[n..])
        case None => None
        case Some(rest) => Some([cp as char] + rest)
  }

  /** Lossy decoding: each ill-formed subpart becomes U+FFFD. */
  function DecodeLossyRaw(b: seq<Byte>): (r: string)
    decreases |b|
  {
    if b == [] then []
    else
      match StepAt(b)
      case Bad(n) => ['\U{FFFD}'] + DecodeLossyRaw(b[n..])
      case Scalar(cp, n) => [cp as char] + DecodeLossyRaw(b[n..])
  }

  const Bom: seq<Byte> := [0xEF, 0xBB, 0xBF]

  function SkipBom(b: seq<Byte>): (r: seq<Byte>)
    ensures |r| <= |b|
  {
    if |b| >= 3 && b[..3] == Bom then b[3..] else b
  }

  /** `new TextDecoder("utf8", { fatal: true }).decode(b)`; `None` is the thrown TypeError. */
  function DecodeStrict(b: seq<Byte>): Option<string> {
    DecodeStrictRaw(SkipBom(b))
  }

  /** `new TextDecoder().decode(b)`, which never throws. */
  function DecodeLossy(b: seq<Byte>): string {
    DecodeLossyRaw(SkipBom(b))
  }

  /** Where the strict decoder succeeds, the lossy one gives the same text. */
  lemma {:induction false} LossyAgreesWithStrictRaw(b: seq<Byte>)
    requires DecodeStrictRaw(b).Some?
    ensures DecodeLossyRaw(b) == DecodeStrictRaw(b).value
    decreases |b|
  {
    if b != [] {
      var n := StepAt(b).len;
      LossyAgreesWithStrictRaw(b[n..]);
    }
  }

  lemma LossyAgreesWithStrict(b: seq<Byte>)
    requires DecodeStrict(b).Some?
    ensures DecodeLossy(b) == DecodeStrict(b).value
  {
    LossyAgreesWithStrictRaw(SkipBom(b));
  }

  /** The lossy decoder marks failure: bytes that are not well-formed UTF-8 always decode to
      a text holding U+FFFD. */
  lemma {:induction false} LossyMarksIllFormed(b: seq<Byte>)
    requires DecodeStrictRaw(b).None?
    ensures '\U{FFFD}' in DecodeLossyRaw(b)
    decreases |b|
  {
    match StepAt(b)
    case Bad(_) =>
    case Scalar(cp, n) =>
      LossyMarksIllFormed(b[n..]);
  }

  /** The UTF-8 encoding of one scalar value, RFC 3629 section 3. */
  function EncodeChar(c: char): (r: seq<Byte>)
    ensures 1 <= |r| <= 4
  {
    var v := c as int;
    if v < 0x80 then [v]
    else if v < 0x800 then [0xC0 + v / 64, 0x80 + v % 64]
    else if v < 0x10000 then [0xE0 + v / 4096, 0x80 + (v / 64) % 64, 0x80 + v % 64]
    else [0xF0 + v / 262144, 0x80 + (v / 4096) % 64, 0x80 + (v / 64) % 64, 0x80 + v % 64]
  }

  /** `TextEncoder.encode` / ethers' `toUtf8Bytes` on a string of scalar values. */
  function Encode(s: string): (r: seq<Byte>)
    ensures |r| >= |s|
  {
    if s == [] then [] else EncodeChar(s[0]) + Encode(s[1..])
  }

  lemma StepTwo(v: int, rest: seq<Byte>)
    requires 0x80 <= v < 0x800
    ensures var e := [0xC0 + v / 64, 0x80 + v % 64];
            StepAt(e + rest) == Scalar(v, 2)
  {
    var e: seq<Byte> := [0xC0 + v / 64, 0x80 + v % 64];
    var b := e + rest;
    assert b[0] == 0xC0 + v / 64 && b[1] == 0x80 + v % 64;
    assert 0xC2 <= b[0] <= 0xDF;
  }

  lemma StepThree(v: int, rest: seq<Byte>)
    requires 0x800 <= v < 0x10000 && IsScalar(v)
    ensures var e := [0xE0 + v / 4096, 0x80 + (v / 64) % 64, 0x80 + v % 64];
            StepAt(e + rest) == Scalar(v, 3)
  {
    var e: seq<Byte> := [0xE0 + v / 4096, 0x80 + (v / 64) % 64, 0x80 + v % 64];
    var b := e + rest;
    var q := v / 64;
    assert v == q * 64 + v % 64;
    assert q == (q / 64) * 64 + q % 64;
    assert q / 64 == v / 4096;
    assert b[0] == 0xE0 + v / 4096 && b[1] == 0x80 + q % 64 && b[2] == 0x80 + v % 64;
    if b[0] == 0xE0 {
      assert q >= 32;
    }
    if b[0] == 0xED {
      assert v < 0xD800;
      assert q % 64 < 32;
    }
  }

  lemma StepFour(v: int, rest: seq<Byte>)
    requires 0x10000 <= v < 0x110000
    ensures var e := [0xF0 + v / 262144, 0x80 + (v / 4096) % 64, 0x80 + (v / 64) % 64, 0x80 + v % 64];
            StepAt(e + rest) == Scalar(v, 4)
  {
    var e: seq<Byte> := [0xF0 + v / 262144, 0x80 + (v / 4096) % 64, 0x80 + (v / 64) % 64, 0x80 + v % 64];
    var b := e + rest;
    var q := v / 64;
    var p := q / 64;
    assert v == q * 64 + v % 64;
    assert q == p * 64 + q % 64;
    assert p == (p / 64) * 64 + p % 64;
    assert p == v / 4096;
    assert p / 64 == v / 262144;
    assert b[0] == 0xF0 + p / 64 && b[1] == 0x80 + p % 64;
    assert b[2] == 0x80 + q % 64 && b[3] == 0x80 + v % 64;
    if b[0] == 0xF0 {
      assert p >= 16;
    }
    if b[0] == 0xF4 {
      assert p % 64 < 16;
    }
  }

  /** The decoder reads one encoded scalar back as itself, whatever follows it. */
  lemma StepEncodeChar(c: char, rest: seq<Byte>)
    ensures StepAt(EncodeChar(c) + rest) == Scalar(c as int, |EncodeChar(c)|)
  {
    var v := c as int;
    if v < 0x80 {
    } else if v < 0x800 {
      StepTwo(v, rest);
    } else if v < 0x10000 {
      StepThree(v, rest);
    } else {
      StepFour(v, rest);
    }
  }

  /** Strict decoding inverts encoding. */
  lemma {:induction false} DecodeEncodeRaw(s: string)
    ensures DecodeStrictRaw(Encode(s)) == Some(s)
  {
    if s != [] {
      var e := EncodeChar(s[0]);
      var b := Encode(s);
      assert b == e + Encode(s[1..]);
      StepEncodeChar(s[0], Encode(s[1..]));
      assert b[|e|..] == Encode(s[1..]);
      DecodeEncodeRaw(s[1..]);
      assert (s[0] as int) as char == s[0];
      assert [s[0]] + s[1..] == s;
    }
  }

  /** Only an encoded U+FEFF begins with the byte-order mark. */
  lemma BomOnlyFromFeff(c: char, rest: seq<Byte>)
    ensures var b := EncodeChar(c) + rest; |b| >= 3 && b[..3] == Bom ==> c == '\U{FEFF}'
  {
    var b := EncodeChar(c) + rest;
    if |b| >= 3 && b[..3] == Bom {
      StepEncodeChar(c, rest);
      assert b[0] == 0xEF && b[1] == 0xBB && b[2] == 0xBF;
      assert StepAt(b) == Scalar(0xFEFF, 3);
    }
  }

  /** Text sent as the UTF-8 bytes of a string decodes back to that string, unless it begins
      with U+FEFF, which the decoder takes for a byte-order mark. */
  lemma DecodeEncode(s: string)
    requires s == [] || s[0] != '\U{FEFF}'
    ensures DecodeStrict(Encode(s)) == Some(s)
    ensures DecodeLossy(Encode(s)) == s
  {
    var b := Encode(s);
    if s != [] {
      assert b == EncodeChar(s[0]) + Encode(s[1..]);
      BomOnlyFromFeff(s[0], Encode(s[1..]));
    }
    assert SkipBom(b) == b;
    DecodeEncodeRaw(s);
    LossyAgreesWithStrict(b);
  }
}
