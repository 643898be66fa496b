/** How the panels turn a hex payload into the text of a table cell. */
module PayloadText {
  import opened Wrappers
  import opened Hex
  import Utf8

  /** `fromHex(p, 'string')` with the throw caught: the bytes read by a non-fatal UTF-8
      decoder, or the hex itself followed by " (hex)" when a digit is invalid. */
  function LossyText(p: string): string {
    match HexToBytes(p)
    case Err(_) => p + " (hex)"
    case Ok(b) => Utf8.DecodeLossy(b)
  }

  /** The strict rule of the notice cells: a strict hex string whose bytes are well-formed
      UTF-8 is shown as text; anything else as itself followed by " (hex)". */
  function StrictText(p: string): string {
    if !IsHex(p) then p + " (hex)"
    else match HexToBytes(p)
      case Err(_) => p + " (hex)"
      case Ok(b) =>
        match Utf8.DecodeStrict(b)
        case None => p + " (hex)"
        case Some(t) => t
  }

  /** A voucher's input payload: the hex, marked, or "(empty)". */
  function MarkedHex(p: string): (r: string)
    ensures p == "" ==> r == "(empty)"
    ensures p != "" ==> r == p + " (hex)"
  {
    if p != "" then p + " (hex)" else "(empty)"
  }

  /** A notice's or report's input payload, or a report's payload: decoded, or "(empty)". */
  function DecodedOrEmpty(p: string): (r: string)
    ensures p == "" ==> r == "(empty)"
    ensures p != "" ==> r == LossyText(p)
  {
    if p != "" then LossyText(p) else "(empty)"
  }

  /** The hex of some UTF-8 text. */
  function TextHex(s: string): string {
    ToHex(Utf8.Encode(s))
  }

  /** "(empty)" stands for the absent payload alone. */
  lemma EmptyOnlyWhenAbsent(p: string)
    ensures MarkedHex(p) == "(empty)" <==> p == ""
  {
    if p != "" {
      assert MarkedHex(p)[|p|] == ' ';
      assert ' ' !in "(empty)";
    }
  }

  /** Distinct payloads are shown differently, so the cell gives back the hex it was made
      from. */
  lemma MarkedHexInjective(p: string, q: string)
    requires MarkedHex(p) == MarkedHex(q)
    ensures p == q
  {
    EmptyOnlyWhenAbsent(p);
    EmptyOnlyWhenAbsent(q);
    if p != "" && q != "" {
      assert p == MarkedHex(p)[..|p|] == MarkedHex(q)[..|q|] == q;
    }
  }

  /** Text sent as hex is shown as itself, the empty text included, since its hex is never
      the absent payload. */
  lemma DecodedOrEmptyOfText(s: string)
    requires s == [] || s[0] != '\U{FEFF}'
    ensures DecodedOrEmpty(TextHex(s)) == s
  {
    LossyTextOfText(s);
  }

  /** Every strict hex string has bytes. */
  lemma StrictHexDecodes(p: string)
    requires IsHex(p)
    ensures HexToBytes(p).Ok?
  {
    var digits := p[2..];
    var padded := if |digits| % 2 == 1 then "0" + digits else digits;
    forall i | 0 <= i < |padded| ensures IsHexDigit(padded[i]) {
      if |digits| % 2 == 1 && i > 0 {
        assert padded[i] == p[i + 1];
      } else if |digits| % 2 == 0 {
        assert padded[i] == p[i + 2];
      }
    }
  }

  /** Text sent as hex is shown as itself by the strict rule. */
  lemma StrictTextOfText(s: string)
    requires s == [] || s[0] != '\U{FEFF}'
    ensures StrictText(TextHex(s)) == s
  {
    var b := Utf8.Encode(s);
    HexRoundTrip(b);
    Utf8.DecodeEncode(s);
    var p := ToHex(b);
    forall i | 2 <= i < |p| ensures IsHexDigit(p[i]) {
      assert p[i] == Digits(b)[i - 2];
    }
  }

  /** Text sent as hex is shown as itself by the lossy rule. */
  lemma LossyTextOfText(s: string)
    requires s == [] || s[0] != '\U{FEFF}'
    ensures LossyText(TextHex(s)) == s
  {
    HexRoundTrip(Utf8.Encode(s));
    Utf8.DecodeEncode(s);
  }

  /** Where the strict rule decodes, the lossy rule shows the same text; where the hex is not
      well-formed UTF-8, the lossy rule shows at least one U+FFFD. */
  lemma StrictAndLossyAgree(p: string)
    requires IsHex(p)
    ensures Utf8.DecodeStrict(HexToBytes(p).value).Some? ==> LossyText(p) == StrictText(p)
    ensures Utf8.DecodeStrict(HexToBytes(p).value).None? ==> '\U{FFFD}' in LossyText(p)
  {
    StrictHexDecodes(p);
    var b := HexToBytes(p).value;
    if Utf8.DecodeStrict(b).Some? {
      Utf8.LossyAgreesWithStrict(b);
    } else {
      Utf8.LossyMarksIllFormed(Utf8.SkipBom(b));
    }
  }
}
