/** The Input panel: the payload `addInput` sends, the message `addPaioInput` signs, the
    split of a signature into `r`, `s` and `yParity`, the ethers deposits with their
    approval decisions, and the ERC-1155 batch of numbers. */
module Input {
  import opened Wrappers
  import opened Hex
  import opened Chain
  import Decimal
  import Utf8
  import Erc1155Batch

  // ---- Splitting a signature (createSigObj) ----

  datatype SigObj = SigObj(r: string, s: string, yParity: string)

  /** `replace(/^0x/, '')`: one leading "0x" removed. */
  function StripHexPrefix(s: string): (r: string)
    ensures HasHexPrefix(s) ==> "0x" + r == s
    ensures !HasHexPrefix(s) ==> r == s
  {
    if HasHexPrefix(s) then s[2..] else s
  }

  /** `s.substring(start, end)` for `start <= end`: both bounds clamped to the length. */
  function Substring(s: string, start: nat, end: nat): (r: string)
    requires start <= end
    ensures |r| <= end - start
    ensures end <= |s| ==> r == s[start..end]
    ensures |s| <= start ==> r == ""
  {
    var e := if end <= |s| then end else |s|;
    var b := if start <= e then start else e;
    s[b..e]
  }

  /** The characters `parseInt` skips at the start: ECMAScript's white space and line
      terminators. */
  predicate IsJsSpace(c: char) {
    c == '\t' || c == '\n' || c == '\U{000B}' || c == '\U{000C}' || c == '\r' || c == ' '
    || c == '\U{00A0}' || c == '\U{1680}' || ('\U{2000}' <= c <= '\U{200A}')
    || c == '\U{2028}' || c == '\U{2029}' || c == '\U{202F}' || c == '\U{205F}'
    || c == '\U{3000}' || c == '\U{FEFF}'
  }

  function TrimStart(s: string): (r: string)
    ensures |r| <= |s| && r == s[|s| - |r|..]
    ensures r == [] || !IsJsSpace(r[0])
  {
    if s != [] && IsJsSpace(s[0]) then TrimStart(s[1..]) else s
  }

  /** The length of the run of hexadecimal digits that starts `s`. */
  function HexRun(s: string): (n: nat)
    ensures n <= |s|
    ensures forall i :: 0 <= i < n ==> IsHexDigit(s[i])
    ensures n < |s| ==> !IsHexDigit(s[n])
  {
    if s != [] && IsHexDigit(s[0]) then 1 + HexRun(s[1..]) else 0
  }

  /** The value of a run of hexadecimal digits, most significant first. */
  function HexValue(d: string): nat
    requires forall i :: 0 <= i < |d| ==> IsHexDigit(d[i])
  {
    if d == [] then 0
    else
      var last := d[|d| - 1];
      assert IsHexDigit(last);
      16 * HexValue(d[..|d| - 1]) + NibbleValue(last).value
  }

  /** `parseInt(t, 16)`: leading white space skipped, then an optional sign, an optional "0x"
      or "0X", and the longest run of hexadecimal digits after them; no digit at all is `NaN`,
      here `None`. */
  function ParseHex(t: string): Option<int> {
    var u := TrimStart(t);
    var negative := u != [] && u[0] == '-';
    var unsigned := if u != [] && (u[0] == '-' || u[0] == '+') then u[1..] else u;
    var digits := if |unsigned| >= 2 && unsigned[0] == '0' && (unsigned[1] == 'x' || unsigned[1] == 'X')
                  then unsigned[2..] else unsigned;
    SignedRun(negative, digits)
  }

  /** The value of the run of hexadecimal digits that starts `digits`, negated if asked;
      `None` when there is no digit. */
  function SignedRun(negative: bool, digits: string): Option<int> {
    var n := HexRun(digits);
    if n == 0 then None
    else
      var run := digits[..n];
      assert forall i :: 0 <= i < |run| ==> run[i] == digits[i];
      var magnitude: int := HexValue(run);
      Some(if negative then -magnitude else magnitude)
  }

  /** `${x}` for a number that is an integer or `NaN`. */
  function NumberText(x: Option<int>): string {
    match x
    case None => "NaN"
    case Some(i) => Decimal.RenderInt(i)
  }

  /** `createSigObj`: hex characters [0, 64) and [64, 128) after one "0x" is removed, and
      `parseInt` of characters [128, 130) less 27. */
  function CreateSigObj(signature: string): SigObj {
    var without0x := StripHexPrefix(signature);
    var v := ParseHex(Substring(without0x, 128, 130));
    SigObj("0x" + Substring(without0x, 0, 64),
           "0x" + Substring(without0x, 64, 128),
           "0x" + NumberText(if v.Some? then Some(v.value - 27) else None))
  }

  lemma {:induction false} DigitsAppend(a: seq<Byte>, b: seq<Byte>)
    ensures Digits(a + b) == Digits(a) + Digits(b)
  {
    if a != [] {
      assert (a + b)[1..] == a[1..] + b;
      DigitsAppend(a[1..], b);
      assert (a + b)[0] == a[0];
      assert Digits(a + b) == [NibbleChar(a[0] / 16), NibbleChar(a[0] % 16)] + Digits(a[1..] + b);
      var pair := [NibbleChar(a[0] / 16), NibbleChar(a[0] % 16)];
      assert Digits(a) == pair + Digits(a[1..]);
      assert pair + (Digits(a[1..]) + Digits(b)) == (pair + Digits(a[1..])) + Digits(b);
    } else {
      assert a + b == b;
    }
  }

  /** The two digits of one byte parse back to the byte. */
  lemma ParseByte(x: Byte)
    ensures ParseHex(Digits([x])) == Some(x)
  {
    var d := Digits([x]);
    assert d == [NibbleChar(x / 16), NibbleChar(x % 16)];
    assert !IsJsSpace(d[0]);
    assert TrimStart(d) == d;
    assert d[1] != 'x' && d[1] != 'X';
    assert HexRun(d) == 2;
    assert d[..2] == d;
    assert d[..1] == [d[0]];
    assert HexValue(d[..1]) == x / 16;
  }

  /** The yParity text of `v`. */
  lemma ParityOfByte(x: Byte)
    ensures NumberText(if ParseHex(Digits([x])).Some? then Some(ParseHex(Digits([x])).value - 27) else None)
            == Decimal.RenderInt(x as int - 27)
  {
    ParseByte(x);
    ParityOfParsed(Digits([x]), x as int);
  }

  lemma ParityOfParsed(t: string, n: int)
    requires ParseHex(t) == Some(n)
    ensures NumberText(if ParseHex(t).Some? then Some(ParseHex(t).value - 27) else None)
            == Decimal.RenderInt(n - 27)
  {
  }

  /** `createSigObj` of a string of at least 130 characters without "0x". */
  lemma SigOfLongText(w: string)
    requires |w| >= 130 && !HasHexPrefix(w)
    ensures CreateSigObj(w) == SigObj("0x" + w[0..64], "0x" + w[64..128],
                                      "0x" + NumberText(if ParseHex(w[128..130]).Some? then Some(ParseHex(w[128..130]).value - 27) else None))
  {
    assert Substring(w, 0, 64) == w[0..64];
    assert Substring(w, 64, 128) == w[64..128];
    assert Substring(w, 128, 130) == w[128..130];
  }

  lemma SigOfDigits(r: seq<Byte>, s: seq<Byte>, v: Byte)
    requires |r| == 32 && |s| == 32
    ensures !HasHexPrefix(Digits(r) + Digits(s) + Digits([v]))
    ensures CreateSigObj(Digits(r) + Digits(s) + Digits([v]))
            == SigObj(ToHex(r), ToHex(s), "0x" + Decimal.RenderInt(v as int - 27))
  {
    var d := Digits(r) + Digits(s) + Digits([v]);
    assert d[0..64] == Digits(r);
    assert d[64..128] == Digits(s);
    assert d[128..130] == Digits([v]);
    assert !HasHexPrefix(d) by {
      assert d[1] == Digits(r)[1];
      assert IsHexDigit(d[1]);
    }
    SigOfLongText(d);
    ParityOfByte(v);
  }

  /** Only one leading "0x" is removed, so a signature without it splits the same. */
  lemma SigIgnoresPrefix(w: string)
    requires !HasHexPrefix(w)
    ensures CreateSigObj("0x" + w) == CreateSigObj(w)
  {
    assert ("0x" + w)[2..] == w;
  }

  lemma DigitsOfSignature(r: seq<Byte>, s: seq<Byte>, v: Byte)
    ensures Digits(r + s + [v]) == Digits(r) + Digits(s) + Digits([v])
  {
    DigitsAppend(r + s, [v]);
    DigitsAppend(r, s);
  }

  /** A signature written as the digits of `r`, `s` and `v` splits alike with or without
      its "0x". */
  lemma SigOfParts(w: string, r: seq<Byte>, s: seq<Byte>, v: Byte)
    requires |r| == 32 && |s| == 32 && w == Digits(r) + Digits(s) + Digits([v])
    ensures CreateSigObj("0x" + w) == CreateSigObj(w)
    ensures CreateSigObj(w) == SigObj(ToHex(r), ToHex(s), "0x" + Decimal.RenderInt(v as int - 27))
  {
    SigOfDigits(r, s, v);
    SigIgnoresPrefix(w);
  }

  /** A 65-byte signature `r ‖ s ‖ v` in hex, with or without its "0x", splits into the hex of
      `r`, the hex of `s`, and `v - 27` in decimal. */
  lemma SigOfBytes(r: seq<Byte>, s: seq<Byte>, v: Byte)
    requires |r| == 32 && |s| == 32
    ensures CreateSigObj(ToHex(r + s + [v])) == CreateSigObj(Digits(r + s + [v]))
    ensures CreateSigObj(ToHex(r + s + [v])) == SigObj(ToHex(r), ToHex(s), "0x" + Decimal.RenderInt(v as int - 27))
  {
    var w := Digits(r + s + [v]);
    DigitsOfSignature(r, s, v);
    SigOfParts(w, r, s, v);
  }

  /** The `yParity` text of the usual `v` values. */
  lemma ParityText(v: Byte)
    ensures v == 27 ==> "0x" + Decimal.RenderInt(v as int - 27) == "0x0"
    ensures v == 28 ==> "0x" + Decimal.RenderInt(v as int - 27) == "0x1"
  {
    assert Decimal.RenderInt(0) == "0";
    assert Decimal.RenderInt(1) == "1";
  }

  /** The usual `v` of 27 and 28 give a `yParity` of "0x0" and "0x1". */
  lemma UsualParities(r: seq<Byte>, s: seq<Byte>, v: Byte)
    requires |r| == 32 && |s| == 32
    ensures v == 27 ==> CreateSigObj(ToHex(r + s + [v])).yParity == "0x0"
    ensures v == 28 ==> CreateSigObj(ToHex(r + s + [v])).yParity == "0x1"
  {
    SigOfBytes(r, s, v);
    ParityText(v);
  }

  /** A signature of no more than 128 hex characters has no `v`, and its `yParity` reads
      "0xNaN". */
  lemma ShortSignatureNaN(signature: string)
    requires |StripHexPrefix(signature)| <= 128
    ensures CreateSigObj(signature).yParity == "0xNaN"
  {
    assert ParseHex("") == None;
  }

  // ---- The payload of addInput ----

  predicate AllHexDigits(s: string) {
    forall i :: 0 <= i < |s| ==> IsHexDigit(s[i])
  }

  /** The bytes `addInput` sends: the UTF-8 of the text, or in raw-hex mode
      `arrayify('0x' + text)`, which throws on a character that is not a hex digit and on an
      odd number of digits; the throw is caught and nothing is sent. */
  function InputPayload(text: string, hexMode: bool): Result<seq<Byte>> {
    if !hexMode then Ok(Utf8.Encode(text))
    else if !AllHexDigits(text) then Err(InvalidHex)
    else if |text| % 2 == 1 then Err(OddLength)
    else PairsToBytes(text)
  }

  /** Text sent as text decodes back to itself (unless it starts with U+FEFF, which a decoder
      takes for a byte-order mark). */
  lemma TextInputRoundTrip(text: string)
    requires text == [] || text[0] != '\U{FEFF}'
    ensures InputPayload(text, false).Ok?
    ensures Utf8.DecodeStrict(InputPayload(text, false).value) == Some(text)
  {
    Utf8.DecodeEncode(text);
  }

  /** Raw hex is sent exactly when it is an even number of hex digits, either case, and the
      bytes sent are those the digits spell. */
  lemma HexInputMeaning(text: string)
    ensures InputPayload(text, true).Ok? <==> AllHexDigits(text) && |text| % 2 == 0
    ensures !AllHexDigits(text) ==> InputPayload(text, true) == Err(InvalidHex)
    ensures AllHexDigits(text) && |text| % 2 == 1 ==> InputPayload(text, true) == Err(OddLength)
    ensures InputPayload(text, true).Ok? ==> ToHex(InputPayload(text, true).value) == "0x" + Lower(text)
  {
    if AllHexDigits(text) && |text| % 2 == 0 {
      DigitsOfPairs(text);
    }
  }

  /** The hex of any bytes, typed in raw-hex mode, sends exactly those bytes. */
  lemma HexInputOfBytes(b: seq<Byte>)
    ensures InputPayload(Digits(b), true) == Ok(b)
  {
    PairsOfDigits(b);
  }

  // ---- The message of addPaioInput ----

  /** The application a message goes to when no namespace is given. */
  const DefaultPaioApp: string := "0xab7528bb862fb57e8a2bcd567a2e929a0be56a5e"

  const MaxGasPrice: nat := 10

  /** The `CartesiMessage` of the EIP-712 typed data. */
  datatype PaioMessage = PaioMessage(app: string, nonce: nat, data: string, maxGasPrice: nat)

  /** The message of the typed data: at first only `{nonce: 0, data: "0x"}`. */
  datatype Message = Placeholder | Filled(m: PaioMessage)

  function PaioMessageOf(namespace: string, payload: string, hexMode: bool, nonce: nat): PaioMessage {
    PaioMessage(if namespace != "" then namespace else DefaultPaioApp, nonce,
                if hexMode then "0x" + payload else payload, MaxGasPrice)
  }

  /** A message always names an application, the namespace when one is given; in raw-hex mode
      the hex of any bytes carries exactly those bytes, and text goes as typed. */
  lemma PaioMessageMeaning(namespace: string, b: seq<Byte>, text: string, nonce: nat)
    ensures PaioMessageOf(namespace, text, false, nonce).app != ""
    ensures namespace != "" ==> PaioMessageOf(namespace, text, false, nonce).app == namespace
    ensures HexToBytes(PaioMessageOf(namespace, Digits(b), true, nonce).data) == Ok(b)
    ensures PaioMessageOf(namespace, text, false, nonce).data == text
  {
    assert ToHex(b) == "0x" + Digits(b);
    HexRoundTrip(b);
  }

  /** The EIP-712 typed data `addPaioInput` fills in before it asks the wallet to sign. */
  class TypedData {
    const domainName: string
    const domainVersion: string
    const domainChainId: nat
    const verifyingContract: string
    const primaryType: string
    var account: string
    var message: Message

    constructor()
      ensures domainName == "CartesiDomain" && domainVersion == "0.0.1" && domainChainId == 11155111
      ensures verifyingContract == "0x0000000000000000000000000000000000000000"
      ensures primaryType == "CartesiMessage"
      ensures account == "0x" && message == Placeholder
    {
      domainName := "CartesiDomain";
      domainVersion := "0.0.1";
      domainChainId := 11155111;
      verifyingContract := "0x0000000000000000000000000000000000000000";
      primaryType := "CartesiMessage";
      account := "0x";
      message := Placeholder;
    }

    /** `addPaioInput` up to the signature: with the rollups contracts and a provider at hand,
        the wallet's account and the message replace those of the typed data; otherwise
        nothing happens. The domain never changes. */
    method AddPaioInput(ready: bool, walletAccount: string, namespace: string, payload: string, hexMode: bool, nonce: nat)
      modifies this
      ensures ready ==> account == walletAccount && message == Filled(PaioMessageOf(namespace, payload, hexMode, nonce))
      ensures !ready ==> account == old(account) && message == old(message)
    {
      if !ready {
        return;
      }
      account := walletAccount;
      var data := payload;
      if hexMode {
        data := "0x" + data;
      }
      var app := if namespace != "" then namespace else DefaultPaioApp;
      message := Filled(PaioMessage(app, nonce, data, MaxGasPrice));
    }
  }

  // ---- Deposits through ethers ----

  /** One ether in wei: 10^18. */
  const Ether: nat := Decimal.Pow10(18)

  /** ERC-20 as written: `parseEther(...) > currentAllowance` applies `>` to two ethers
      `BigNumber`s. They have no `valueOf`, so JavaScript turns both into their decimal
      texts and compares those as strings. Amounts are in wei. */
  function Erc20NeedsApprovalAsWritten(amount: nat, allowance: nat): bool {
    Decimal.TextGreater(Decimal.Render(amount), Decimal.Render(allowance))
  }

  /** ERC-20 as intended: approve when the amount asked for exceeds the allowance. */
  function Erc20NeedsApproval(amount: nat, allowance: nat): bool {
    amount > allowance
  }

  /** The text comparison is right whenever amount and allowance have equally many digits. */
  lemma Erc20AsWrittenSameLength(amount: nat, allowance: nat)
    requires |Decimal.Render(amount)| == |Decimal.Render(allowance)|
    ensures Erc20NeedsApprovalAsWritten(amount, allowance) == Erc20NeedsApproval(amount, allowance)
  {
    Decimal.TextOrderOfSameLength(amount, allowance);
  }

  /** Across digit counts it goes wrong both ways: 10 ether against an allowance of 9 ether
      is not approved ("1…" sorts before "9…"), and 2 ether against an allowance of 10 ether
      is approved again. */
  lemma Erc20ComparedAsText()
    ensures !Erc20NeedsApprovalAsWritten(10 * Ether, 9 * Ether) && Erc20NeedsApproval(10 * Ether, 9 * Ether)
    ensures Erc20NeedsApprovalAsWritten(2 * Ether, 10 * Ether) && !Erc20NeedsApproval(2 * Ether, 10 * Ether)
  {
    var e := Decimal.Pow10(18);
    assert 10 * e == 1 * Decimal.Pow10(19);
    Decimal.LeadingDigitOrder(1, 19, 9, 18);
    Decimal.LeadingDigitOrder(2, 18, 1, 19);
  }

  /** ERC-721: approve when the token's approved address is not the portal, compared as text. */
  function Erc721NeedsApproval(approved: string, portal: string): bool {
    approved != portal
  }

  /** ERC-1155: approve when the portal is not yet an operator for all the account's tokens. */
  function Erc1155NeedsApproval(approvedForAll: bool): bool {
    !approvedForAll
  }

  /** One deposit: the read of the current approval, whether it calls for an approval (from
      what that read returned), the approving function, its event, and the deposit. */
  datatype Deposit = Deposit(query: string, needsApproval: bool, approveFn: string, eventName: string, depositFn: string)

  /** The four requests are told apart. */
  predicate Distinct(d: Deposit) {
    d.query != d.eventName && d.approveFn != d.depositFn
  }

  function Erc20DepositAsWritten(amount: nat, allowance: nat): Deposit {
    Deposit("allowance", Erc20NeedsApprovalAsWritten(amount, allowance), "approve", "Approval", "depositERC20Tokens")
  }

  function Erc20Deposit(amount: nat, allowance: nat): Deposit {
    Deposit("allowance", Erc20NeedsApproval(amount, allowance), "approve", "Approval", "depositERC20Tokens")
  }

  function Erc721Deposit(approved: string, portal: string): Deposit {
    Deposit("getApproved", Erc721NeedsApproval(approved, portal), "approve", "Approval", "depositERC721Token")
  }

  function Erc1155SingleDeposit(approvedForAll: bool): Deposit {
    Deposit("isApprovedForAll", Erc1155NeedsApproval(approvedForAll), "setApprovalForAll", "ApprovalForAll", "depositSingleERC1155Token")
  }

  function Erc1155BatchDeposit(approvedForAll: bool): Deposit {
    Deposit("isApprovedForAll", Erc1155NeedsApproval(approvedForAll), "setApprovalForAll", "ApprovalForAll", "depositBatchERC1155Token")
  }

  /** The requests of a deposit: nothing without the rollups contracts and a provider, or
      when the signer has no address; then the read of the current approval; when it calls
      for one, the approving transaction, its receipt, and the search for its event in that
      block; then the deposit. The first throw ends it (and is caught), and so does an
      approval whose event is not found. */
  function EthersDeposit(ready: bool, d: Deposit, env: Env): seq<Request> {
    var approval := [Write(d.approveFn), WaitForReceipt(d.approveFn), Read(d.eventName)];
    if !ready || !env.hasAccount then []
    else if env.reply(Read(d.query)).Threw? then [Read(d.query)]
    else if !d.needsApproval then [Read(d.query), Write(d.depositFn)]
    else if env.reply(approval[0]).Threw? then [Read(d.query)] + approval[..1]
    else if env.reply(approval[1]).Threw? then [Read(d.query)] + approval[..2]
    else if env.reply(approval[2]) != Answer(true) then [Read(d.query)] + approval
    else [Read(d.query)] + approval + [Write(d.depositFn)]
  }

  /** The deposit, one awaited step after another. */
  method SendDeposit(ready: bool, d: Deposit, env: Env) returns (requests: seq<Request>)
    ensures requests == EthersDeposit(ready, d, env)
  {
    requests := [];
    if !ready || !env.hasAccount {
      return;
    }
    requests := requests + [Read(d.query)];
    if env.reply(Read(d.query)).Threw? {
      return;
    }
    if d.needsApproval {
      requests := requests + [Write(d.approveFn)];
      if env.reply(Write(d.approveFn)).Threw? {
        return;
      }
      requests := requests + [WaitForReceipt(d.approveFn)];
      if env.reply(WaitForReceipt(d.approveFn)).Threw? {
        return;
      }
      requests := requests + [Read(d.eventName)];
      if env.reply(Read(d.eventName)) != Answer(true) {
        return;
      }
    }
    requests := requests + [Write(d.depositFn)];
  }

  /** An approval is sent exactly when the read answered and called for one; the deposit is
      sent exactly when, besides, any approval it needed was confirmed with its event, and it
      is then the last request, after that approval. */
  lemma DepositMeaning(ready: bool, d: Deposit, env: Env)
    requires Distinct(d)
    ensures var t := EthersDeposit(ready, d, env);
            (Write(d.approveFn) in t <==> ready && env.hasAccount && env.reply(Read(d.query)).Answer? && d.needsApproval)
            && (Write(d.depositFn) in t <==>
                  ready && env.hasAccount && env.reply(Read(d.query)).Answer?
                  && (d.needsApproval ==> env.reply(Write(d.approveFn)).Answer?
                                          && env.reply(WaitForReceipt(d.approveFn)).Answer?
                                          && env.reply(Read(d.eventName)) == Answer(true)))
            && (Write(d.depositFn) in t ==>
                  t == (if d.needsApproval
                        then [Read(d.query), Write(d.approveFn), WaitForReceipt(d.approveFn), Read(d.eventName), Write(d.depositFn)]
                        else [Read(d.query), Write(d.depositFn)]))
  {
    var t := EthersDeposit(ready, d, env);
    if ready && env.hasAccount && env.reply(Read(d.query)).Answer? {
      if !d.needsApproval {
        assert t == [Read(d.query), Write(d.depositFn)];
      } else if env.reply(Write(d.approveFn)).Threw? {
        assert t == [Read(d.query), Write(d.approveFn)];
      } else if env.reply(WaitForReceipt(d.approveFn)).Threw? {
        assert t == [Read(d.query), Write(d.approveFn), WaitForReceipt(d.approveFn)];
      } else if env.reply(Read(d.eventName)) != Answer(true) {
        assert t == [Read(d.query), Write(d.approveFn), WaitForReceipt(d.approveFn), Read(d.eventName)];
      } else {
        assert t == [Read(d.query), Write(d.approveFn), WaitForReceipt(d.approveFn), Read(d.eventName), Write(d.depositFn)];
      }
    }
  }

  /** As written, a deposit of 10 ether against an allowance of 9 ether sends no approval
      and goes straight to the deposit, which the token then refuses; as intended it is
      approved first. */
  lemma Erc20ShortAllowanceSkipped(ready: bool, env: Env)
    requires ready && env.hasAccount && env.reply(Read("allowance")).Answer?
    ensures EthersDeposit(ready, Erc20DepositAsWritten(10 * Ether, 9 * Ether), env)
            == [Read("allowance"), Write("depositERC20Tokens")]
    ensures Write("approve") in EthersDeposit(ready, Erc20Deposit(10 * Ether, 9 * Ether), env)
  {
    Erc20ComparedAsText();
    DepositMeaning(ready, Erc20DepositAsWritten(10 * Ether, 9 * Ether), env);
    DepositMeaning(ready, Erc20Deposit(10 * Ether, 9 * Ether), env);
  }

  /** An ERC-1155 deposit asks for `setApprovalForAll` only for an account that has not given
      it, and otherwise goes straight to the deposit. */
  lemma Erc1155ApprovesOnlyWhenNotApproved(ready: bool, approvedForAll: bool, env: Env)
    ensures Write("setApprovalForAll") in EthersDeposit(ready, Erc1155SingleDeposit(approvedForAll), env) ==> !approvedForAll
    ensures Write("setApprovalForAll") in EthersDeposit(ready, Erc1155BatchDeposit(approvedForAll), env) ==> !approvedForAll
    ensures approvedForAll && ready && env.hasAccount && env.reply(Read("isApprovedForAll")).Answer? ==>
              EthersDeposit(ready, Erc1155SingleDeposit(approvedForAll), env) == [Read("isApprovedForAll"), Write("depositSingleERC1155Token")]
  {
    DepositMeaning(ready, Erc1155SingleDeposit(approvedForAll), env);
    DepositMeaning(ready, Erc1155BatchDeposit(approvedForAll), env);
  }

  // ---- The ERC-1155 batch of numbers ----

  /** `${n}` of each integer. */
  function NumberTexts(ns: seq<int>): (r: seq<string>)
    ensures |r| == |ns| && forall i :: 0 <= i < |ns| ==> r[i] == Decimal.RenderInt(ns[i])
  {
    seq(|ns|, i requires 0 <= i < |ns| => Decimal.RenderInt(ns[i]))
  }

  /** `AddTo1155Batch` of this panel, whose ids and amounts are numbers. */
  method AddToBatch(batch: Erc1155Batch.Batch, id: int, amount: int)
    requires batch.Valid()
    modifies batch
    ensures batch.Valid()
    ensures batch.ids == old(batch.ids) + [Decimal.RenderInt(id)]
    ensures batch.amounts == old(batch.amounts) + [Decimal.RenderInt(amount)]
  {
    batch.Add(Decimal.RenderInt(id), Decimal.RenderInt(amount));
  }

  /** A batch of integers is shown so that it reads back as the integers' numerals. */
  lemma NumbersReadBack(ns: seq<int>)
    ensures Erc1155Batch.Entries(Erc1155Batch.Bracketed(NumberTexts(ns))) == NumberTexts(ns)
  {
    var xs := NumberTexts(ns);
    forall i | 0 <= i < |xs| ensures xs[i] != "" && ',' !in xs[i] {
      var n := if ns[i] >= 0 then ns[i] else -ns[i];
      Decimal.NoCommaInNumeral(n);
      if ns[i] < 0 {
        assert xs[i] == "-" + Decimal.Render(n);
      }
    }
    Erc1155Batch.EntriesOfBracketed(xs);
  }
}
