/** The Outputs panel: outputs listed by the rollups node's JSON-RPC API, each row described
    from its decoded data, with a button that validates a notice or executes a voucher once
    its epoch's claim is accepted, and a filter that is sent with the listing request. */
module Outputs {
  import opened Wrappers
  import opened Hex
  import VoucherCalls
  import OutputCalls
  import PayloadText
  import opened Chain

  /** `inferVoucherPayload`: the description of the call a voucher carries. A payload of
      more than four bytes is split into selector and data; a selector from the table is
      decoded, any other is shown as the payload followed by " (hex)", and a payload too short
      to hold data is "(empty)". A decoding error throws. */
  function InferVoucherPayload(p: string): Result<string> {
    var isCall := p != "" && Size(p) > 4;
    var selector := if isCall then SliceTo(p, 4) else "";
    var data := if isCall then SliceFrom(p, 4) else "0x";
    if Size(data) > 0 then
      match VoucherCalls.Describe(selector, data)
      case None => Ok(p + " (hex)")
      case Some(r) => r
    else Ok("(empty)")
  }

  lemma DataAfterSelector(p: string)
    requires HasHexPrefix(p) && Size(p) > 4
    ensures Size(SliceFrom(p, 4)) > 0
  {
  }

  /** No description the decoder gives starts like "(empty)". */
  lemma RenderStartsWithName(k: VoucherCalls.Kind, d: seq<Byte>)
    requires VoucherCalls.Render(k, d).Ok?
    ensures VoucherCalls.Render(k, d).value[0] in {'E', 'M'}
  {
  }

  /** A voucher payload, which the decoder always gives as `0x` hex, reads "(empty)" exactly
      when it holds no more than a selector. */
  lemma InferEmptyIffShort(p: string)
    requires HasHexPrefix(p)
    ensures InferVoucherPayload(p) == Ok("(empty)") <==> Size(p) <= 4
  {
    if Size(p) > 4 {
      DataAfterSelector(p);
      var selector := SliceTo(p, 4);
      var data := SliceFrom(p, 4);
      match VoucherCalls.Lookup(selector)
      case None =>
        assert (p + " (hex)")[|p|] == ' ';
      case Some(k) =>
        match HexToBytes(data)
        case Err(_) =>
        case Ok(b) =>
          if VoucherCalls.Render(k, b).Ok? {
            RenderStartsWithName(k, b);
          }
    }
  }

  /** A selector outside the table shows the payload itself, marked as hex. */
  lemma InferUnknownSelector(p: string)
    requires HasHexPrefix(p) && Size(p) > 4 && VoucherCalls.Lookup(SliceTo(p, 4)).None?
    ensures InferVoucherPayload(p) == Ok(p + " (hex)")
  {
    DataAfterSelector(p);
  }

  /** A voucher carrying a token call is described by that call's text. */
  lemma InferCall(c: VoucherCalls.Call)
    requires VoucherCalls.Encodable(c)
    ensures InferVoucherPayload(VoucherCalls.CallHex(c)) == Ok(VoucherCalls.Text(c))
  {
    VoucherCalls.DescribeCall(c);
    DataAfterSelector(VoucherCalls.CallHex(c));
  }

  /** The Outputs panel and the Vouchers panel describe a call of more than four bytes alike. */
  lemma InferAgreesWithVoucherPanel(p: string)
    requires HasHexPrefix(p) && Size(p) > 4
    ensures InferVoucherPayload(p) == OutputCalls.DescribeArg(Some(OutputCalls.HexArg(p)))
  {
    DataAfterSelector(p);
  }

  /** The files differ on a payload too short to hold data: the Outputs panel shows "(empty)"
      where the voucher panels show the payload, marked as hex. */
  lemma ShortPayloadDiffers(p: string)
    requires HasHexPrefix(p) && Size(p) <= 4
    ensures InferVoucherPayload(p) == Ok("(empty)")
    ensures OutputCalls.DescribeArg(Some(OutputCalls.HexArg(p))) == Ok(p + " (hex)")
  {
    OutputCalls.DescribeNonCall(Some(OutputCalls.HexArg(p)));
  }

  /** The payload cell of a row, from the decoded type (empty when missing) and payload:
      vouchers are described, notices decoded as strict UTF-8, anything else is "unknown". */
  function RowPayload(outputType: string, payload: string): Result<string> {
    var t := Lower(outputType);
    if t == "voucher" then InferVoucherPayload(payload)
    else if t == "notice" then Ok(PayloadText.StrictText(payload))
    else Ok("unknown")
  }

  /** A notice carrying text shows the text, whatever the case of its type. */
  lemma NoticeRowShowsText(outputType: string, s: string)
    requires Lower(outputType) == "notice"
    requires s == [] || s[0] != '\U{FEFF}'
    ensures RowPayload(outputType, PayloadText.TextHex(s)) == Ok(s)
  {
    PayloadText.StrictTextOfText(s);
  }

  /** A row of any type but voucher and notice, delegate-call vouchers included, shows
      "unknown". */
  lemma OtherRowsUnknown(outputType: string, payload: string)
    requires Lower(outputType) != "voucher" && Lower(outputType) != "notice"
    ensures RowPayload(outputType, payload) == Ok("unknown")
  {
  }

  // ---- The action button ----

  datatype Button = NoButton | Labelled(disabled: bool, caption: string)

  /** `renderActionButton`: a voucher or delegate-call voucher can be executed once its claim
      is accepted and it has not been executed; a notice can be validated once its claim is
      accepted; other outputs have no button. */
  function ActionButton(outputType: string, executionTransactionHash: Option<string>,
                        epochIndex: int, lastAcceptedEpoch: int): Button
  {
    var claimAccepted := epochIndex <= lastAcceptedEpoch;
    var t := Lower(outputType);
    if t == "voucher" || t == "delegatecallvoucher" then
      var alreadyExecuted := executionTransactionHash.Some?;
      Labelled(alreadyExecuted || !claimAccepted,
             if claimAccepted then (if alreadyExecuted then "Already Executed" else "Execute") else "Not Ready")
    else if t == "notice" then
      Labelled(!claimAccepted, if claimAccepted then "Validate" else "Not Ready")
    else NoButton
  }

  /** A button is enabled exactly when it offers an action, and it says "Not Ready" exactly
      when the output's epoch is past the last accepted one. */
  lemma ButtonMeaning(outputType: string, hash: Option<string>, epochIndex: int, lastAcceptedEpoch: int)
    ensures var b := ActionButton(outputType, hash, epochIndex, lastAcceptedEpoch);
            b.Labelled? ==> (!b.disabled <==> b.caption == "Execute" || b.caption == "Validate")
    ensures var b := ActionButton(outputType, hash, epochIndex, lastAcceptedEpoch);
            b.Labelled? ==> (b.caption == "Not Ready" <==> epochIndex > lastAcceptedEpoch)
  {
  }

  /** An output that has been executed can never be executed again from its button. */
  lemma ExecutedStaysDisabled(outputType: string, hash: string, epochIndex: int, lastAcceptedEpoch: int)
    requires Lower(outputType) == "voucher" || Lower(outputType) == "delegatecallvoucher"
    ensures ActionButton(outputType, Some(hash), epochIndex, lastAcceptedEpoch).disabled
  {
  }

  /** Only vouchers, delegate-call vouchers and notices get a button. */
  lemma ButtonKinds(outputType: string, hash: Option<string>, epochIndex: int, lastAcceptedEpoch: int)
    ensures ActionButton(outputType, hash, epochIndex, lastAcceptedEpoch).Labelled?
        <==> Lower(outputType) in {"voucher", "delegatecallvoucher", "notice"}
  {
  }

  // ---- The filter ----

  /** The six boxes of the filter form. */
  datatype FilterField = Limit | Offset | OutputType | Epoch | InputIndex | VoucherAddress

  /** The key each box shows its value from. */
  function ShownKey(f: FilterField): string {
    match f
    case Limit => "limit"
    case Offset => "offset"
    case OutputType => "output_type"
    case Epoch => "epoch_index"
    case InputIndex => "input_index"
    case VoucherAddress => "voucher_address"
  }

  /** The key each box writes, as written: the Offset box writes "limit". */
  function WrittenKeyAsWritten(f: FilterField): string {
    match f
    case Offset => "limit"
    case _ => ShownKey(f)
  }

  /** The key each box writes, as intended: the one it shows. */
  function WrittenKey(f: FilterField): string {
    ShownKey(f)
  }

  /** `(rpcFilter.current[key] as …) || ""`. */
  function Shown(entries: map<string, string>, f: FilterField): string {
    if ShownKey(f) in entries then entries[ShownKey(f)] else ""
  }

  /** No two boxes show the same key. */
  lemma ShownKeysDistinct(f: FilterField, g: FilterField)
    requires f != g
    ensures ShownKey(f) != ShownKey(g)
  {
    assert ShownKey(f)[0] != ShownKey(g)[0] || ShownKey(f)[1] != ShownKey(g)[1]
        || |ShownKey(f)| != |ShownKey(g)|;
  }

  /** As written, typing into the Offset box replaces the limit sent to the node and leaves
      the offset unset, so the box keeps showing its old value. */
  lemma OffsetOverwritesLimit(entries: map<string, string>, v: string)
    ensures var after := entries[WrittenKeyAsWritten(Offset) := v];
            Shown(after, Limit) == v && Shown(after, Offset) == Shown(entries, Offset)
  {
  }

  /** As intended, typing into a box sets what that box shows and nothing any other box
      shows. */
  lemma TypingSetsOneBox(entries: map<string, string>, f: FilterField, v: string, g: FilterField)
    ensures Shown(entries[WrittenKey(f) := v], f) == v
    ensures g != f ==> Shown(entries[WrittenKey(f) := v], g) == Shown(entries, g)
  {
    if g != f {
      ShownKeysDistinct(f, g);
    }
  }

  /** The filter sent with every listing request: a dictionary that the form's boxes update
      in place. */
  class RpcFilter {
    var entries: map<string, string>

    constructor()
      ensures entries == map[]
    {
      entries := map[];
    }

    /** `handleFilterChange`. */
    method HandleFilterChange(key: string, value: string)
      modifies this
      ensures entries == old(entries)[key := value]
    {
      entries := entries[key := value];
    }

    /** A change typed into one box of the form, as written: the Offset box writes "limit",
        so it sets what the Limit box shows and leaves its own box as it was; every other box
        sets what it shows and nothing else. */
    method OnFieldChangeAsWritten(f: FilterField, value: string)
      modifies this
      ensures entries == old(entries)[WrittenKeyAsWritten(f) := value]
      ensures f == Offset ==> Shown(entries, Limit) == value && Shown(entries, Offset) == Shown(old(entries), Offset)
      ensures f != Offset ==> Shown(entries, f) == value
      ensures f != Offset ==> forall g :: g != f ==> Shown(entries, g) == Shown(old(entries), g)
    {
      HandleFilterChange(WrittenKeyAsWritten(f), value);
      if f == Offset {
        OffsetOverwritesLimit(old(entries), value);
      } else {
        assert WrittenKeyAsWritten(f) == WrittenKey(f);
        TypingSetsOneBox(old(entries), f, value, f);
        forall g | g != f ensures Shown(entries, g) == Shown(old(entries), g) {
          TypingSetsOneBox(old(entries), f, value, g);
        }
      }
    }

    /** A change typed into one box of the form, as intended. */
    method OnFieldChange(f: FilterField, value: string)
      modifies this
      ensures entries == old(entries)[WrittenKey(f) := value]
      ensures Shown(entries, f) == value
      ensures forall g :: g != f ==> Shown(entries, g) == Shown(old(entries), g)
    {
      HandleFilterChange(WrittenKey(f), value);
      forall g | g != f ensures Shown(entries, g) == Shown(old(entries), g) {
        TypingSetsOneBox(old(entries), f, value, g);
      }
    }
  }

  // ---- Validating and executing an output ----

  /** The message `validateOutput` leaves and the requests it makes. */
  function ValidateOutcome(chain: string, appAddress: string, env: Env): (Option<string>, seq<Request>) {
    if chain == "" || appAddress == "" || !env.hasClient then (None, [])
    else match env.reply(NodeValidateOutput)
      case Answer(valid) => (Some(if valid then "Output is Valid!" else "Output is Invalid!"), [NodeValidateOutput])
      case Threw(f) => (WalkMessage(f), [NodeValidateOutput])
  }

  /** The message `executeOutput` leaves and the requests it makes. */
  function ExecuteOutcome(chain: string, appAddress: string, env: Env): (Option<string>, seq<Request>) {
    if chain == "" || appAddress == "" || !CanSign(env) then (None, [])
    else match env.reply(NodeExecuteOutput)
      case Answer(done) => (Some(if done then "Output executed!" else "Output not executed!"), [NodeExecuteOutput])
      case Threw(f) => (WalkMessage(f), [NodeExecuteOutput])
  }

  /** The node is asked exactly when a chain and an application are selected and a client
      can be had; what it answers is what the message says. */
  lemma ValidateMeaning(chain: string, appAddress: string, env: Env)
    ensures var (msg, reqs) := ValidateOutcome(chain, appAddress, env);
            (reqs != [] <==> chain != "" && appAddress != "" && env.hasClient)
            && (reqs == [] ==> msg.None?)
            && (reqs != [] && env.reply(NodeValidateOutput) == Answer(true) ==> msg == Some("Output is Valid!"))
            && (reqs != [] && env.reply(NodeValidateOutput) == Answer(false) ==> msg == Some("Output is Invalid!"))
  {
  }

  /** The node is asked to execute only with a wallet account; what it answers is what the
      message says. */
  lemma ExecuteMeaning(chain: string, appAddress: string, env: Env)
    ensures var (msg, reqs) := ExecuteOutcome(chain, appAddress, env);
            (reqs != [] <==> chain != "" && appAddress != "" && CanSign(env))
            && (reqs == [] ==> msg.None?)
            && (reqs != [] && env.reply(NodeExecuteOutput) == Answer(true) ==> msg == Some("Output executed!"))
            && (reqs != [] && env.reply(NodeExecuteOutput) == Answer(false) ==> msg == Some("Output not executed!"))
  {
  }

  class OutputsPanel {
    const chain: string
    const appAddress: string
    var message: Option<string>

    constructor(chain: string, appAddress: string)
      ensures this.chain == chain && this.appAddress == appAddress && message.None?
    {
      this.chain := chain;
      this.appAddress := appAddress;
      message := None;
    }

    method ValidateOutput(env: Env) returns (requests: seq<Request>)
      modifies this
      ensures (message, requests) == ValidateOutcome(chain, appAddress, env)
    {
      message := None;
      requests := [];
      if chain != "" && appAddress != "" {
        if !env.hasClient {
          return;
        }
        requests := [NodeValidateOutput];
        match env.reply(NodeValidateOutput)
        case Answer(valid) =>
          message := Some(if valid then "Output is Valid!" else "Output is Invalid!");
        case Threw(f) =>
          message := WalkMessage(f);
      }
    }

    method ExecuteOutput(env: Env) returns (requests: seq<Request>)
      modifies this
      ensures (message, requests) == ExecuteOutcome(chain, appAddress, env)
    {
      message := None;
      requests := [];
      if chain != "" && appAddress != "" {
        if !env.hasClient || !env.hasWallet {
          return;
        }
        if !env.hasAccount {
          return;
        }
        requests := [NodeExecuteOutput];
        match env.reply(NodeExecuteOutput)
        case Answer(done) =>
          message := Some(if done then "Output executed!" else "Output not executed!");
        case Threw(f) =>
          message := WalkMessage(f);
      }
    }
  }
}
