/** The Notices panel: the application's notices as read from the GraphQL API, their payloads
    shown as text where they are well-formed UTF-8, and validation of one notice against the
    application contract with its proof. */
module Notices {
  import opened Wrappers
  import opened Graphql
  import opened Chain
  import Hex
  import Utf8
  import OutputCalls
  import PayloadText
  import Sorting
  import VoucherExecution

  /** A row of the table. */
  datatype Row = Row(index: int, payload: string, input: Option<InputRef>)

  /** The payload cell: "(empty)" for a payload that is not strict hex; otherwise the first
      argument of the decoded output, as text when it is well-formed UTF-8 and as marked hex
      when not. A payload that names no output throws. */
  function PayloadCell(p: string): Result<string> {
    if !Hex.IsHex(p) then Ok("(empty)")
    else
      var call :- OutputCalls.DecodeOutputCall(p);
      Ok(PayloadText.StrictText(OutputCalls.ArgText(OutputCalls.Arg(call, 0))))
  }

  /** The input cell: kept only for an input with an id, its payload decoded. */
  function InputCell(input: Option<InputRef>): Option<InputRef> {
    match input
    case Some(i) => if i.id != "" then Some(InputRef(i.id, PayloadText.DecodedOrEmpty(i.payload))) else None
    case None => None
  }

  function ToRow(n: NoticeNode): Result<Row> {
    var payload :- PayloadCell(n.payload);
    Ok(Row(n.index, payload, InputCell(n.input)))
  }

  function RowIndex(r: Row): int {
    r.index
  }

  /** The rows, sorted by `(b, a) => b.index - a.index`; one row that throws fails them all. */
  function Table(nodes: seq<NoticeNode>): Result<seq<Row>> {
    var rows :- MapAll(nodes, ToRow);
    Ok(Sorting.SortBy(rows, RowIndex))
  }

  /** The table holds exactly one row per notice, in ascending order of output index, and it
      is there exactly when every payload decodes. */
  lemma TableOrdered(nodes: seq<NoticeNode>)
    ensures Table(nodes).Ok? <==> forall i :: 0 <= i < |nodes| ==> ToRow(nodes[i]).Ok?
    ensures Table(nodes).Ok? ==>
              Sorting.SortedBy(Table(nodes).value, RowIndex)
              && multiset(Table(nodes).value) == multiset(MapAll(nodes, ToRow).value)
  {
    var rows := MapAll(nodes, ToRow);
    if rows.Ok? {
      Sorting.SortBySorted(rows.value, RowIndex);
      Sorting.SortByPermutes(rows.value, RowIndex);
    }
  }

  lemma CellOfCall(p: string, call: OutputCalls.OutputCall)
    requires Hex.IsHex(p) && OutputCalls.DecodeOutputCall(p) == Ok(call)
    ensures PayloadCell(p) == Ok(PayloadText.StrictText(OutputCalls.ArgText(OutputCalls.Arg(call, 0))))
  {
  }

  /** A notice whose payload is UTF-8 text shows that text. */
  lemma NoticeShowsText(s: string)
    requires s == [] || s[0] != '\U{FEFF}'
    requires OutputCalls.Encodable(OutputCalls.NoticeCall(Utf8.Encode(s)))
    ensures PayloadCell(OutputCalls.Encode(OutputCalls.NoticeCall(Utf8.Encode(s)))) == Ok(s)
  {
    var call := OutputCalls.NoticeCall(Utf8.Encode(s));
    OutputCalls.DecodeEncode(call);
    CellOfCall(OutputCalls.Encode(call), call);
    assert OutputCalls.ArgText(OutputCalls.Arg(call, 0)) == PayloadText.TextHex(s);
    PayloadText.StrictTextOfText(s);
  }

  /** A notice whose payload is not well-formed UTF-8 shows its hex, marked. */
  lemma NoticeShowsBinary(b: seq<Hex.Byte>)
    requires Utf8.DecodeStrict(b).None?
    requires OutputCalls.Encodable(OutputCalls.NoticeCall(b))
    ensures PayloadCell(OutputCalls.Encode(OutputCalls.NoticeCall(b))) == Ok(Hex.ToHex(b) + " (hex)")
  {
    var call := OutputCalls.NoticeCall(b);
    OutputCalls.DecodeEncode(call);
    CellOfCall(OutputCalls.Encode(call), call);
    Hex.HexRoundTrip(b);
  }

  // ---- Validating a notice ----

  /** The function of the application contract that checks an output against its proof; it
      reverts when the proof does not hold. */
  const ValidateFn: string := "validateOutput"

  /** One press of "Validate Notice": the message it leaves and the requests it makes.
      `ready` is a chain and an application being selected. */
  function ValidateOutcome(ready: bool, payload: string, proof: Option<Proof>, env: Env): (Option<string>, seq<Request>) {
    if payload == "" then (Some("no notice"), [])
    else if !VoucherExecution.HasProof(proof) then (Some("no proof"), [])
    else if !ready || !env.hasClient then (None, [])
    else match env.reply(Read(ValidateFn))
      case Answer(_) => (Some("Notice is Valid!"), [Read(ValidateFn)])
      case Threw(f) => (WalkMessage(f), [Read(ValidateFn)])
  }

  /** The contract is asked only about a notice with a payload and sibling hashes, only by a
      read (no transaction is sent), and the notice is called valid exactly when that read
      returns; a read that reverts shows the deepest cause of its error. */
  lemma ValidateMeaning(ready: bool, payload: string, proof: Option<Proof>, env: Env)
    ensures var (msg, reqs) := ValidateOutcome(ready, payload, proof, env);
            (reqs != [] <==> payload != "" && VoucherExecution.HasProof(proof) && ready && env.hasClient)
            && (reqs != [] ==> reqs == [Read(ValidateFn)])
            && (payload == "" ==> msg == Some("no notice"))
            && (payload != "" && !VoucherExecution.HasProof(proof) ==> msg == Some("no proof"))
            && (reqs != [] && env.reply(Read(ValidateFn)).Answer? ==> msg == Some("Notice is Valid!"))
            && (reqs != [] && env.reply(Read(ValidateFn)).Threw? ==> msg == WalkMessage(env.reply(Read(ValidateFn)).failure))
  {
  }

  /** The button of the notice shown: whether it is disabled, and its caption. */
  function ValidateButton(proof: Option<Proof>): (bool, string) {
    (proof.None?, if proof.Some? then "Validate Notice" else "No proof yet")
  }

  /** The button is enabled exactly when it offers validation; it tests only that a proof is
      there, so for a proof without sibling hashes pressing it says "no proof". */
  lemma ButtonMeaning(proof: Option<Proof>, payload: string, ready: bool, env: Env)
    ensures !ValidateButton(proof).0 <==> ValidateButton(proof).1 == "Validate Notice"
    ensures payload != "" && proof.Some? && proof.value.siblings == Some([]) ==>
              !ValidateButton(proof).0 && ValidateOutcome(ready, payload, proof, env) == (Some("no proof"), [])
  {
  }

  /** The state of the upper table: the notice shown and its message. */
  class NoticePanel {
    const hasUrl: bool
    const ready: bool
    var selected: Option<NoticeNode>
    var message: Option<string>

    constructor(hasUrl: bool, ready: bool)
      ensures this.hasUrl == hasUrl && this.ready == ready && selected.None? && message.None?
    {
      this.hasUrl := hasUrl;
      this.ready := ready;
      selected := None;
      message := None;
    }

    /** `loadNotice`, given what the single-notice query found. */
    method LoadNotice(found: Option<NoticeNode>)
      modifies this
      ensures hasUrl ==> selected == found && message.None?
      ensures !hasUrl ==> selected == old(selected) && message == old(message)
    {
      if !hasUrl {
        return;
      }
      selected := found;
      message := None;
    }

    /** `validateNotice` on the notice shown. */
    method ValidateNotice(env: Env) returns (requests: seq<Request>)
      requires selected.Some?
      modifies this
      ensures selected == old(selected)
      ensures (message, requests) == ValidateOutcome(ready, selected.value.payload, selected.value.proof, env)
    {
      var notice := selected.value;
      requests := [];
      if notice.payload == "" {
        message := Some("no notice");
        return;
      }
      if !VoucherExecution.HasProof(notice.proof) {
        message := Some("no proof");
        return;
      }
      message := None;
      if !ready || !env.hasClient {
        return;
      }
      requests := [Read(ValidateFn)];
      match env.reply(Read(ValidateFn))
      case Answer(_) =>
        message := Some("Notice is Valid!");
      case Threw(f) =>
        message := WalkMessage(f);
    }
  }
}
