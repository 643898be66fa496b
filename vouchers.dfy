/** The Vouchers panel: the application's vouchers as read from the GraphQL API, one row
    each, in order of output index, with the token call each one carries described. */
module Vouchers {
  import opened Wrappers
  import opened Graphql
  import Abi
  import Hex
  import OutputCalls
  import VoucherCalls
  import PayloadText
  import Sorting
  import VoucherExecution

  /** A row of the table. */
  datatype Row = Row(index: int, payload: string, destination: string, value: string, input: Option<InputRef>)

  /** The payload cell: "(empty)", or the description of the call in the voucher's third
      argument, its `bytes` payload. A payload that is not a `Voucher` call throws. */
  function PayloadCell(p: string): Result<string> {
    if p == "" then Ok("(empty)")
    else
      var call :- OutputCalls.DecodeOutputCall(p);
      OutputCalls.DescribeArg(OutputCalls.Arg(call, 2))
  }

  /** The input cell: kept only for an input with an id, its payload marked as hex. */
  function InputCell(input: Option<InputRef>): Option<InputRef> {
    match input
    case Some(i) => if i.id != "" then Some(InputRef(i.id, PayloadText.MarkedHex(i.payload))) else None
    case None => None
  }

  function ToRow(n: VoucherNode): Result<Row> {
    var payload :- PayloadCell(n.payload);
    Ok(Row(n.index, payload, n.destination.GetOr(""), n.value, InputCell(n.input)))
  }

  function RowIndex(r: Row): int {
    r.index
  }

  /** The rows, sorted by `(b, a) => b.index - a.index`; one row that throws fails them all. */
  function Table(nodes: seq<VoucherNode>): Result<seq<Row>> {
    var rows :- MapAll(nodes, ToRow);
    Ok(Sorting.SortBy(rows, RowIndex))
  }

  /** The table holds exactly one row per voucher, in ascending order of output index, and
      it is there exactly when every voucher's payload decodes. */
  lemma TableOrdered(nodes: seq<VoucherNode>)
    ensures Table(nodes).Ok? <==> forall i :: 0 <= i < |nodes| ==> ToRow(nodes[i]).Ok?
    ensures Table(nodes).Ok? ==>
              Sorting.SortedBy(Table(nodes).value, RowIndex)
              && multiset(Table(nodes).value) == multiset(MapAll(nodes, ToRow).value)
  {
    var rows := MapAll(nodes, ToRow);
    if rows.Ok? {
      Sorting.SortBySorted(rows.value, RowIndex);
      Sorting.SortByPermutes(rows.value, RowIndex);
    }
  }

  lemma CellOfCall(p: string, call: OutputCalls.OutputCall)
    requires Hex.HasHexPrefix(p) && OutputCalls.DecodeOutputCall(p) == Ok(call)
    ensures PayloadCell(p) == OutputCalls.DescribeArg(OutputCalls.Arg(call, 2))
  {
  }

  /** A voucher that carries a token call is shown by that call's description. */
  lemma VoucherShowsCall(destination: Abi.Address, value: nat, c: VoucherCalls.Call)
    requires VoucherCalls.Encodable(c)
    requires OutputCalls.Encodable(OutputCalls.VoucherCall(destination, value, VoucherCalls.CallBytes(c)))
    ensures PayloadCell(OutputCalls.Encode(OutputCalls.VoucherCall(destination, value, VoucherCalls.CallBytes(c))))
            == Ok(VoucherCalls.Text(c))
  {
    var call := OutputCalls.VoucherCall(destination, value, VoucherCalls.CallBytes(c));
    var p := OutputCalls.Encode(call);
    OutputCalls.DecodeEncode(call);
    CellOfCall(p, call);
    assert OutputCalls.Arg(call, 2) == Some(OutputCalls.HexArg(VoucherCalls.CallHex(c)));
    OutputCalls.DescribeCallArg(c);
  }

  /** A voucher whose payload is no call of the table shows its payload's hex, marked. */
  lemma VoucherShowsOtherPayload(destination: Abi.Address, value: nat, payload: seq<Hex.Byte>)
    requires OutputCalls.Encodable(OutputCalls.VoucherCall(destination, value, payload))
    requires VoucherCalls.Lookup(OutputCalls.InnerSelector(Some(OutputCalls.HexArg(Hex.ToHex(payload))))).None?
    ensures PayloadCell(OutputCalls.Encode(OutputCalls.VoucherCall(destination, value, payload)))
            == Ok(Hex.ToHex(payload) + " (hex)")
  {
    var call := OutputCalls.VoucherCall(destination, value, payload);
    OutputCalls.DecodeEncode(call);
    CellOfCall(OutputCalls.Encode(call), call);
  }

  /** Notices and delegate-call vouchers have no third argument, so read as vouchers they show
      "undefined (hex)". */
  lemma OtherOutputsShowUndefined(c: OutputCalls.OutputCall)
    requires !c.VoucherCall? && OutputCalls.Encodable(c)
    ensures PayloadCell(OutputCalls.Encode(c)) == Ok("undefined (hex)")
  {
    OutputCalls.DecodeEncode(c);
    CellOfCall(OutputCalls.Encode(c), c);
    assert OutputCalls.Arg(c, 2) == None;
    OutputCalls.DescribeMissing();
  }

  /** What "Get Proof" keeps of the voucher fetched. */
  function Held(n: VoucherNode): VoucherExecution.Held {
    VoucherExecution.Held(n.index, n.payload, n.proof)
  }
}
