/** The Delegate-call Vouchers panel: the same table as the Vouchers panel, for outputs that
    `DELEGATECALL` their destination. A delegate-call voucher has two arguments, destination
    and payload, but the row reads the payload from a third. */
module DelegatedCallVouchers {
  import opened Wrappers
  import opened Graphql
  import Abi
  import Hex
  import OutputCalls
  import VoucherCalls
  import PayloadText
  import Sorting
  import Vouchers
  import VoucherExecution

  /** A row of the table (no value: a delegate call moves none). */
  datatype Row = Row(index: int, payload: string, destination: string, input: Option<InputRef>)

  /** The argument the payload cell describes: the index as written reads `args[2]`. */
  const PayloadArgAsWritten: nat := 2

  /** The argument that holds a delegate-call voucher's payload. */
  const PayloadArg: nat := 1

  /** The payload cell, reading argument `arg` of the decoded call. */
  function PayloadCellAt(p: string, arg: nat): Result<string> {
    if p == "" then Ok("(empty)")
    else
      var call :- OutputCalls.DecodeOutputCall(p);
      OutputCalls.DescribeArg(OutputCalls.Arg(call, arg))
  }

  /** The payload cell as written. */
  function PayloadCellAsWritten(p: string): Result<string> {
    PayloadCellAt(p, PayloadArgAsWritten)
  }

  /** The payload cell as intended. */
  function PayloadCell(p: string): Result<string> {
    PayloadCellAt(p, PayloadArg)
  }

  lemma CellOfCall(p: string, call: OutputCalls.OutputCall, arg: nat)
    requires Hex.HasHexPrefix(p) && OutputCalls.DecodeOutputCall(p) == Ok(call)
    ensures PayloadCellAt(p, arg) == OutputCalls.DescribeArg(OutputCalls.Arg(call, arg))
  {
  }

  /** As written, every delegate-call voucher shows "undefined (hex)", whatever it carries. */
  lemma AsWrittenShowsUndefined(destination: Abi.Address, payload: seq<Hex.Byte>)
    requires OutputCalls.Encodable(OutputCalls.DelegateCallVoucherCall(destination, payload))
    ensures PayloadCellAsWritten(OutputCalls.Encode(OutputCalls.DelegateCallVoucherCall(destination, payload)))
            == Ok("undefined (hex)")
  {
    var call := OutputCalls.DelegateCallVoucherCall(destination, payload);
    OutputCalls.DecodeEncode(call);
    CellOfCall(OutputCalls.Encode(call), call, PayloadArgAsWritten);
    assert OutputCalls.Arg(call, PayloadArgAsWritten) == None;
    OutputCalls.DescribeMissing();
  }

  /** Read from its payload argument, a delegate-call voucher is described as a voucher with
      the same destination and payload is, whatever that voucher's value. */
  lemma ShowsPayloadLikeVoucher(destination: Abi.Address, value: nat, payload: seq<Hex.Byte>)
    requires OutputCalls.Encodable(OutputCalls.DelegateCallVoucherCall(destination, payload))
    requires OutputCalls.Encodable(OutputCalls.VoucherCall(destination, value, payload))
    ensures PayloadCell(OutputCalls.Encode(OutputCalls.DelegateCallVoucherCall(destination, payload)))
            == Vouchers.PayloadCell(OutputCalls.Encode(OutputCalls.VoucherCall(destination, value, payload)))
  {
    var call := OutputCalls.DelegateCallVoucherCall(destination, payload);
    OutputCalls.DecodeEncode(call);
    CellOfCall(OutputCalls.Encode(call), call, PayloadArg);
    var voucher := OutputCalls.VoucherCall(destination, value, payload);
    OutputCalls.DecodeEncode(voucher);
    Vouchers.CellOfCall(OutputCalls.Encode(voucher), voucher);
  }

  /** Read from its payload argument, a delegate-call voucher carrying a token call is shown
      by that call's description. */
  lemma ShowsCall(destination: Abi.Address, c: VoucherCalls.Call)
    requires VoucherCalls.Encodable(c)
    requires OutputCalls.Encodable(OutputCalls.DelegateCallVoucherCall(destination, VoucherCalls.CallBytes(c)))
    ensures PayloadCell(OutputCalls.Encode(OutputCalls.DelegateCallVoucherCall(destination, VoucherCalls.CallBytes(c))))
            == Ok(VoucherCalls.Text(c))
  {
    var call := OutputCalls.DelegateCallVoucherCall(destination, VoucherCalls.CallBytes(c));
    OutputCalls.DecodeEncode(call);
    CellOfCall(OutputCalls.Encode(call), call, PayloadArg);
    OutputCalls.DescribeCallArg(c);
  }

  function ToRowWith(n: DelegateCallVoucherNode, arg: nat): Result<Row> {
    var payload :- PayloadCellAt(n.payload, arg);
    Ok(Row(n.index, payload, n.destination.GetOr(""), Vouchers.InputCell(n.input)))
  }

  function ToRow(n: DelegateCallVoucherNode): Result<Row> {
    ToRowWith(n, PayloadArg)
  }

  function RowIndex(r: Row): int {
    r.index
  }

  /** The rows, sorted by `(b, a) => b.index - a.index`; one row that throws fails them all. */
  function Table(nodes: seq<DelegateCallVoucherNode>): Result<seq<Row>> {
    var rows :- MapAll(nodes, ToRow);
    Ok(Sorting.SortBy(rows, RowIndex))
  }

  /** The table holds exactly one row per delegate-call voucher, in ascending order of output
      index, and it is there exactly when every payload decodes. */
  lemma TableOrdered(nodes: seq<DelegateCallVoucherNode>)
    ensures Table(nodes).Ok? <==> forall i :: 0 <= i < |nodes| ==> ToRow(nodes[i]).Ok?
    ensures Table(nodes).Ok? ==>
              Sorting.SortedBy(Table(nodes).value, RowIndex)
              && multiset(Table(nodes).value) == multiset(MapAll(nodes, ToRow).value)
  {
    var rows := MapAll(nodes, ToRow);
    if rows.Ok? {
      Sorting.SortBySorted(rows.value, RowIndex);
      Sorting.SortByPermutes(rows.value, RowIndex);
    }
  }

  /** A row as written, its payload cell read from `args[2]`. */
  function ToRowAsWritten(n: DelegateCallVoucherNode): Result<Row> {
    ToRowWith(n, PayloadArgAsWritten)
  }

  /** The table as written: the same sort, over rows whose payload cell reads `args[2]`. */
  function TableAsWritten(nodes: seq<DelegateCallVoucherNode>): Result<seq<Row>> {
    var rows :- MapAll(nodes, ToRowAsWritten);
    Ok(Sorting.SortBy(rows, RowIndex))
  }

  /** As written too, the table holds one row per delegate-call voucher in ascending order
      of output index, and it is there exactly when every row's payload cell is. */
  lemma TableAsWrittenOrdered(nodes: seq<DelegateCallVoucherNode>)
    ensures TableAsWritten(nodes).Ok? <==> forall i :: 0 <= i < |nodes| ==> ToRowAsWritten(nodes[i]).Ok?
    ensures TableAsWritten(nodes).Ok? ==>
              Sorting.SortedBy(TableAsWritten(nodes).value, RowIndex)
              && multiset(TableAsWritten(nodes).value) == multiset(MapAll(nodes, ToRowAsWritten).value)
  {
    var rows := MapAll(nodes, ToRowAsWritten);
    if rows.Ok? {
      Sorting.SortBySorted(rows.value, RowIndex);
      Sorting.SortByPermutes(rows.value, RowIndex);
    }
  }

  /** As written, the row of a delegate-call voucher the node encoded shows "undefined (hex)"
      in its payload cell, whatever payload the voucher carries. */
  lemma AsWrittenRowUndefined(n: DelegateCallVoucherNode, destination: Abi.Address, payload: seq<Hex.Byte>)
    requires OutputCalls.Encodable(OutputCalls.DelegateCallVoucherCall(destination, payload))
    requires n.payload == OutputCalls.Encode(OutputCalls.DelegateCallVoucherCall(destination, payload))
    ensures ToRowAsWritten(n) == Ok(Row(n.index, "undefined (hex)", n.destination.GetOr(""), Vouchers.InputCell(n.input)))
  {
    AsWrittenShowsUndefined(destination, payload);
  }

  /** What "Get Proof" keeps of the delegate-call voucher fetched. */
  function Held(n: DelegateCallVoucherNode): VoucherExecution.Held {
    VoucherExecution.Held(n.index, n.payload, n.proof)
  }
}
