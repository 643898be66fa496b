/** The Reports panel: the reports of the rollups node, their payloads and their inputs'
    payloads decoded as text, listed by output index. */
module Reports {
  import opened Wrappers
  import opened Graphql
  import PayloadText
  import Sorting
  import Notices

  /** A row of the table. */
  datatype Row = Row(index: int, payload: string, input: Option<InputRef>)

  /** A report's row: payload and input payload decoded (neither can throw), the input kept
      only when it has an id. */
  function ToRow(n: ReportNode): Row {
    Row(n.index, PayloadText.DecodedOrEmpty(n.payload), Notices.InputCell(n.input))
  }

  function RowIndex(r: Row): int {
    r.index
  }

  predicate AllHaveInput(rows: seq<Row>) {
    forall i :: 0 <= i < |rows| ==> rows[i].input.Some?
  }

  /** The sort. Its comparator reads `input.index` of both rows, which no row's input has, so
      the two sides are equal (`undefined`) and the rows are ordered by output index; but it
      reads the field of a row's input, so with two rows or more, a row without input
      throws. */
  function SortRows(rows: seq<Row>): Result<seq<Row>> {
    if |rows| >= 2 && !AllHaveInput(rows) then Err(NullDereference)
    else Ok(Sorting.SortBy(rows, RowIndex))
  }

  /** The table: the sorted rows, each of which shows `input.id`, so that any row without input
      throws when the table is drawn, even alone. */
  function Table(nodes: seq<ReportNode>): Result<seq<Row>> {
    var rows := seq(|nodes|, i requires 0 <= i < |nodes| => ToRow(nodes[i]));
    var sorted :- SortRows(rows);
    if !AllHaveInput(sorted) then Err(NullDereference) else Ok(sorted)
  }

  lemma SameRows(s: seq<Row>, t: seq<Row>)
    requires multiset(s) == multiset(t)
    ensures AllHaveInput(s) <==> AllHaveInput(t)
  {
    forall i | 0 <= i < |s| ensures s[i] in t {
      assert s[i] in multiset(s);
    }
    forall i | 0 <= i < |t| ensures t[i] in s {
      assert t[i] in multiset(t);
    }
  }

  /** The table is there exactly when every report has an input with an id, and it then holds
      exactly the reports' rows in ascending order of output index. */
  lemma TableMeaning(nodes: seq<ReportNode>)
    ensures Table(nodes).Ok? <==> forall i :: 0 <= i < |nodes| ==> nodes[i].input.Some? && nodes[i].input.value.id != ""
    ensures Table(nodes).Ok? ==>
              var rows := seq(|nodes|, i requires 0 <= i < |nodes| => ToRow(nodes[i]));
              Sorting.SortedBy(Table(nodes).value, RowIndex) && multiset(Table(nodes).value) == multiset(rows)
  {
    var rows := seq(|nodes|, i requires 0 <= i < |nodes| => ToRow(nodes[i]));
    var sorted := Sorting.SortBy(rows, RowIndex);
    Sorting.SortBySorted(rows, RowIndex);
    Sorting.SortByPermutes(rows, RowIndex);
    SameRows(rows, sorted);
    assert AllHaveInput(rows) <==> forall i :: 0 <= i < |nodes| ==> nodes[i].input.Some? && nodes[i].input.value.id != "" by {
      forall i | 0 <= i < |nodes| ensures rows[i].input.Some? <==> nodes[i].input.Some? && nodes[i].input.value.id != "" {
        assert rows[i] == ToRow(nodes[i]);
      }
    }
  }

  /** A single report without input passes the sort, and fails only when drawn. */
  lemma LoneReportWithoutInput(n: ReportNode)
    requires n.input.None?
    ensures SortRows([ToRow(n)]).Ok? && Table([n]) == Err(NullDereference)
  {
    var rows := seq(1, i requires 0 <= i < 1 => ToRow([n][i]));
    assert rows == [ToRow(n)];
    assert Sorting.SortBy(rows, RowIndex) == [ToRow(n)];
  }

  /** A report whose payload is UTF-8 text shows that text. */
  lemma ReportShowsText(index: int, s: string, input: Option<InputRef>)
    requires s == [] || s[0] != '\U{FEFF}'
    ensures ToRow(ReportNode(index, PayloadText.TextHex(s), input)).payload == s
  {
    PayloadText.LossyTextOfText(s);
  }

  /** The panel asks for the URL without an application, so it reads from `/graphql/undefined`. */
  lemma ReportsUrl(config: Config, chainId: string)
    requires chainId in config && config[chainId] != ""
    ensures GraphqlUrl(config, chainId, None) == Some(config[chainId] + "/graphql/undefined")
  {
    GraphqlUrlShape(config, chainId, None, None);
    assert AddressText(None) == "undefined";
    assert "/graphql/" + "undefined" == "/graphql/undefined";
    assert config[chainId] + "/graphql/" + "undefined" == config[chainId] + ("/graphql/" + "undefined");
  }
}
