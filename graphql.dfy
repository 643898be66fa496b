/** The records the console reads from the rollups node's GraphQL API, the URL it reads them
    from, and the getters that turn a query response into a list of records. The HTTP request
    itself is not modelled: a response is a parameter. */
module Graphql {
  import opened Wrappers

  /** The proof of an output: its index and the sibling hashes of its Merkle path. */
  datatype Proof = Proof(outputIndex: int, siblings: Option<seq<string>>)

  /** The input an output answers; an absent payload is the empty string. */
  datatype InputRef = InputRef(id: string, payload: string)

  datatype VoucherNode = VoucherNode(
    index: int, destination: Option<string>, payload: string, value: string,
    input: Option<InputRef>, proof: Option<Proof>)

  datatype DelegateCallVoucherNode = DelegateCallVoucherNode(
    index: int, destination: Option<string>, payload: string,
    input: Option<InputRef>, proof: Option<Proof>)

  datatype NoticeNode = NoticeNode(index: int, payload: string, input: Option<InputRef>, proof: Option<Proof>)

  datatype ReportNode = ReportNode(index: int, payload: string, input: Option<InputRef>)

  /** The `graphqlAPIURL` configured for each chain id. */
  type Config = map<string, string>

  /** `${appAddress}` of an address that may be missing. */
  function AddressText(appAddress: Option<string>): string {
    appAddress.GetOr("undefined")
  }

  /** `getGraphqlUrl`: the chain's base URL followed by `/graphql/` and the application
      address, or nothing when the chain has no (or an empty) base URL. The later test for an
      empty URL never fires, since the URL built always holds `/graphql/`. */
  function GraphqlUrl(config: Config, chainId: string, appAddress: Option<string>): (r: Option<string>)
    ensures r.Some? <==> chainId in config && config[chainId] != ""
  {
    var url := if chainId in config && config[chainId] != ""
               then config[chainId] + "/graphql/" + AddressText(appAddress)
               else "";
    if chainId in config && config[chainId] != "" then
      if url == "" then None else Some(url)
    else None
  }

  /** The URL is built from the base and the address, and determines the address. */
  lemma GraphqlUrlShape(config: Config, chainId: string, a1: Option<string>, a2: Option<string>)
    requires GraphqlUrl(config, chainId, a1).Some?
    ensures GraphqlUrl(config, chainId, a1).value == config[chainId] + "/graphql/" + AddressText(a1)
    ensures GraphqlUrl(config, chainId, a1) == GraphqlUrl(config, chainId, a2) <==> AddressText(a1) == AddressText(a2)
  {
    var base := config[chainId] + "/graphql/";
    if base + AddressText(a1) == base + AddressText(a2) {
      assert AddressText(a1) == (base + AddressText(a1))[|base|..];
    }
  }

  /** A list field of a response: `edges` may be missing, and each edge may be null. */
  datatype Connection<T> = Connection(edges: Option<seq<Option<T>>>)

  /** `edges.filter(e => e !== null).map(e => e.node)`. */
  function Nodes<T>(edges: seq<Option<T>>): (r: seq<T>)
    ensures |r| <= |edges|
    ensures forall i :: 0 <= i < |edges| && edges[i].Some? ==> edges[i].value in r
    ensures forall j :: 0 <= j < |r| ==> Some(r[j]) in edges
  {
    if edges == [] then []
    else
      var rest := Nodes(edges[1..]);
      assert forall i :: 1 <= i < |edges| ==> edges[i] == edges[1..][i - 1];
      if edges[0].Some? then [edges[0].value] + rest else rest
  }

  /** Filtering distributes over concatenation, so the order of the edges is kept. */
  lemma {:induction false} NodesAppend<T>(a: seq<Option<T>>, b: seq<Option<T>>)
    ensures Nodes(a + b) == Nodes(a) + Nodes(b)
  {
    if a == [] {
      assert a + b == b;
    } else {
      assert (a + b)[1..] == a[1..] + b;
      NodesAppend(a[1..], b);
    }
  }

  /** A response without null edges gives one record per edge. */
  lemma {:induction false} NodesAllPresent<T>(edges: seq<Option<T>>)
    requires forall i :: 0 <= i < |edges| ==> edges[i].Some?
    ensures |Nodes(edges)| == |edges|
    ensures forall i :: 0 <= i < |edges| ==> Nodes(edges)[i] == edges[i].value
  {
    if edges != [] {
      NodesAllPresent(edges[1..]);
    }
  }

  /** `getNotices`, `getVouchers` and `getDelegatedCallVouchers`: the records of the list
      field, or none when the field or its edges are missing. */
  function ListNodes<T>(field: Option<Connection<T>>): seq<T> {
    match field
    case None => []
    case Some(Connection(None)) => []
    case Some(Connection(Some(edges))) => Nodes(edges)
  }

  /** `getReports` tests only that the `reports` field is there, then reads its edges, so a
      field without edges throws. */
  function ListReports(field: Option<Connection<ReportNode>>): Result<seq<ReportNode>> {
    match field
    case None => Ok([])
    case Some(Connection(None)) => Err(NullDereference)
    case Some(Connection(Some(edges))) => Ok(Nodes(edges))
  }

  /** Reports are listed like the other outputs, except that a field without edges throws
      where the others give an empty list. */
  lemma ReportsLikeOthers(field: Option<Connection<ReportNode>>)
    ensures ListReports(field).Ok? ==> ListReports(field).value == ListNodes(field)
    ensures ListReports(field).Err? <==> field.Some? && field.value.edges.None?
  {
  }

  /** The two query documents of an output kind: the list of all, and one by output index
      (the index travels as a query variable). */
  datatype Document = ListDocument | SingleDocument

  /** A response carries the field its document asks for: the list, or the single record
      (`null` when there is none). */
  datatype Response<T> = Response(list: Option<Connection<T>>, single: Option<T>)

  predicate Answers<T>(doc: Document, r: Response<T>) {
    match doc
    case ListDocument => r.single.None?
    case SingleDocument => r.list.None?
  }

  /** `getNotices` / `getVouchers`: send the list document, read the list field. */
  function GetList<T>(r: Response<T>): seq<T> {
    ListNodes(r.list)
  }

  /** `getNotice` / `getVoucher` / `getDelegatedCallVoucher`: the single field, `undefined`
      when null. */
  function GetOne<T>(r: Response<T>): Option<T> {
    r.single
  }

  /** The document `getDelegatedCallVouchers` sends, as written: the single-record one
      (and no index with it). */
  const DelegatedCallVouchersDocumentAsWritten: Document := SingleDocument

  /** The document it evidently means to send. */
  const DelegatedCallVouchersDocument: Document := ListDocument

  /** As written, no answer to the document sent holds a list, so no delegate-call voucher
      is ever listed. */
  lemma DelegatedCallVouchersAsWrittenEmpty(r: Response<DelegateCallVoucherNode>)
    requires Answers(DelegatedCallVouchersDocumentAsWritten, r)
    ensures GetList(r) == []
  {
  }

  /** With the list document, every record of the answer is listed, in order. */
  lemma DelegatedCallVouchersListed(r: Response<DelegateCallVoucherNode>, edges: seq<DelegateCallVoucherNode>)
    requires Answers(DelegatedCallVouchersDocument, r)
    requires r.list == Some(Connection(Some(seq(|edges|, i requires 0 <= i < |edges| => Some(edges[i])))))
    ensures GetList(r) == edges
  {
    var e := seq(|edges|, i requires 0 <= i < |edges| => Some(edges[i]));
    NodesAllPresent(e);
  }

  /** What a panel shows instead of its table before fetching anything: no chain selected, or
      no URL for it. */
  function PanelError(config: Config, chainId: string, appAddress: Option<string>): Option<string> {
    if chainId == "" then Some("No connected chain")
    else if GraphqlUrl(config, chainId, appAddress).None? then Some("No chain graphql url")
    else None
  }

  /** A panel fetches exactly when a chain is selected and the configuration has a URL for it. */
  lemma PanelErrorMeaning(config: Config, chainId: string, appAddress: Option<string>)
    ensures PanelError(config, chainId, appAddress).None? <==> chainId != "" && chainId in config && config[chainId] != ""
    ensures chainId == "" ==> PanelError(config, chainId, appAddress) == Some("No connected chain")
  {
  }
}
