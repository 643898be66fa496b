/** The token calls a voucher may carry, and the one-line description the console gives each:
    ERC-20 `transfer`, ERC-721 `safeTransferFrom`, ERC-1155 `safeTransferFrom` and
    `safeBatchTransferFrom`, and three ERC-721 mints. */
module VoucherCalls {
  import opened Wrappers
  import opened Hex
  import opened Abi
  import Decimal
  import Utf8

  datatype Kind =
    | Erc20Transfer
    | Erc721SafeTransfer
    | Erc1155SafeTransfer
    | Erc1155SafeBatchTransfer
    | Erc721MintWithUrl
    | Erc721MintTo
    | Erc721Mint

  /** The four-byte function selector of each kind, as lower-case hex. */
  function SelectorText(k: Kind): (s: string)
    ensures IsHex(s) && |s| == 10
  {
    match k
    case Erc20Transfer => "0xa9059cbb"
    case Erc721SafeTransfer => "0x42842e0e"
    case Erc1155SafeTransfer => "0xf242432a"
    case Erc1155SafeBatchTransfer => "0x2eb2c2d6"
    case Erc721MintWithUrl => "0xd0def521"
    case Erc721MintTo => "0x755edd17"
    case Erc721Mint => "0x6a627842"
  }

  /** The only case a lower-case selector can land in, told by its first hex digit (the
      seven selectors all differ there). */
  function Candidate(digit: char): Option<Kind> {
    match digit
    case 'a' => Some(Erc20Transfer)
    case '4' => Some(Erc721SafeTransfer)
    case 'f' => Some(Erc1155SafeTransfer)
    case '2' => Some(Erc1155SafeBatchTransfer)
    case 'd' => Some(Erc721MintWithUrl)
    case '7' => Some(Erc721MintTo)
    case '6' => Some(Erc721Mint)
    case _ => None
  }

  /** The `switch (selector.toLowerCase())`: which case a selector lands in, if any. */
  function Lookup(selector: string): Option<Kind> {
    var s := Lower(selector);
    if |s| != 10 then None
    else match Candidate(s[2])
      case None => None
      case Some(k) => if s == SelectorText(k) then Some(k) else None
  }

  /** A selector lands in a case exactly when it is that case's selector, in either case;
      so `Lookup` is the switch, which compares with each case in turn. */
  lemma LookupSelector(selector: string, k: Kind)
    ensures Lookup(selector) == Some(k) <==> Lower(selector) == SelectorText(k)
  {
    var s := Lower(selector);
    if s == SelectorText(k) {
      assert s[2] == SelectorText(k)[2];
      assert Candidate(s[2]) == Some(k) by {
        match k
        case Erc20Transfer =>
        case Erc721SafeTransfer =>
        case Erc1155SafeTransfer =>
        case Erc1155SafeBatchTransfer =>
        case Erc721MintWithUrl =>
        case Erc721MintTo =>
        case Erc721Mint =>
      }
    }
  }

  /** Each case's own selector lands in that case. */
  lemma LookupOwnSelector(k: Kind)
    ensures Lookup(SelectorText(k)) == Some(k)
  {
    var s := SelectorText(k);
    SelectorIsLower(k);
    LookupSelector(s, k);
  }

  lemma SelectorIsLower(k: Kind)
    ensures Lower(SelectorText(k)) == SelectorText(k)
  {
    match k
    case Erc20Transfer => LowerOfLower("0xa9059cbb");
    case Erc721SafeTransfer => LowerOfLower("0x42842e0e");
    case Erc1155SafeTransfer => LowerOfLower("0xf242432a");
    case Erc1155SafeBatchTransfer => LowerOfLower("0x2eb2c2d6");
    case Erc721MintWithUrl => LowerOfLower("0xd0def521");
    case Erc721MintTo => LowerOfLower("0x755edd17");
    case Erc721Mint => LowerOfLower("0x6a627842");
  }

  /** No selector lands in two cases. */
  lemma SelectorsDistinct(j: Kind, k: Kind)
    requires j != k
    ensures SelectorText(j) != SelectorText(k)
  {
    var sj := SelectorText(j);
    var sk := SelectorText(k);
    assert Candidate(sj[2]) == Some(j) && Candidate(sk[2]) == Some(k) by {
      match j
      case Erc20Transfer =>
      case Erc721SafeTransfer =>
      case Erc1155SafeTransfer =>
      case Erc1155SafeBatchTransfer =>
      case Erc721MintWithUrl =>
      case Erc721MintTo =>
      case Erc721Mint =>
    }
  }

  /** viem trims the leading zero bytes of a decoded `string`, keeping at least one byte. */
  function TrimLeft(b: seq<Byte>): (r: seq<Byte>)
    ensures |r| <= |b| && (b != [] ==> r != [])
    ensures r == b[|b| - |r|..]
  {
    if |b| > 1 && b[0] == 0 then TrimLeft(b[1..]) else b
  }

  /** A decoded `string` argument. */
  function ReadText(data: seq<Byte>, head: nat): Result<string> {
    var b :- ReadBytes(data, head);
    Ok(if b == [] then "" else Utf8.DecodeLossy(TrimLeft(b)))
  }

  function Numbers(ns: seq<nat>): string {
    Decimal.Join(Decimal.RenderAll(ns))
  }

  // The templates of the switch's cases, shared by the decoder and by `Text`.

  function TransferText(receiver: Address, amount: nat): string {
    "Erc20 Transfer - Amount: " + Decimal.Render(amount) + " - Address: " + AddressText(receiver)
  }

  function NftTransferText(receiver: Address, id: nat): string {
    "Erc721 Transfer - Id: " + Decimal.Render(id) + " - Address: " + AddressText(receiver)
  }

  function MultiTransferText(receiver: Address, id: nat, amount: nat): string {
    "Erc1155 Single Transfer - Id: " + Decimal.Render(id) + " Amount: " + Decimal.Render(amount)
    + " - Address: " + AddressText(receiver)
  }

  function BatchTransferText(receiver: Address, ids: seq<nat>, amounts: seq<nat>): string {
    "Erc1155 Batch Transfer - Ids: " + Numbers(ids) + " Amounts: " + Numbers(amounts)
    + " - Address: " + AddressText(receiver)
  }

  function MintWithUrlText(receiver: Address, url: string): string {
    "Mint Erc721 - String: " + url + " - Address: " + AddressText(receiver)
  }

  function MintText(receiver: Address): string {
    "Mint Erc721 - Address: " + AddressText(receiver)
  }

  /** `decodeAbiParameters` with the case's parameter list, then the case's template. */
  function Render(k: Kind, data: seq<Byte>): Result<string> {
    match k
    case Erc20Transfer => RenderTransfer(data)
    case Erc721SafeTransfer => RenderNftTransfer(data)
    case Erc1155SafeTransfer => RenderMultiTransfer(data)
    case Erc1155SafeBatchTransfer => RenderBatchTransfer(data)
    case Erc721MintWithUrl => RenderMintWithUrl(data)
    case Erc721MintTo => RenderMint(data)
    case Erc721Mint => RenderMint(data)
  }

  /** `address receiver, uint256 amount`. */
  function RenderTransfer(data: seq<Byte>): Result<string> {
    var receiver :- ReadAddress(data, 0);
    var amount :- ReadUint(data, 32);
    Ok(TransferText(receiver, amount))
  }

  /** `address sender, address receiver, uint256 id`. */
  function RenderNftTransfer(data: seq<Byte>): Result<string> {
    var _ :- ReadAddress(data, 0);
    var receiver :- ReadAddress(data, 32);
    var id :- ReadUint(data, 64);
    Ok(NftTransferText(receiver, id))
  }

  /** `address sender, address receiver, uint256 id, uint256 amount`. */
  function RenderMultiTransfer(data: seq<Byte>): Result<string> {
    var _ :- ReadAddress(data, 0);
    var receiver :- ReadAddress(data, 32);
    var id :- ReadUint(data, 64);
    var amount :- ReadUint(data, 96);
    Ok(MultiTransferText(receiver, id, amount))
  }

  /** `address sender, address receiver, uint256[] ids, uint256[] amounts`; an array shows
      as its items joined with commas. */
  function RenderBatchTransfer(data: seq<Byte>): Result<string> {
    var _ :- ReadAddress(data, 0);
    var receiver :- ReadAddress(data, 32);
    var ids :- ReadUintArray(data, 64);
    var amounts :- ReadUintArray(data, 96);
    Ok(BatchTransferText(receiver, ids, amounts))
  }

  /** `address receiver, string url`. */
  function RenderMintWithUrl(data: seq<Byte>): Result<string> {
    var receiver :- ReadAddress(data, 0);
    var url :- ReadText(data, 32);
    Ok(MintWithUrlText(receiver, url))
  }

  /** `address receiver`, for both `mintTo` and `mint`. */
  function RenderMint(data: seq<Byte>): Result<string> {
    var receiver :- ReadAddress(data, 0);
    Ok(MintText(receiver))
  }

  /** The switch on a selector and the hex data after it: `None` is the `default` case, which
      each caller completes with its own fallback text. */
  function Describe(selector: string, data: string): Option<Result<string>> {
    match Lookup(selector)
    case None => None
    case Some(k) => Some(Decode(k, data))
  }

  /** The hex data read as bytes, then rendered for the case. */
  function Decode(k: Kind, data: string): Result<string> {
    var bytes :- HexToBytes(data);
    Render(k, bytes)
  }

  // ---- The calls themselves, the partner of the decoder ----

  datatype Call =
    | Transfer(to: Address, amount: nat)
    | NftTransfer(from: Address, to: Address, id: nat)
    | MultiTransfer(from: Address, to: Address, id: nat, amount: nat)
    | MultiBatchTransfer(from: Address, to: Address, ids: seq<nat>, amounts: seq<nat>)
    | MintWithUrl(to: Address, url: string)
    | MintTo(to: Address)
    | Mint(to: Address)

  function KindOf(c: Call): Kind {
    match c
    case Transfer(_, _) => Erc20Transfer
    case NftTransfer(_, _, _) => Erc721SafeTransfer
    case MultiTransfer(_, _, _, _) => Erc1155SafeTransfer
    case MultiBatchTransfer(_, _, _, _) => Erc1155SafeBatchTransfer
    case MintWithUrl(_, _) => Erc721MintWithUrl
    case MintTo(_) => Erc721MintTo
    case Mint(_) => Erc721Mint
  }

  /** What the console should say about a call, from its fields. */
  function Text(c: Call): string {
    match c
    case Transfer(to, amount) => TransferText(to, amount)
    case NftTransfer(_, to, id) => NftTransferText(to, id)
    case MultiTransfer(_, to, id, amount) => MultiTransferText(to, id, amount)
    case MultiBatchTransfer(_, to, ids, amounts) => BatchTransferText(to, ids, amounts)
    case MintWithUrl(to, url) => MintWithUrlText(to, url)
    case MintTo(to) => MintText(to)
    case Mint(to) => MintText(to)
  }


  /** The calls the ABI can carry: numbers fit a word, and a URL survives the decoder (it
      does not begin with a zero byte, which viem trims, or with U+FEFF, which the UTF-8
      decoder takes for a byte-order mark). */
  predicate Encodable(c: Call) {
    match c
    case Transfer(_, amount) => FitsWord(amount)
    case NftTransfer(_, _, id) => FitsWord(id)
    case MultiTransfer(_, _, id, amount) => FitsWord(id) && FitsWord(amount)
    case MultiBatchTransfer(_, _, ids, amounts) =>
      AllFit(ids) && AllFit(amounts)
      && FitsWord(128 + |UintArrayTail(ids)| + |UintArrayTail(amounts)|)
    case MintWithUrl(_, url) =>
      (url == [] || (url[0] != '\0' && url[0] != '\U{FEFF}')) && FitsWord(32 + |Utf8.Encode(url)| + 64)
    case MintTo(_) => true
    case Mint(_) => true
  }

  /** The call's arguments, encoded as the ABI lays them out. */
  function EncodeArgs(c: Call): seq<Byte> {
    match c
    case Transfer(to, amount) => AddressWord(to) + UintWord(amount)
    case NftTransfer(from, to, id) => AddressWord(from) + AddressWord(to) + UintWord(id)
    case MultiTransfer(from, to, id, amount) =>
      AddressWord(from) + AddressWord(to) + UintWord(id) + UintWord(amount)
    case MultiBatchTransfer(from, to, ids, amounts) =>
      AddressWord(from) + AddressWord(to) + UintWord(128) + UintWord(128 + |UintArrayTail(ids)|)
      + UintArrayTail(ids) + UintArrayTail(amounts)
    case MintWithUrl(to, url) => AddressWord(to) + UintWord(64) + BytesTail(Utf8.Encode(url))
    case MintTo(to) => AddressWord(to)
    case Mint(to) => AddressWord(to)
  }

  /** The whole call as a hex string: selector, then arguments. */
  function CallHex(c: Call): (s: string)
    ensures HasHexPrefix(s)
  {
    SelectorText(KindOf(c)) + Digits(EncodeArgs(c))
  }

  /** The hex of a call is the hex of its own bytes, as the ABI decoder gives back a `bytes`
      argument holding the call. */
  lemma CallHexCanonical(c: Call)
    ensures HexToBytes(CallHex(c)).Ok?
    ensures ToHex(HexToBytes(CallHex(c)).value) == CallHex(c)
  {
    var sel := SelectorText(KindOf(c));
    SelectorIsLower(KindOf(c));
    NoUpperOfLower(sel);
    CanonicalJoin(sel, EncodeArgs(c));
  }

  /** The bytes of a call: its selector, then its arguments. */
  function CallBytes(c: Call): (b: seq<Byte>)
    ensures ToHex(b) == CallHex(c)
  {
    CallHexCanonical(c);
    HexToBytes(CallHex(c)).value
  }

  /** A string that the lossy decoder gets back from the bytes the encoder wrote. */
  lemma UrlRoundTrip(url: string)
    requires url == [] || (url[0] != '\0' && url[0] != '\U{FEFF}')
    ensures var b := Utf8.Encode(url); (if b == [] then "" else Utf8.DecodeLossy(TrimLeft(b))) == url
  {
    var b := Utf8.Encode(url);
    if url != [] {
      assert b == Utf8.EncodeChar(url[0]) + Utf8.Encode(url[1..]);
      assert b[0] != 0;
      assert TrimLeft(b) == b;
    }
    Utf8.DecodeEncode(url);
  }

  /** Every call the ABI can carry is described by its own text. */
  lemma RenderEncoded(c: Call)
    requires Encodable(c)
    ensures Render(KindOf(c), EncodeArgs(c)) == Ok(Text(c))
  {
    match c
    case Transfer(to, amount) => TransferRoundTrip(to, amount);
    case NftTransfer(from, to, id) => NftTransferRoundTrip(from, to, id);
    case MultiTransfer(from, to, id, amount) => MultiTransferRoundTrip(from, to, id, amount);
    case MultiBatchTransfer(from, to, ids, amounts) => BatchRoundTrip(from, to, ids, amounts);
    case MintWithUrl(to, url) => MintWithUrlRoundTrip(to, url);
    case MintTo(to) => AddressRoundTrip(EncodeArgs(c), 0, to);
    case Mint(to) => AddressRoundTrip(EncodeArgs(c), 0, to);
  }

  lemma TransferRoundTrip(to: Address, amount: nat)
    requires FitsWord(amount)
    ensures Render(Erc20Transfer, EncodeArgs(Transfer(to, amount))) == Ok(Text(Transfer(to, amount)))
  {
    var d := AddressWord(to) + UintWord(amount);
    assert d[0..32] == AddressWord(to);
    AddressRoundTrip(d, 0, to);
    assert d[32..64] == UintWord(amount);
    UintRoundTrip(d, 32, amount);
  }

  lemma NftTransferRoundTrip(from: Address, to: Address, id: nat)
    requires FitsWord(id)
    ensures Render(Erc721SafeTransfer, EncodeArgs(NftTransfer(from, to, id)))
         == Ok(Text(NftTransfer(from, to, id)))
  {
    var d := AddressWord(from) + AddressWord(to) + UintWord(id);
    assert d[0..32] == AddressWord(from);
    AddressRoundTrip(d, 0, from);
    assert d[32..64] == AddressWord(to);
    AddressRoundTrip(d, 32, to);
    assert d[64..96] == UintWord(id);
    UintRoundTrip(d, 64, id);
  }

  lemma MultiTransferRoundTrip(from: Address, to: Address, id: nat, amount: nat)
    requires FitsWord(id) && FitsWord(amount)
    ensures Render(Erc1155SafeTransfer, EncodeArgs(MultiTransfer(from, to, id, amount)))
         == Ok(Text(MultiTransfer(from, to, id, amount)))
  {
    var d := AddressWord(from) + AddressWord(to) + UintWord(id) + UintWord(amount);
    assert d[0..32] == AddressWord(from);
    AddressRoundTrip(d, 0, from);
    assert d[32..64] == AddressWord(to);
    AddressRoundTrip(d, 32, to);
    assert d[64..96] == UintWord(id);
    UintRoundTrip(d, 64, id);
    assert d[96..128] == UintWord(amount);
    UintRoundTrip(d, 96, amount);
  }

  lemma BatchRoundTrip(from: Address, to: Address, ids: seq<nat>, amounts: seq<nat>)
    requires Encodable(MultiBatchTransfer(from, to, ids, amounts))
    ensures Render(Erc1155SafeBatchTransfer, EncodeArgs(MultiBatchTransfer(from, to, ids, amounts)))
         == Ok(Text(MultiBatchTransfer(from, to, ids, amounts)))
  {
    var d := EncodeArgs(MultiBatchTransfer(from, to, ids, amounts));
    BatchArgs(from, to, ids, amounts);
    BatchText(d, from, to, ids, amounts);
    RenderBatchCase(d);
  }

  lemma BatchText(d: seq<Byte>, from: Address, to: Address, ids: seq<nat>, amounts: seq<nat>)
    requires ReadAddress(d, 0) == Ok(from) && ReadAddress(d, 32) == Ok(to)
    requires ReadUintArray(d, 64) == Ok(ids) && ReadUintArray(d, 96) == Ok(amounts)
    ensures RenderBatchTransfer(d) == Ok(Text(MultiBatchTransfer(from, to, ids, amounts)))
  {
  }

  lemma RenderBatchCase(d: seq<Byte>)
    ensures Render(Erc1155SafeBatchTransfer, d) == RenderBatchTransfer(d)
  {
  }

  lemma BatchArgs(from: Address, to: Address, ids: seq<nat>, amounts: seq<nat>)
    requires Encodable(MultiBatchTransfer(from, to, ids, amounts))
    ensures var d := EncodeArgs(MultiBatchTransfer(from, to, ids, amounts));
            ReadAddress(d, 0) == Ok(from) && ReadAddress(d, 32) == Ok(to)
            && ReadUintArray(d, 64) == Ok(ids) && ReadUintArray(d, 96) == Ok(amounts)
  {
    var t1 := UintArrayTail(ids);
    var t2 := UintArrayTail(amounts);
    var head := AddressWord(from) + AddressWord(to) + UintWord(128) + UintWord(128 + |t1|);
    var d := EncodeArgs(MultiBatchTransfer(from, to, ids, amounts));
    Parts3(head, t1, t2);
    assert BatchLaidOut(d, 128, from, to, ids, amounts);
    BatchAddresses(d, 128, from, to, ids, amounts);
    BatchIds(d, 128, from, to, ids, amounts);
    BatchAmounts(d, 128, from, to, ids, amounts);
  }

  /** The head and the two tails of a batch transfer in place in `d`; the first offset `o`
      is passed in rather than written out. */
  ghost predicate BatchLaidOut(d: seq<Byte>, o: nat, from: Address, to: Address, ids: seq<nat>, amounts: seq<nat>) {
    o == 128 && AllFit(ids) && AllFit(amounts)
    && 128 + |UintArrayTail(ids)| + |UintArrayTail(amounts)| < WordRange
    && 128 + |UintArrayTail(ids)| + |UintArrayTail(amounts)| <= |d|
    && d[..128] == AddressWord(from) + AddressWord(to) + UintWord(o) + UintWord(128 + |UintArrayTail(ids)|)
    && d[128..128 + |UintArrayTail(ids)|] == UintArrayTail(ids)
    && d[128 + |UintArrayTail(ids)|..128 + |UintArrayTail(ids)| + |UintArrayTail(amounts)|]
       == UintArrayTail(amounts)
  }

  lemma BatchAddresses(d: seq<Byte>, o: nat, from: Address, to: Address, ids: seq<nat>, amounts: seq<nat>)
    requires BatchLaidOut(d, o, from, to, ids, amounts)
    ensures ReadAddress(d, 0) == Ok(from) && ReadAddress(d, 32) == Ok(to)
  {
    BatchHead(d, from, to, o, 128 + |UintArrayTail(ids)|);
  }

  lemma BatchIds(d: seq<Byte>, o: nat, from: Address, to: Address, ids: seq<nat>, amounts: seq<nat>)
    requires BatchLaidOut(d, o, from, to, ids, amounts)
    ensures ReadUintArray(d, 64) == Ok(ids)
  {
    BatchHead(d, from, to, o, 128 + |UintArrayTail(ids)|);
    ArrayAt(d, 64, 128, ids);
  }

  lemma BatchAmounts(d: seq<Byte>, o: nat, from: Address, to: Address, ids: seq<nat>, amounts: seq<nat>)
    requires BatchLaidOut(d, o, from, to, ids, amounts)
    ensures ReadUintArray(d, 96) == Ok(amounts)
  {
    var off2 := 128 + |UintArrayTail(ids)|;
    BatchHead(d, from, to, o, off2);
    ArrayAt(d, 96, off2, amounts);
  }

  /** A `uint256[]` argument read back through the offset in its head slot. */
  lemma ArrayAt(d: seq<Byte>, slot: nat, start: nat, ns: seq<nat>)
    requires AllFit(ns) && start + |UintArrayTail(ns)| < WordRange
    requires start + |UintArrayTail(ns)| <= |d|
    requires d[start..start + |UintArrayTail(ns)|] == UintArrayTail(ns)
    requires ReadUint(d, slot) == Ok(start)
    ensures ReadUintArray(d, slot) == Ok(ns)
  {
    UintArrayRoundTrip(d, slot, start, ns);
  }

  /** The four head words of a batch transfer: two addresses and the offsets of the two
      arrays. */
  lemma BatchHead(d: seq<Byte>, from: Address, to: Address, off1: nat, off2: nat)
    requires off1 < WordRange && off2 < WordRange
    requires |d| >= 128 && d[..128] == AddressWord(from) + AddressWord(to) + UintWord(off1) + UintWord(off2)
    ensures ReadAddress(d, 0) == Ok(from) && ReadAddress(d, 32) == Ok(to)
    ensures ReadUint(d, 64) == Ok(off1) && ReadUint(d, 96) == Ok(off2)
  {
    Parts4(AddressWord(from), AddressWord(to), UintWord(off1), UintWord(off2));
    Within(d, 128, 0, 32);
    AddressRoundTrip(d, 0, from);
    Within(d, 128, 32, 64);
    AddressRoundTrip(d, 32, to);
    Within(d, 128, 64, 96);
    UintRoundTrip(d, 64, off1);
    Within(d, 128, 96, 128);
    UintRoundTrip(d, 96, off2);
  }

  lemma MintWithUrlRoundTrip(to: Address, url: string)
    requires Encodable(MintWithUrl(to, url))
    ensures Render(Erc721MintWithUrl, EncodeArgs(MintWithUrl(to, url))) == Ok(Text(MintWithUrl(to, url)))
  {
    MintWithUrlArgs(to, url);
    MintWithUrlRendered(EncodeArgs(MintWithUrl(to, url)), to, url);
  }

  lemma MintWithUrlRendered(d: seq<Byte>, to: Address, url: string)
    requires ReadAddress(d, 0) == Ok(to) && ReadText(d, 32) == Ok(url)
    ensures Render(Erc721MintWithUrl, d) == Ok(Text(MintWithUrl(to, url)))
  {
  }

  lemma MintWithUrlArgs(to: Address, url: string)
    requires Encodable(MintWithUrl(to, url))
    ensures var d := EncodeArgs(MintWithUrl(to, url));
            ReadAddress(d, 0) == Ok(to) && ReadText(d, 32) == Ok(url)
  {
    var b := Utf8.Encode(url);
    var a := AddressWord(to);
    var d := EncodeArgs(MintWithUrl(to, url));
    Parts3(a, UintWord(64), BytesTail(b));
    AddressRoundTrip(d, 0, to);
    BytesAfter(d, a, 64, b);
    UrlRoundTrip(url);
  }

  /** Round trip through the selector switch: the hex of a call is described by its text. */
  lemma DescribeCall(c: Call)
    requires Encodable(c)
    ensures Size(CallHex(c)) > 4
    ensures Describe(SliceTo(CallHex(c), 4), SliceFrom(CallHex(c), 4)) == Some(Ok(Text(c)))
  {
    var s := CallHex(c);
    var sel := SelectorText(KindOf(c));
    var d := Digits(EncodeArgs(c));
    assert |EncodeArgs(c)| >= 32;
    assert s[2..10] == sel[2..];
    assert SliceTo(s, 4) == sel;
    assert s[10..] == d;
    assert SliceFrom(s, 4) == ToHex(EncodeArgs(c));
    LookupOwnSelector(KindOf(c));
    HexRoundTrip(EncodeArgs(c));
    RenderEncoded(c);
  }

  /** `mintTo` and `mint` are described alike, whatever the data. */
  lemma MintSelectorsAgree(data: string)
    ensures Describe(SelectorText(Erc721MintTo), data) == Describe(SelectorText(Erc721Mint), data)
  {
    LookupOwnSelector(Erc721MintTo);
    LookupOwnSelector(Erc721Mint);
    MintRendersAlike(data);
  }

  lemma MintRendersAlike(data: string)
    ensures Decode(Erc721MintTo, data) == Decode(Erc721Mint, data)
  {
  }

  /** The sender of a single transfer is decoded but never shown: two calls that differ only
      in it read alike. */
  lemma SenderNotShown(d1: seq<Byte>, d2: seq<Byte>, k: Kind)
    requires k == Erc721SafeTransfer || k == Erc1155SafeTransfer
    requires |d1| == |d2| >= 32 && d1[32..] == d2[32..]
    ensures Render(k, d1) == Render(k, d2)
  {
    assert ReadWord(d1, 32) == ReadWord(d2, 32) by { SameWord(d1, d2, 32); }
    assert ReadWord(d1, 64) == ReadWord(d2, 64) by { SameWord(d1, d2, 64); }
    assert ReadWord(d1, 96) == ReadWord(d2, 96) by { SameWord(d1, d2, 96); }
  }

  lemma SameWord(d1: seq<Byte>, d2: seq<Byte>, p: nat)
    requires |d1| == |d2| >= 32 && d1[32..] == d2[32..] && p >= 32
    ensures ReadWord(d1, p) == ReadWord(d2, p)
  {
    if p + 32 <= |d1| {
      assert d1[p..p + 32] == d1[32..][p - 32..p];
      assert d2[p..p + 32] == d2[32..][p - 32..p];
    }
  }
}
