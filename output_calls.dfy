/** The three outputs a Cartesi application emits, as ABI-encoded calls of the rollups
    `Outputs` interface: `Notice(bytes)`, `Voucher(address, uint256, bytes)` and
    `DelegateCallVoucher(address, bytes)`. A payload names one of them by its four-byte
    selector and carries its arguments after it. */
module OutputCalls {
  import opened Wrappers
  import opened Hex
  import opened Abi
  import Decimal
  import VoucherCalls

  datatype OutputCall =
    | NoticeCall(payload: seq<Byte>)
    | VoucherCall(destination: Address, value: nat, payload: seq<Byte>)
    | DelegateCallVoucherCall(destination: Address, payload: seq<Byte>)

  function Selector(c: OutputCall): (s: string)
    ensures IsHex(s) && |s| == 10
  {
    match c
    case NoticeCall(_) => "0xc258d6e5"
    case VoucherCall(_, _, _) => "0x237a816f"
    case DelegateCallVoucherCall(_, _) => "0x10321e8b"
  }

  /** The bytes after the selector. viem's `slice(data, 4)` throws when nothing follows the
      selector, and `hexToBytes` throws on a non-digit. */
  function ArgumentBytes(p: string): Result<seq<Byte>> {
    if Size(p) <= 4 then Err(OutOfBounds) else HexToBytes(SliceFrom(p, 4))
  }

  /** viem's `decodeFunctionData` against the `Outputs` ABI. The selector is compared exactly,
      so upper-case hex digits in it are not found. */
  function DecodeOutputCall(p: string): Result<OutputCall> {
    var selector := SliceTo(p, 4);
    if selector == "0xc258d6e5" then
      var d :- ArgumentBytes(p);
      var payload :- ReadBytes(d, 0);
      Ok(NoticeCall(payload))
    else if selector == "0x237a816f" then
      var d :- ArgumentBytes(p);
      var destination :- ReadAddress(d, 0);
      var value :- ReadUint(d, 32);
      var payload :- ReadBytes(d, 64);
      Ok(VoucherCall(destination, value, payload))
    else if selector == "0x10321e8b" then
      var d :- ArgumentBytes(p);
      var destination :- ReadAddress(d, 0);
      var payload :- ReadBytes(d, 32);
      Ok(DelegateCallVoucherCall(destination, payload))
    else Err(SignatureNotFound)
  }

  /** What `args[i]` holds: `bytes` and `address` arguments come back as hex strings, a
      `uint256` as a bigint. */
  datatype ArgValue = HexArg(text: string) | NumberArg(n: nat)

  /** `args[i]`, `None` standing for `undefined` past the last argument. */
  function Arg(c: OutputCall, i: nat): Option<ArgValue> {
    match c
    case NoticeCall(payload) => if i == 0 then Some(HexArg(ToHex(payload))) else None
    case VoucherCall(destination, value, payload) =>
      if i == 0 then Some(HexArg(AddressText(destination)))
      else if i == 1 then Some(NumberArg(value))
      else if i == 2 then Some(HexArg(ToHex(payload)))
      else None
    case DelegateCallVoucherCall(destination, payload) =>
      if i == 0 then Some(HexArg(AddressText(destination)))
      else if i == 1 then Some(HexArg(ToHex(payload)))
      else None
  }

  /** `${args[i]}`. */
  function ArgText(a: Option<ArgValue>): string {
    match a
    case None => "undefined"
    case Some(HexArg(t)) => t
    case Some(NumberArg(n)) => Decimal.Render(n)
  }

  /** The voucher panels' description of the inner call in one argument: selector and data
      are split off only from a hex string of more than four bytes (a bigint has no size);
      a selector outside the table falls back to the argument's text followed by " (hex)". */
  function DescribeArg(a: Option<ArgValue>): (r: Result<string>)
    ensures VoucherCalls.Lookup(InnerSelector(a)).None? ==> r == Ok(ArgText(a) + " (hex)")
  {
    match VoucherCalls.Describe(InnerSelector(a), InnerData(a))
    case None => Ok(ArgText(a) + " (hex)")
    case Some(r) => r
  }

  predicate SplitsCall(a: Option<ArgValue>) {
    a.Some? && a.value.HexArg? && Size(a.value.text) > 4
  }

  function InnerSelector(a: Option<ArgValue>): string {
    if SplitsCall(a) then SliceTo(a.value.text, 4) else ""
  }

  function InnerData(a: Option<ArgValue>): string {
    if SplitsCall(a) then SliceFrom(a.value.text, 4) else "0x"
  }

  /** An argument that is missing, a number, or too short to hold a call is shown as its own
      text followed by " (hex)". */
  lemma DescribeNonCall(a: Option<ArgValue>)
    requires !SplitsCall(a)
    ensures DescribeArg(a) == Ok(ArgText(a) + " (hex)")
  {
    assert VoucherCalls.Lookup("") == None;
  }

  /** A missing argument is shown as "undefined (hex)". */
  lemma DescribeMissing()
    ensures DescribeArg(None) == Ok("undefined (hex)")
  {
    DescribeNonCall(None);
    assert ArgText(None) + " (hex)" == "undefined (hex)";
  }

  /** A token call carried in an argument is described by its text. */
  lemma DescribeCallArg(call: VoucherCalls.Call)
    requires VoucherCalls.Encodable(call)
    ensures DescribeArg(Some(HexArg(VoucherCalls.CallHex(call)))) == Ok(VoucherCalls.Text(call))
  {
    VoucherCalls.DescribeCall(call);
  }

  // ---- Encoding, the partner of DecodeOutputCall ----

  predicate Encodable(c: OutputCall) {
    match c
    case NoticeCall(payload) => 32 + |BytesTail(payload)| < WordRange
    case VoucherCall(_, value, payload) => value < WordRange && 96 + |BytesTail(payload)| < WordRange
    case DelegateCallVoucherCall(_, payload) => 64 + |BytesTail(payload)| < WordRange
  }

  function EncodeArgs(c: OutputCall): (d: seq<Byte>)
    ensures |d| >= WordSize
  {
    match c
    case NoticeCall(payload) => UintWord(32) + BytesTail(payload)
    case VoucherCall(destination, value, payload) =>
      AddressWord(destination) + UintWord(value) + UintWord(96) + BytesTail(payload)
    case DelegateCallVoucherCall(destination, payload) =>
      AddressWord(destination) + UintWord(64) + BytesTail(payload)
  }

  /** The payload of an output, as the node reports it. */
  function Encode(c: OutputCall): (p: string)
    ensures IsHex(p)
  {
    Selector(c) + Digits(EncodeArgs(c))
  }

  lemma SplitEncoded(c: OutputCall)
    ensures Size(Encode(c)) > 4
    ensures SliceTo(Encode(c), 4) == Selector(c)
    ensures SliceFrom(Encode(c), 4) == ToHex(EncodeArgs(c))
  {
    var p := Encode(c);
    assert p[2..10] == Selector(c)[2..];
    assert p[10..] == Digits(EncodeArgs(c));
  }

  lemma NoticeArgs(payload: seq<Byte>)
    requires Encodable(NoticeCall(payload))
    ensures ReadBytes(EncodeArgs(NoticeCall(payload)), 0) == Ok(payload)
  {
    BytesAfter(EncodeArgs(NoticeCall(payload)), [], 32, payload);
  }

  lemma VoucherArgs(destination: Address, value: nat, payload: seq<Byte>)
    requires Encodable(VoucherCall(destination, value, payload))
    ensures var d := EncodeArgs(VoucherCall(destination, value, payload));
            ReadAddress(d, 0) == Ok(destination) && ReadUint(d, 32) == Ok(value)
            && ReadBytes(d, 64) == Ok(payload)
  {
    var a, v := AddressWord(destination), UintWord(value);
    var d := EncodeArgs(VoucherCall(destination, value, payload));
    Parts4(a, v, UintWord(96), BytesTail(payload));
    AddressRoundTrip(d, 0, destination);
    UintRoundTrip(d, 32, value);
    BytesAfter(d, a + v, 96, payload);
  }

  lemma DelegateCallVoucherArgs(destination: Address, payload: seq<Byte>)
    requires Encodable(DelegateCallVoucherCall(destination, payload))
    ensures var d := EncodeArgs(DelegateCallVoucherCall(destination, payload));
            ReadAddress(d, 0) == Ok(destination) && ReadBytes(d, 32) == Ok(payload)
  {
    var a := AddressWord(destination);
    var d := EncodeArgs(DelegateCallVoucherCall(destination, payload));
    Parts3(a, UintWord(64), BytesTail(payload));
    AddressRoundTrip(d, 0, destination);
    BytesAfter(d, a, 64, payload);
  }

  /** Decoding a payload recovers the output it encodes. */
  lemma DecodeEncode(c: OutputCall)
    requires Encodable(c)
    ensures DecodeOutputCall(Encode(c)) == Ok(c)
  {
    var p := Encode(c);
    var d := EncodeArgs(c);
    SplitEncoded(c);
    HexRoundTrip(d);
    assert ArgumentBytes(p) == Ok(d);
    match c
    case NoticeCall(payload) =>
      NoticeArgs(payload);
      DecodeNotice(p, d, payload);
    case VoucherCall(destination, value, payload) =>
      VoucherArgs(destination, value, payload);
      DecodeVoucher(p, d, destination, value, payload);
    case DelegateCallVoucherCall(destination, payload) =>
      DelegateCallVoucherArgs(destination, payload);
      DecodeDelegateCallVoucher(p, d, destination, payload);
  }

  lemma DecodeNotice(p: string, d: seq<Byte>, payload: seq<Byte>)
    requires SliceTo(p, 4) == "0xc258d6e5" && ArgumentBytes(p) == Ok(d)
    requires ReadBytes(d, 0) == Ok(payload)
    ensures DecodeOutputCall(p) == Ok(NoticeCall(payload))
  {
  }

  lemma DecodeVoucher(p: string, d: seq<Byte>, destination: Address, value: nat, payload: seq<Byte>)
    requires SliceTo(p, 4) == "0x237a816f" && ArgumentBytes(p) == Ok(d)
    requires ReadAddress(d, 0) == Ok(destination) && ReadUint(d, 32) == Ok(value)
    requires ReadBytes(d, 64) == Ok(payload)
    ensures DecodeOutputCall(p) == Ok(VoucherCall(destination, value, payload))
  {
  }

  lemma DecodeDelegateCallVoucher(p: string, d: seq<Byte>, destination: Address, payload: seq<Byte>)
    requires SliceTo(p, 4) == "0x10321e8b" && ArgumentBytes(p) == Ok(d)
    requires ReadAddress(d, 0) == Ok(destination) && ReadBytes(d, 32) == Ok(payload)
    ensures DecodeOutputCall(p) == Ok(DelegateCallVoucherCall(destination, payload))
  {
  }

  /** A selector spelled with upper-case digits is not found, though it names a function. */
  lemma UpperCaseSelectorNotFound(rest: string)
    ensures DecodeOutputCall("0xC258D6E5" + rest) == Err(SignatureNotFound)
  {
    var p := "0xC258D6E5" + rest;
    assert p[..2] == "0x";
    assert SliceTo(p, 4)[2] == 'C';
  }
}
