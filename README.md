# Cartesi rollups console: a Dafny model

This project models the browser console of a Cartesi rollups application (frontend-web-cartesi-v2-rpc).
The console is written in React and TypeScript. The model covers what its panels compute and which requests they send:

- **Inputs.** The Input panel builds the payload that `addInput` sends, the EIP-712 message that `addPaioInput` signs, and `createSigObj`. Its four ethers deposits are modelled, along with the ERC-1155 batch builder.
- **Deposits.** The Portals panel makes the viem deposits of Ether, ERC-20, ERC-721 and ERC-1155 tokens: an approval when one is needed, then the deposit.
- **Output tables.** The Notices, Vouchers, Delegate-call Vouchers and Reports panels read the rollups node's GraphQL API. They decode each output's ABI-encoded payload into a table cell and sort the rows.
- **Outputs panel.** It describes outputs listed over JSON-RPC, offers an Execute or Validate button per output, and keeps a filter that is sent with each listing request.
- **GraphQL helpers.** `src/utils/graphql.ts` builds the URL and turns query answers into records.

The chain, the wallet and the node are not called. Each action becomes the sequence of requests it sends: `Read`, `Simulate`, `Write` and `WaitForReceipt`, from module `Chain`. Each request's answer comes from an environment parameter, which is either a value or a thrown error. A panel's state becomes a class whose methods update the fields the component keeps in React state. These are `Outputs.RpcFilter`, `Outputs.OutputsPanel`, `Notices.NoticePanel`, `VoucherExecution.ExecutionPanel`, `Erc1155Batch.Batch` and `Input.TypedData`. Each method is proved equal to a function of the old state and the environment. Lemmas state what that function means.

The libraries the console calls are modelled as far as the panels rely on them:

- viem's `size`, `slice`, `hexToBytes`, `bytesToHex`, `decodeFunctionData` and `decodeAbiParameters`;
- `TextDecoder`, in its fatal and its replacing forms;
- ethers' `toUtf8Bytes` and `arrayify`;
- JavaScript's `parseInt(x, 16)`, `substring`, `join` and `Array.prototype.sort`.

UTF-8 follows RFC 3629 sections 3 and 4. ABI decoding follows the Solidity Contract ABI Specification's layout of static words and dynamic tails.

The tables' comparators `(b, a) => b.index - a.index` sort in ascending order of index. `Sorting.AscendingExample` shows the order on a concrete list.

## Model

| member | source | states |
|---|---|---|
| Sorting.SortBySorted | src/Notices.tsx:79-81 | The sorted table is in ascending order of the key. |
| Sorting.SortByPermutes | src/Notices.tsx:79-81 | The sorted table holds the same rows, none lost and none repeated. |
| Sorting.SortBySortedInput | src/DelegatedCallVouchers.tsx:139 | Rows already in order are left as they are, as a stable sort must. |
| Sorting.AscendingExample | src/Vouchers.tsx:142 | Indices 5, 2, 9 are shown as 2, 5, 9. |
| Hex.HexRoundTrip | src/Notices.tsx:64-66 | `hexToBytes` of `bytesToHex(b)` gives back `b`. |
| Hex.DigitsOfPairs | src/Input.tsx:51 | Writing back bytes read from an even count of digits gives the lower-cased digits. |
| Hex.CanonicalHex | src/Vouchers.tsx:60-61 | A `0x` string of an even number of lower-case digits is the hex of its own bytes. |
| Hex.SizeCountsBytes | src/Outputs.tsx:19-28 | viem's `size` of a `0x` payload that converts is the number of bytes it converts to. |
| Hex.SizeOfHex | src/Outputs.tsx:19-28 | `size` of the hex of some bytes is their number. |
| Hex.HexToBytes | src/Notices.tsx:64-66 | Succeeds exactly when every character after the first two is a hex digit, giving half the padded digit count in bytes. |
| Hex.PairsToBytes | src/Input.tsx:51 | Succeeds exactly when every character is a hex digit, giving one byte per pair. |
| Abi.ReadWord | src/Vouchers.tsx:65-69 | A word is read exactly when 32 bytes remain at the position, and it is those bytes. |
| Abi.ReadUints | src/Vouchers.tsx:92-97 | `count` words are read exactly when they all fit, one number per word. |
| Abi.UintRoundTrip | src/Vouchers.tsx:65-69 | A `uint256` reads back from the word that encodes it. |
| Abi.AddressRoundTrip | src/Vouchers.tsx:65-69 | An address reads back from the word that encodes it. |
| Abi.UintArrayRoundTrip | src/Vouchers.tsx:92-97 | A `uint256[]` reads back through the offset in its head slot. |
| Abi.BytesRoundTrip | src/Vouchers.tsx:56-59 | A `bytes` argument reads back through the offset in its head slot. |
| Abi.BigEndianRoundTrip | src/Vouchers.tsx:65-69 | Big-endian bytes of a number that fits read back as that number. |
| Utf8.DecodeEncode | src/Input.tsx:49 | The UTF-8 bytes of a string decode back to it, strictly and lossily, unless the string starts with a byte-order mark. |
| Utf8.DecodeEncodeRaw | src/Input.tsx:49 | Strict decoding inverts encoding, with no byte-order-mark handling. |
| Utf8.LossyAgreesWithStrict | src/Reports.tsx:55-59 | Where the fatal decoder succeeds, the replacing decoder gives the same text. |
| Utf8.LossyMarksIllFormed | src/Reports.tsx:55-59 | Ill-formed bytes always decode to a text holding U+FFFD. |
| Utf8.StepEncodeChar | src/Notices.tsx:63-66 | The decoder reads one encoded scalar value back as itself, whatever follows. |
| Utf8.BomOnlyFromFeff | src/Notices.tsx:63-66 | Only an encoded U+FEFF starts with the byte-order mark. |
| Decimal.RenderValue | src/Vouchers.tsx:68 | The decimal numeral of a number reads back as that number. |
| Decimal.RenderInjective | src/Vouchers.tsx:68 | Distinct numbers are shown differently. |
| Decimal.JoinSplit | src/Portals.tsx:307-308 | Cutting a comma-joined list at its commas gives the list back, when no item holds a comma. |
| Decimal.RenderIntInjective | src/Input.tsx:136 | Distinct integers are shown as distinct texts, `-` first when negative. |
| Decimal.NoCommaInNumeral | src/Input.tsx:387-388 | A numeral holds no comma. |
| VoucherCalls.LookupSelector | src/Vouchers.tsx:63 | A selector lands in a case exactly when its lower-cased form is that case's selector. |
| VoucherCalls.LookupOwnSelector | src/Vouchers.tsx:63-125 | Each case's selector lands in that case. |
| VoucherCalls.SelectorsDistinct | src/Outputs.tsx:30-82 | No two cases share a selector. |
| VoucherCalls.RenderEncoded | src/Vouchers.tsx:64-124 | Each token call the ABI can carry is described by the text the console gives for it. |
| VoucherCalls.TransferRoundTrip | src/Vouchers.tsx:64-71 | An ERC-20 transfer is shown by its amount and receiver. |
| VoucherCalls.NftTransferRoundTrip | src/Vouchers.tsx:73-80 | An ERC-721 safe transfer is shown by its id and receiver. |
| VoucherCalls.MultiTransferRoundTrip | src/Vouchers.tsx:82-89 | An ERC-1155 single transfer is shown by its id, amount and receiver. |
| VoucherCalls.BatchRoundTrip | src/Vouchers.tsx:91-98 | An ERC-1155 batch transfer is shown by its id and amount lists and receiver. |
| VoucherCalls.MintWithUrlRoundTrip | src/Vouchers.tsx:100-107 | A mint with URL is shown by its URL and receiver. |
| VoucherCalls.UrlRoundTrip | src/Vouchers.tsx:100-107 | A URL encoded as an ABI `string` decodes back to itself. |
| VoucherCalls.DescribeCall | src/Vouchers.tsx:60-125 | The hex of a call, split at its selector and passed through the switch, gives the call's text. |
| VoucherCalls.MintSelectorsAgree | src/Vouchers.tsx:109-125 | `mintTo` and `mint` are described alike, whatever their data. |
| VoucherCalls.SenderNotShown | src/Vouchers.tsx:73-89 | Two calls that differ only in the sender word are described alike. |
| VoucherCalls.CallHexCanonical | src/Vouchers.tsx:56-61 | The hex of a call is the hex of its own bytes, as a decoded `bytes` argument gives it. |
| OutputCalls.DecodeEncode | src/Vouchers.tsx:56-59 | `decodeFunctionData` recovers the notice, voucher or delegate-call voucher a payload encodes. |
| OutputCalls.DecodeNotice | src/Notices.tsx:58-61 | A payload whose selector is `Notice`'s, and whose argument bytes hold a `bytes` value, decodes to that notice. |
| OutputCalls.DecodeVoucher | src/Vouchers.tsx:56-59 | A payload whose selector is `Voucher`'s decodes to the destination, value and payload its argument bytes hold. |
| OutputCalls.DecodeDelegateCallVoucher | src/DelegatedCallVouchers.tsx:54-57 | A payload whose selector is `DelegateCallVoucher`'s decodes to the destination and payload its argument bytes hold. |
| OutputCalls.UpperCaseSelectorNotFound | src/Notices.tsx:58-61 | An output selector in upper-case digits is not found, so decoding throws. |
| OutputCalls.DescribeArg | src/Vouchers.tsx:60-129 | A selector outside the table shows the argument's text marked " (hex)". |
| OutputCalls.DescribeNonCall | src/Vouchers.tsx:60-61 | A missing argument, a number, or one too short to hold a call is shown as its text marked " (hex)". |
| OutputCalls.DescribeMissing | src/DelegatedCallVouchers.tsx:58-59 | A missing argument is shown as "undefined (hex)". |
| OutputCalls.DescribeCallArg | src/Vouchers.tsx:60-125 | A token call carried in an argument is described by its text. |
| PayloadText.EmptyOnlyWhenAbsent | src/Vouchers.tsx:48-53 | A voucher's input payload shows "(empty)" exactly when it is absent. |
| PayloadText.MarkedHexInjective | src/Vouchers.tsx:48-53 | Distinct input payloads are shown differently, so the cell gives back its hex. |
| PayloadText.DecodedOrEmptyOfText | src/Reports.tsx:42-61 | A payload that is the UTF-8 of some text shows that text, the empty text included; "(empty)" only for an absent payload. |
| PayloadText.StrictHexDecodes | src/Notices.tsx:64-65 | Every strict hex string has bytes. |
| PayloadText.StrictTextOfText | src/Notices.tsx:63-69 | Text sent as hex is shown as itself by the notices' fatal decoding. |
| PayloadText.LossyTextOfText | src/Reports.tsx:52-58 | Text sent as hex is shown as itself by `fromHex(p, 'string')`. |
| PayloadText.StrictAndLossyAgree | src/Notices.tsx:44-69 | Where fatal decoding succeeds the replacing one agrees; where it fails the replacing one shows U+FFFD. |
| Chain.Transact | src/Portals.tsx:55-67 | A transaction is a prefix of simulate, write, wait. It stops at the first throw and succeeds exactly when all three answer. |
| Chain.TransactSteps | src/Portals.tsx:55-67 | A transaction opens with its simulation and touches only its own function. Its write is sent exactly when the simulation answered. It succeeds exactly when all three steps answered, and then it made exactly those three requests. |
| Chain.OrderedJoin | src/Portals.tsx:97-124 | Ordered requests followed by ordered requests that open with a request needing nothing before it stay ordered. |
| Chain.WriteAfterSimulation | src/Portals.tsx:55-67 | A write is sent only after its simulation answered. |
| Graphql.GraphqlUrl | src/utils/graphql.ts:31-47 | A URL is given exactly when the chain has a non-empty configured base URL. |
| Graphql.GraphqlUrlShape | src/utils/graphql.ts:35-36 | The URL is the base, `/graphql/` and the address text, and two URLs are equal exactly when the address texts are. |
| Graphql.Nodes | src/utils/graphql.ts:91-94 | The records are exactly the non-null edges' nodes. |
| Graphql.NodesAppend | src/utils/graphql.ts:91-94 | Dropping null edges keeps the order of the records. |
| Graphql.NodesAllPresent | src/utils/graphql.ts:138-141 | A response without null edges gives one record per edge, in order. |
| Graphql.ReportsLikeOthers | src/utils/graphql.ts:60-73 | Reports are listed like the other outputs, except that a field without edges throws. |
| Graphql.DelegatedCallVouchersAsWrittenEmpty | src/utils/graphql.ts:155-166 | As written, the single-record document is sent, so the list read back is always empty. |
| Graphql.DelegatedCallVouchersListed | src/utils/graphql.ts:155-166 | With the list document, every record of the answer is listed, in order. |
| Graphql.PanelErrorMeaning | src/Vouchers.tsx:21-30 | A panel fetches exactly when a chain is selected and has a URL; with no chain it shows "No connected chain". |
| Outputs.InferEmptyIffShort | src/Outputs.tsx:18-96 | A voucher payload reads "(empty)" exactly when it holds no more than a selector. |
| Outputs.InferUnknownSelector | src/Outputs.tsx:90-92 | A selector outside the table shows the payload marked " (hex)". |
| Outputs.InferCall | src/Outputs.tsx:29-89 | A voucher carrying a token call is described by that call's text. |
| Outputs.InferAgreesWithVoucherPanel | src/Outputs.tsx:18-92 | For a payload of more than four bytes, the Outputs panel and the Vouchers panel give the same description. |
| Outputs.ShortPayloadDiffers | src/Outputs.tsx:28-95 | On a payload of at most four bytes, Outputs shows "(empty)" where the voucher panels show the payload marked " (hex)". |
| Outputs.RenderStartsWithName | src/Outputs.tsx:30-89 | No description starts like "(empty)". |
| Outputs.NoticeRowShowsText | src/Outputs.tsx:373-380 | A notice row whose payload is UTF-8 text shows that text, whatever the case of its type. |
| Outputs.OtherRowsUnknown | src/Outputs.tsx:381-382 | A row of any other type, delegate-call vouchers included, shows "unknown". |
| Outputs.ButtonMeaning | src/Outputs.tsx:239-272 | A button is enabled exactly when it offers an action, and it says "Not Ready" exactly when the epoch is past the last accepted one. |
| Outputs.ExecutedStaysDisabled | src/Outputs.tsx:246-249 | An executed voucher's button is always disabled. |
| Outputs.ButtonKinds | src/Outputs.tsx:245-271 | Only vouchers, delegate-call vouchers and notices get a button. |
| Outputs.ShownKeysDistinct | src/Outputs.tsx:280-322 | No two filter boxes show the same key. |
| Outputs.OffsetOverwritesLimit | src/Outputs.tsx:291 | As written, typing in Offset replaces the limit and leaves the offset unset. |
| Outputs.TypingSetsOneBox | src/Outputs.tsx:280-322 | As intended, typing in a box sets what that box shows and nothing any other box shows. |
| Outputs.RpcFilter.HandleFilterChange | src/Outputs.tsx:175-177 | The filter gains or replaces one key and keeps the rest. |
| Outputs.RpcFilter.OnFieldChangeAsWritten | src/Outputs.tsx:280-322 | As written, the Offset box sets what the Limit box shows and leaves its own box unchanged; every other box sets its own key only. |
| Outputs.RpcFilter.OnFieldChange | src/Outputs.tsx:280-322 | As intended, a box's change updates that box's key only. |
| Outputs.ValidateMeaning | src/Outputs.tsx:179-204 | The node is asked exactly when a chain and an application are selected and a client can be had; the message says what it answered. |
| Outputs.ExecuteMeaning | src/Outputs.tsx:206-237 | Execution is requested only with a wallet account; the message says what the node answered. |
| Outputs.OutputsPanel.ValidateOutput | src/Outputs.tsx:179-204 | The message and the requests are those of the validation outcome. |
| Outputs.OutputsPanel.ExecuteOutput | src/Outputs.tsx:206-237 | The message and the requests are those of the execution outcome. |
| Vouchers.TableOrdered | src/Vouchers.tsx:41-142 | The table holds one row per voucher in ascending order of index, and it is there exactly when every payload decodes. |
| Vouchers.VoucherShowsCall | src/Vouchers.tsx:54-125 | A voucher carrying a token call shows that call's description. |
| Vouchers.VoucherShowsOtherPayload | src/Vouchers.tsx:126-129 | A voucher carrying any other payload shows that payload's hex marked " (hex)". |
| Vouchers.OtherOutputsShowUndefined | src/Vouchers.tsx:56-61 | A notice or delegate-call voucher read as a voucher shows "undefined (hex)". |
| VoucherExecution.ExecuteNeedsProof | src/Vouchers.tsx:169-177 | Nothing is sent for a voucher without payload or sibling hashes, and each such case has its own message. |
| VoucherExecution.ExecutedMeansConfirmed | src/Vouchers.tsx:187-204 | A voucher is marked executed exactly when its simulation, transaction and receipt all answered. |
| VoucherExecution.FailureShowsShortMessage | src/Vouchers.tsx:205-210 | A failed transaction leaves the voucher as it was and shows the error's short message. |
| VoucherExecution.LoadMeaning | src/Vouchers.tsx:144-165 | The voucher shown is marked executed, or not, exactly as the chain answered. |
| VoucherExecution.ButtonMeaning | src/Vouchers.tsx:237 | The button is enabled exactly when it offers execution, and a voucher known to be executed cannot be executed again. |
| VoucherExecution.EnabledWithoutSiblings | src/Vouchers.tsx:237 | The button checks only that a proof exists, so it is enabled for a proof with no siblings, and pressing it then sends nothing. |
| VoucherExecution.ExecutionPanel.LoadVoucher | src/Vouchers.tsx:144-165 | The voucher shown, its executed flag and the requests are those of the load outcome. |
| VoucherExecution.ExecutionPanel.ExecuteVoucher | src/Vouchers.tsx:169-213 | The message, the executed flag and the requests are those of the execution outcome. |
| DelegatedCallVouchers.AsWrittenShowsUndefined | src/DelegatedCallVouchers.tsx:58-59 | As written, every delegate-call voucher shows "undefined (hex)". |
| DelegatedCallVouchers.ShowsPayloadLikeVoucher | src/DelegatedCallVouchers.tsx:58-128 | Read from its payload argument, a delegate-call voucher is described as a voucher with the same payload. |
| DelegatedCallVouchers.ShowsCall | src/DelegatedCallVouchers.tsx:61-123 | Read from its payload argument, a delegate-call voucher carrying a token call shows that call. |
| DelegatedCallVouchers.TableAsWrittenOrdered | src/DelegatedCallVouchers.tsx:44-139 | As written, with cells read from `args[2]`: one row per record, in ascending order of index, there exactly when every payload cell is. |
| DelegatedCallVouchers.AsWrittenRowUndefined | src/DelegatedCallVouchers.tsx:52-128 | As written, the row of an encoded delegate-call voucher shows "undefined (hex)" as its payload. |
| DelegatedCallVouchers.TableOrdered | src/DelegatedCallVouchers.tsx:44-139 | As intended, with cells read from `args[1]`: one row per record, in ascending order of index, there exactly when every payload decodes. |
| Notices.TableOrdered | src/Notices.tsx:41-81 | One row per notice, in ascending order of index, there exactly when every payload decodes. |
| Notices.NoticeShowsText | src/Notices.tsx:55-69 | A notice carrying UTF-8 text shows that text. |
| Notices.NoticeShowsBinary | src/Notices.tsx:66-69 | A notice whose bytes are not UTF-8 shows its hex marked " (hex)". |
| Notices.ValidateMeaning | src/Notices.tsx:95-128 | The contract is asked only about a notice with a payload and sibling hashes; the message says what it answered. |
| Notices.ButtonMeaning | src/Notices.tsx:149 | The button is enabled exactly when it offers validation, even for a proof without siblings. |
| Notices.NoticePanel.LoadNotice | src/Notices.tsx:83-92 | With a URL, the notice found is shown and the message is cleared; without one, nothing changes. |
| Notices.NoticePanel.ValidateNotice | src/Notices.tsx:95-128 | The message and the requests are those of the validation outcome. |
| Reports.TableMeaning | src/Reports.tsx:40-97 | The table is there exactly when every report has an input with an id, and it then holds the rows sorted. |
| Reports.SameRows | src/Reports.tsx:67-73 | Sorting does not change whether every row has an input. |
| Reports.LoneReportWithoutInput | src/Reports.tsx:67-97 | A single report without an input gets through the sort and throws only when drawn. |
| Reports.ReportShowsText | src/Reports.tsx:52-58 | A report whose payload is UTF-8 text shows that text. |
| Reports.ReportsUrl | src/Reports.tsx:22 | The panel reads from `/graphql/undefined`. |
| Erc1155Batch.EntriesOfBracketed | src/Portals.tsx:300-309 | A bracketed list of non-empty, comma-free entries reads back as itself. |
| Erc1155Batch.EmptyEntryHidden | src/Portals.tsx:307-308 | A batch of one empty id looks the same as an empty batch. |
| Erc1155Batch.Batch.Add | src/Portals.tsx:300-309 | Both lists grow by the entry and both texts show their lists. |
| Erc1155Batch.Batch.Clear | src/Portals.tsx:311-316 | Both lists are empty and both texts read "[]". |
| Input.SigOfBytes | src/Input.tsx:131-138 | A 65-byte signature, with or without "0x", gives the hex of r and s and a parity of v - 27. |
| Input.SigIgnoresPrefix | src/Input.tsx:132 | Removing one leading "0x" makes prefixed and unprefixed signatures split alike. |
| Input.UsualParities | src/Input.tsx:131-138 | v of 27 or 28 gives yParity "0x0" or "0x1". |
| Input.ShortSignatureNaN | src/Input.tsx:135-136 | A signature with no v has yParity "0xNaN". |
| Input.ParseByte | src/Input.tsx:136 | `parseInt` of a byte's two hex digits gives the byte. |
| Input.TextInputRoundTrip | src/Input.tsx:46-58 | Text sent as text decodes back to itself. |
| Input.HexInputMeaning | src/Input.tsx:49-52 | Raw hex is sent exactly when it is an even number of hex digits. Otherwise it fails with the invalid-hex error, then the odd-length one. Sent bytes re-read as the lower-cased text. |
| Input.HexInputOfBytes | src/Input.tsx:49-52 | The hex of any bytes sends exactly those bytes. |
| Input.PaioMessageMeaning | src/Input.tsx:179-192 | The message names an application, the namespace when given; hex data round-trips and text is kept. |
| Input.TypedData.AddPaioInput | src/Input.tsx:170-192 | With the contracts at hand, the account and message are filled; otherwise nothing changes. |
| Input.SendDeposit | src/Input.tsx:241-379 | The requests are those of the ethers deposit. |
| Input.DepositMeaning | src/Input.tsx:241-379 | An approval is sent exactly when the read answered and called for one. The deposit is sent exactly when every earlier step succeeded. |
| Input.Erc1155ApprovesOnlyWhenNotApproved | src/Input.tsx:331 | ERC-1155 approval is requested only for an account that has not approved the portal. |
| Decimal.DigitsOrder | src/Input.tsx:254 | On digit strings of one length, JavaScript's string `>` agrees with the numbers they spell. |
| Decimal.TextOrderOfSameLength | src/Input.tsx:254 | Numerals of the same length compare as text as their numbers do. |
| Input.Erc20AsWrittenSameLength | src/Input.tsx:254 | The ERC-20 test as written, on decimal texts, is the numeric test when amount and allowance have equally many digits. |
| Input.Erc20ComparedAsText | src/Input.tsx:254 | As written, 10 ether against an allowance of 9 ether is not approved, and 2 ether against 10 ether is. |
| Input.Erc20ShortAllowanceSkipped | src/Input.tsx:252-264 | As written, depositing 10 ether against an allowance of 9 ether sends the deposit with no approval before it; as intended, the approval is sent. |
| Input.AddToBatch | src/Input.tsx:381-390 | The numeric batch grows by the numerals of the id and amount. |
| Input.NumbersReadBack | src/Input.tsx:381-390 | A batch of integers reads back as their numerals. |
| Portals.DecisionsAgreeWithInput | src/Portals.tsx:95 | Both panels decide ERC-721 approvals alike. This panel's ERC-20 test is the Input panel's as intended; the Input panel as written agrees when amount and allowance have equally many digits and disagrees on 10 ether against 9. On ERC-1155 they disagree for every answer as written, and the corrected decision agrees. |
| Portals.Erc1155NeedsApproval | src/Portals.tsx:207 | Approval is needed exactly when the portal is not yet an operator. |
| Portals.SendTransaction | src/Portals.tsx:55-67 | The requests and the failure flag are those of one transaction. |
| Portals.SendDeposit | src/Portals.tsx:74-298 | The requests are those of the deposit. |
| Portals.DepositMeaning | src/Portals.tsx:74-298 | Nothing is sent without a signer. The approval is simulated exactly when needed and the read answered. The deposit is written exactly when all earlier steps succeeded, and after the approval. |
| Portals.EachWriteSimulated | src/Portals.tsx:97-124 | Every write follows its answered simulation, and every wait follows its answered write. |
| Portals.Erc1155ApprovalInverted | src/Portals.tsx:207 | As written, `setApprovalForAll` is sent exactly when already approved; corrected, exactly when not. |
| Portals.Erc20ApprovesOnlyWhenShort | src/Portals.tsx:95 | An ERC-20 approval only when the allowance is below the value. |
| Portals.Erc721ApprovesOnlyWhenNotPortal | src/Portals.tsx:150 | An ERC-721 approval only when the approved address is not the portal. |
| Portals.EtherIsOneTransaction | src/Portals.tsx:41-72 | An Ether deposit is exactly one transaction, or nothing without a signer. |

## Left out

- Network access, React rendering, hooks, effects and re-render timing: each action is a function of its inputs and of the answers in an environment parameter.
- The messages of thrown errors beyond viem's `shortMessage` and the `walk()` cause: other errors leave no message.
- EIP-55 checksum casing of addresses: keccak-256 is not modelled, so addresses are shown in lower case.
- `formatEther`, `parseEther` and `parseUnits`, and the Outputs panel's value column: amounts are whole numbers.
- The EIP-712 signature request, the nonce fetch and the submission to the paio endpoint in `addPaioInput`: these are network calls.
- The data strings attached to deposits.
- Input's Ether deposit: it is a single write that is not awaited.
- Input.AddToBatch: does not model JavaScript numbers that are not integers, or are 1e21 or more, whose text is not a plain decimal numeral.
- Erc1155Batch.Batch.Add: does not model that the pushed arrays are the same objects as the previous state, which React may not redraw.
- The fetching in `reloadOutputs` and the node's JSON-RPC answer: the Outputs panel's rows are parameters.
- Graphql.GraphqlUrl: the check for an empty URL at src/utils/graphql.ts:42-44 never fires, since a built URL always holds `/graphql/`.
- Strings are sequences of Unicode scalar values. JavaScript strings are UTF-16: `substring` and `length` count code units there, and lone surrogates, on which ethers' `toUtf8Bytes` throws, are not modelled.
- Graphql.DelegatedCallVouchersAsWrittenEmpty: takes the server to answer the single-record document sent without its `$outputIndex`; a server that rejects it makes `request` throw, which is not modelled.
- Graphql.GetOne: the single-record getters are only read, with no property beyond returning the record or nothing.
- src/Network.tsx, src/Inspect.tsx, src/App.tsx and wagmi.config.ts are not part of this model.

## Findings

| source | as written | input that shows it | evidently intended | confidence | as-written member | corrected member |
|---|---|---|---|---|---|---|
| src/Portals.tsx:207 | ERC-1155 deposits call `setApprovalForAll` when `isApprovedForAll` is true (also at line 264) | An account that already approved the portal is asked to approve again; for one that has not, the deposit's simulation reverts, so no deposit is written | Approve when not yet approved, as src/Input.tsx:331 does | high, not executed | Portals.Erc1155NeedsApprovalAsWritten | Portals.Erc1155NeedsApproval |
| src/Outputs.tsx:291 | The Offset box writes the key "limit" | Typing 10 in Offset sets limit to 10 and leaves offset unset | Write the key "offset", which the box shows | high, not executed | Outputs.WrittenKeyAsWritten | Outputs.WrittenKey |
| src/DelegatedCallVouchers.tsx:58-59 | The payload cell reads `args[2]` of a two-argument `DelegateCallVoucher` call | Any delegate-call voucher shows "undefined (hex)" | Read `args[1]`, the payload | high, not executed | DelegatedCallVouchers.PayloadCellAsWritten | DelegatedCallVouchers.PayloadCell |
| src/utils/graphql.ts:158 | `getDelegatedCallVouchers` sends the single-record document | An answer to it has no list field, so the table is always empty; a server that rejects the missing `$outputIndex` makes the request throw instead, and the panel keeps loading | Send the list document | medium, not executed | Graphql.DelegatedCallVouchersDocumentAsWritten | Graphql.DelegatedCallVouchersDocument |
| src/Input.tsx:254 | `parseEther(...) > currentAllowance` applies `>` to two ethers `BigNumber`s, which JavaScript compares as decimal texts | Depositing 10 ether with an allowance of 9 ether: "10000000000000000000" sorts before "9000000000000000000", so no approval is sent and the deposit is refused | Compare the amounts as numbers, with `gt` | high, not executed | Input.Erc20NeedsApprovalAsWritten | Input.Erc20NeedsApproval |
