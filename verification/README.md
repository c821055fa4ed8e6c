# Verified models of the marketplace back end

This project models the algorithms and protocols of a construction marketplace's Go back end in
Dafny and proves what they promise. To check them all, run `dafny verify dfyconfig.toml`.

| Files | What they model |
|---|---|
| `StockLines`, `StockProtocol` | Warehouse stock of material orders: one atomic flag UPDATE, one SELECT and one UPDATE per line, interleaved with any number of other handlers, statement by statement |
| `OrderStatus`, `OrderLaws`, `OrderDesk` | The order status machine with every handler that writes a status, the stock flag and the site inventory, one handler at a time; what holds over whole runs, and which steps upset it; `OrderDesk.Desk` is the handlers over mutable rows |
| `Courier` | Courier jobs: accept and status requests, interleaved statement by statement, and handlers that do not overlap |
| `Ledger`, `LedgerLaws`, `ArbitrationDesk` | The escrow ledger, disputes and arbitration: payments, transfer receipts, reversals, retention, freeze, refund, release; `ArbitrationDesk.Desk` is the handlers over mutable rows |
| `ForeignKeys`, `DependencyOrder`, `TableLoad` | The ETL: a three-colour depth-first walk over foreign keys, then a loop of TRUNCATE CASCADE and copy |
| `JsonValue`, `JsonText`, `JsonSyntax`, `JsonSoundness`, `JsonNumbers`, `JsonStrict`, `JsonSurrogates`, `JsonParser` | The order-preserving JSON decoder: its meaning on text, every spelling of a document, which of the texts it takes are JSON, and the parser that advances a position |
| `JsonPrinter`, `JsonMarshal`, `JsonEncoder` | The PHP-compatible JSON encoder and its round trip through the decoder |
| `PageUrl`, `PageParam`, `Paginator` | The paginator: query rewriting, `?page=`, the link window, the walk from page to page |
| `CsvExport` | The admin CSV export and an RFC 4180 reader |
| `OwnedRows`, `KeyedRows`, `ListBatch`, `BidderBatch` | Batched loading for lists against one query per item |
| `SlidingWindow`, `MemoryLimiter` | The in-memory rate limiter: the rule, and the slices filtered in place |
| `Redactor` | The output guard that replaces bearer tokens |
| `Sums`, `Bytes`, `Options` | Helpers |

Database tables are sequences or maps of rows, a handler is a step or a method over them, and text is
a sequence of bytes, except in `Redactor` and `CsvExport`, whose texts are any characters, bytes among
them. Amounts are whole minor units, times are whole nanoseconds. A row's id in `StockProtocol`,
`OrderStatus`, `Courier` and `Ledger` is its position. The same material order shows up in two models:
its status, flag and items in `OrderStatus`, its payment in `Ledger`.

## What the proofs found

- The stock flag, the site inventory and the closed statuses hold for the order handlers and the
  scheduler alone (`OrderLaws.FulfilmentKeepsLaws`), not once the project's payment routes, arbitration
  and reviews write an order's status too. `OrderLaws.AcceptedTransferLeavesStock`: a pending order whose
  transfer is uploaded and accepted is paid with its flag clear and no stock taken.
  `OrderLaws.ReopenedOrderArrivesTwice`: a completed order whose transfer is uploaded and rejected is
  pending again, and its next delivery adds its items to the site a second time. For each law
  `OrderLaws.HandleFlagsIff`, `HandleSiteIff` and `HandleClosedIff` say of every step, by the order's
  current status, whether it keeps the law, and `FlagsHoldIff`, `SiteHoldsIff` and `ClosedHoldsIff` say it
  of whole runs. The stock balance itself, which goes by the flag, holds whatever happens
  (`OrderLaws.StockHoldsAlways`).
- `LedgerLaws.ReleaseMatchesVerifyIff`: releasing a material order's payment from a dispute charges the
  order's total plus its shipping, while the seller's verification charges the total, which already
  holds the shipping. Release and verification write the same ledger exactly when the order ships free
  and costs something. `LedgerLaws.ShippingChargedTwice` is an order of 30, 5 of them shipping: 35 against
  30. The project's verify-proof route adds the shipping again as release does
  (`LedgerLaws.AcceptMatchesRelease`, internal/httpapi/projectpaymentverify.go:773-776).
- `TableLoad.LoadSucceedsIff`: when only some tables are selected, a later TRUNCATE can reach a loaded
  table through an unselected one and empty it. `TableLoad.PartialSelectionCanWipe` is the input; with
  all tables selected and no cycle it cannot happen.
- `Courier.WriteClimbsIff`: two overlapping requests of one courier can move a job back from delivered
  to picked up; a write moves it forward exactly when its request would still be permitted.
- `OrderLaws.StaleDeliveryIff`: a `delivered` request that loaded the order before another one
  delivered it counts the items twice.
- `JsonSurrogates.ReadAsMeant`: a character escaped as a surrogate pair is read as U+FFFD twice
  (`JsonSurrogates.FaceReadTwice`), so the encoder's own output does not come back for text beyond the
  basic plane (`JsonMarshal.MarshalRoundTrip`, `JsonMarshal.FaceIsLost`).
- `JsonStrict.DecodedIsRfcIff`: the decoder also takes texts that RFC 8259 does not allow. A text it takes
  is a document of RFC 8259 exactly when every run of number characters outside its strings is a number
  of section 6 and no byte inside its strings is below 0x20. `JsonStrict.TakenButNotJson` has the inputs
  `+1`, `.5`, `01` and a raw line feed in a string. Of the documents of RFC 8259 it takes exactly those whose
  numbers fit (`JsonStrict.RfcDocumentTakenIff`). Both read a text as bytes, so whether it is valid UTF-8 is
  not asked.
- `BidderBatch.ServedIsLookup`: for a profile without a user the single queries look up the contacts of
  user 0 and the batch does not. The schema ties every contact to a user
  (db/postgres/migrations/0008_marketplace_and_content.sql:223), so this takes a user with id 0:
  `BidderBatch.ServedAlways` says batch and single queries agree when there is none, and
  `BidderBatch.UserZeroServed` is the input where there is.

Where comments and code differ the models follow the code. The comment above `dependencyOrder` says
that cycles fall back to the alphabetical order; the code goes on with its walk and only skips a parent
that is still open, and the order proved is that one. The comment above the in-memory limiter speaks
of a fixed window; the code slides it.

## Model

| member | source | states |
|---|---|---|
| StockLines.MoveOneMore | internal/httpapi/materialorderwrites.go:176-192 | moving one more line of an order extends a partial move: the stock is then off by exactly the quantities of the longer list, for every material |
| StockProtocol.StockConservation | internal/httpapi/materialorderwrites.go:137-195 | in every interleaving of statements of any number of calls, each material's stock is the start, less the lines of the orders whose flag is set, plus the lines decrements under way still have to take, less those restores under way still have to put back |
| StockProtocol.QuietStock | internal/httpapi/materialorderwrites.go:137-195 | with no call past its claim the flags alone account for the stock |
| StockProtocol.ClaimsAlternate | internal/httpapi/materialorderwrites.go:140-163 | successful decrement and restore claims on one order strictly alternate, starting with a decrement, and the flag says which comes next |
| StockProtocol.NextConserves | internal/httpapi/materialorderwrites.go:137-195 | each single statement, new order or new call keeps the balance |
| StockProtocol.UninterruptedMove | internal/httpapi/materialorderwrites.go:165-195 | a call left alone after its claim moves the first k lines of its order exactly once in k statements and changes nothing else |
| OrderLaws.StockHoldsAlways | internal/httpapi/materialorderwrites.go:140-195 | after any requests of any writer of an order's status, in any order, each material's stock is the start less the quantities of the orders whose flag is set |
| OrderLaws.FlagsHoldIff | internal/httpapi/projectpaymentverify.go:892-892 | over a whole run the flag is at every point set exactly in paid, processing, ready for pickup, shipping, delivered and completed, if and only if each step passes a test on its order's current status: no receipt uploaded for an order in one of those, none accepted, no order refunded, and no release or review of an order outside them |
| OrderLaws.HandleFlagsIff | internal/httpapi/disputes.go:1205-1214 | each single step, from rows whose flags are right, leaves them right exactly when it passes that test |
| OrderLaws.SiteHoldsIff | internal/httpapi/projectpaymentproof.go:547-547 | over a whole run each requirement has at every point on site its start plus what the delivered and completed orders of its own project name, if and only if no upload or release takes an arrived order, and no review delivers one, that names a quantity of its project's requirements |
| OrderLaws.HandleSiteIff | internal/httpapi/materialorderreviews.go:283-301 | each single step, from rows whose site counts are right, leaves them right exactly when it passes that test; a review that delivers an order never does unless the order names no quantity |
| OrderLaws.ClosedHoldsIff | internal/httpapi/projectpaymentproof.go:298-320 | a cancelled or completed order keeps its status all along a run if and only if no upload-proof and no release is let through on it while it is completed, and no review on it while it is cancelled |
| OrderLaws.HandleClosedIff | internal/httpapi/disputes.go:1317-1321 | each single step leaves a closed order's status alone exactly when it passes that test |
| OrderLaws.FulfilmentKeepsLaws | internal/httpapi/materialorderwrites.go:440-768 | runs of the order handlers and the scheduler alone keep flags, stock balance and site inventory |
| OrderLaws.AcceptedTransferLeavesStock | internal/httpapi/projectpaymentverify.go:892-892 | a pending order, its receipt uploaded and accepted, is paid with its flag clear and the stock untouched |
| OrderLaws.ReopenedOrderArrivesTwice | internal/httpapi/projectpaymentverify.go:734-734 | a completed order, its receipt uploaded and rejected, is pending again, and processing, shipping and delivering it adds its items to the site once more without moving stock |
| OrderLaws.PermittedIsLawful | internal/httpapi/materialorderwrites.go:419-437 | every status change the permissions let through goes to a status that holds stock or to cancelled, delivers at most once, and leaves delivered only to complete |
| OrderLaws.VerifyKeepsLaws | internal/httpapi/materialorderwrites.go:199-316 | the seller's payment verification keeps the three laws, whatever the ledger answers |
| OrderLaws.ApproveKeepsLaws | internal/httpapi/materialquotelifecycle.go:730-781 | a new pending order changes neither the stock balance nor any site count |
| OrderLaws.RowChangeKeepsLaws | internal/httpapi/scheduler.go:106-118 | completing a delivered order, by receipt or by timeout, and uploading a proof move neither stock nor inventory |
| OrderLaws.ClosedRefusesUpdates | internal/httpapi/materialorderwrites.go:493-516 | no viewer may move a cancelled or completed order anywhere |
| OrderLaws.StaleDeliveryIff | internal/httpapi/materialorderwrites.go:561-593 | a delivered request decided on an older row keeps the site inventory right exactly when the order has not arrived meanwhile or names no quantity |
| OrderLaws.OverlappingDeliveriesCountTwice | internal/httpapi/materialorderwrites.go:561-593 | two delivered requests that both saw shipping add twice the items |
| OrderDesk.Desk.UploadTransfer | internal/httpapi/projectpaymentproof.go:515-560 | taken exactly on an order of the project that is not paid, refunded or cancelled, by a caller let through outside a freeze; then the order is verifying with a proof, and nothing else changes |
| OrderDesk.Desk.VerifyTransfer | internal/httpapi/projectpaymentverify.go:54-215 | taken exactly on a verifying order with a proof, and for a payment only with the ledger's consent; then the order is paid or pending again, and neither flag nor stock moves |
| OrderDesk.Desk.ClaimOrderStock | internal/httpapi/materialorderwrites.go:140-149 | the claim succeeds exactly when the flag still has the other value, and flips only that flag |
| OrderDesk.Desk.MoveOrderStock | internal/httpapi/materialorderwrites.go:151-195 | the loop over the lines leaves every material off by exactly the order's quantities of it, once per flip of the flag, and nothing when the flag was already moved |
| OrderDesk.Desk.SyncSite | internal/httpapi/materialorderwrites.go:567-593 | the loop adds to each requirement the sum of the item quantities naming it, for requirements of the order's own project only |
| OrderDesk.Desk.VerifyOrderPayment | internal/httpapi/materialorderwrites.go:199-316 | accepted exactly for the seller, with a proof, on an order not yet settled, with the ledger's consent; then paid and stock claimed |
| OrderDesk.Desk.UpdateMaterialOrder | internal/httpapi/materialorderwrites.go:440-613 | the handler's rows after each branch are those of the step the laws are proved for; refusals change nothing |
| OrderDesk.Desk.ConfirmOrderReceipt | internal/httpapi/materialorderwrites.go:686-768 | accepted exactly for buyer, project owner or admin on an arrived order; only the status changes |
| Courier.OneClaimPerJob | internal/httpapi/logistics.go:171-183 | under every statement interleaving at most one accept succeeds on a job |
| Courier.CourierIsForGood | internal/httpapi/logistics.go:355-495 | once a job has a courier it keeps that courier through any further statements, and every status change it ever had was that courier's |
| Courier.OwnershipHolds | internal/httpapi/logistics.go:171-495 | jobs, requests on their way to write, and logged moves always belong to the one claiming courier |
| Courier.WriteClimbsIff | internal/httpapi/logistics.go:436-491 | a status write raises the job's rank exactly when its request would still be permitted at that moment |
| Courier.OverlappingRequestsGoBack | internal/httpapi/logistics.go:436-491 | two overlapping requests take a job from delivered back to picked up |
| Courier.WholeClimbs | internal/httpapi/logistics.go:337-347 | a handler run whole leaves a job alone or strictly raises its rank |
| Courier.AtMostThreeUpdates | internal/httpapi/logistics.go:337-491 | with handlers that do not overlap a job takes at most three updates |
| Courier.Dispatch.AcceptJob | internal/httpapi/logistics.go:156-205 | the claim succeeds exactly on a pending job and sets status and courier together |
| Courier.Dispatch.UpdateJobStatus | internal/httpapi/logistics.go:355-508 | updates exactly for the job's courier and a status the current one allows; otherwise nothing changes |
| LedgerLaws.FreezeSafety | internal/httpapi/disputes.go:1229-1341 | a payment row written while a dispute of its project is open is written by the release of that very dispute, which is resolved in every later state |
| LedgerLaws.PaymentsUnderFreeze | internal/httpapi/release.go:125-189 | one request appends at most one row; under a freeze only the release that closes the dispute appends a payment |
| LedgerLaws.OneOpenAlways | internal/httpapi/disputesuser.go:340-385 | no project ever has two open disputes, escalations from mutual terminations included |
| LedgerLaws.ClosedForGood | internal/httpapi/disputes.go:1852-1857 | a closed dispute never reopens and its thread never changes |
| LedgerLaws.MoneyConserved | internal/httpapi/disputes.go:1112-1227 | over any run, for each payment: charged at most once, 0 <= reversals <= paid, and the mirror column equals the reversals; each dispute refunds at most its recorded amount, and only once closed; no project's escrow is overdrawn |
| LedgerLaws.RefundSound | internal/httpapi/disputes.go:1112-1227 | a refund that is not refused keeps all of that |
| LedgerLaws.ReleaseSound | internal/httpapi/disputes.go:1229-1341 | a release that is not refused keeps all of that and touches no dispute |
| LedgerLaws.RecordSound | internal/httpapi/release.go:125-189 | recording a payment appends at most one row per reference and stays within the escrow |
| LedgerLaws.RefundMarksExactly | internal/httpapi/disputes.go:1185-1227 | the refund turns a settled payment into refunded exactly when the reversals now equal all that was paid |
| LedgerLaws.ReleaseMatchesVerifyIff | internal/httpapi/money.go:376-400 | for a disputed material order that can be verified and is not yet charged: release writes the ledger the seller's verification would write after a dismissal, exactly when the order ships free and costs something |
| LedgerLaws.ShippingChargedTwice | internal/httpapi/money.go:394-396 | an order of 30 that holds 5 of shipping: release charges 35, verification 30 |
| LedgerLaws.AcceptMatchesRelease | internal/httpapi/projectpaymentverify.go:773-776 | accepting a receipt on the project's route, were the dispute dismissed, writes the ledger and the row that its release writes, shipping twice included |
| LedgerLaws.RetentionSound | internal/httpapi/retentionrelease.go:100-262 | the retention sweep pays from the escrow without overdrawing it, and keeps every money invariant |
| LedgerLaws.ActEntries | internal/httpapi/disputes.go:954-1400 | a decision appends at most one row, on the project of the open dispute it resolves, and a payment only on release |
| ArbitrationDesk.Desk.RecordPayment | internal/httpapi/release.go:125-189 | refuses under a freeze, keeps an existing row, refuses beyond the escrow, or appends exactly one row |
| ArbitrationDesk.Desk.RecordRefund | internal/httpapi/disputes.go:1112-1227 | refuses without writing when the target, the paid sum, the remaining sum or the disputed amount forbid it; otherwise writes the reversal and the mirror |
| ArbitrationDesk.Desk.ReleasePayment | internal/httpapi/disputes.go:1229-1341 | refuses settled and void targets without writing; otherwise records the payment past the freeze and marks the row |
| ArbitrationDesk.Desk.AdminDisputeAct | internal/httpapi/disputes.go:954-1400 | the handler's reply and rows for every action, amount and dispute are those of the step the laws are proved for |
| ArbitrationDesk.Desk.StoreDispute | internal/httpapi/disputesuser.go:309-388 | answers conflict exactly while a dispute of the project is open, and then writes nothing; either way the project is frozen afterwards, never by two open disputes, and the money invariants stand |
| ArbitrationDesk.Desk.PostToThread | internal/httpapi/disputesuser.go:548-620 | taken exactly on an open dispute, whose thread then ends with the reply; no project is frozen or released by it, and the laws of disputes and money stand |
| ArbitrationDesk.Desk.WithdrawDispute | internal/httpapi/disputes.go:1744-1905 | taken exactly from the opener or an admin, on the dispute's own project, while it is open; the project is not frozen afterwards, and the laws of disputes and money stand |
| ArbitrationDesk.Desk.MarkPaid | internal/httpapi/materialquotelifecycle.go:415-561 | when it answers done the quote had a proof, was unsettled and only its status became paid; if goods and shipping cost its project anything, the project was not frozen and the ledger holds the payment. Any other answer leaves every row alone. The laws of disputes and money stand |
| ArbitrationDesk.Desk.VerifyOrderPayment | internal/httpapi/materialorderwrites.go:226-305 | when it answers done the order could be verified and only its status became paid; if it costs its project anything, the project was not frozen and the ledger holds the payment. Any other answer leaves every row alone. The laws of disputes and money stand |
| ArbitrationDesk.Desk.UploadTransfer | internal/httpapi/projectpaymentproof.go:36-160 | when it answers done the row waits for its verdict, as the freeze check, the route and its current state allow; it charges nothing, and the laws of disputes and money stand |
| ArbitrationDesk.Desk.VerifyTransfer | internal/httpapi/projectpaymentverify.go:54-215 | done only on a row that waited for its verdict outside a freeze; accepted only with its payment in the ledger, rejected without any entry; any other answer leaves every row alone |
| DependencyOrder.Order | cmd/etl/main.go:582-654 | on any foreign-key graph, cyclic or not, the walk ends, lists each selected table exactly once, and puts each parent before its child unless the parent itself leads back to the child |
| DependencyOrder.Walk.Visit | cmd/etl/main.go:622-645 | a visit keeps the three-colour invariant: open tables form a path, listed tables are done, parents come first; it only adds to the list |
| DependencyOrder.CollectDependencies | cmd/etl/main.go:592-620 | the map holds exactly the edges between selected tables, self-references dropped |
| DependencyOrder.StackReachesTop | cmd/etl/main.go:622-645 | a table still open leads to the table being visited, which is why a skipped parent closes a cycle |
| DependencyOrder.AcyclicIsTopological | cmd/etl/main.go:577-581 | without cycles the order is topological: every parent comes before its child |
| TableLoad.CascadeIsReachability | cmd/etl/main.go:208-212 | a cascading TRUNCATE empties exactly the tables that reference the table, directly or not |
| TableLoad.LoadSucceedsIff | cmd/etl/main.go:148-226 | for any graph, selection and order, a loaded table ends with its source rows exactly when no later loaded table's TRUNCATE reaches it, or it has no source rows |
| TableLoad.AllSelectedLoadsEverything | cmd/etl/main.go:148-226 | with all tables selected, truncation on and no cycle, the loop never empties a table it has loaded |
| TableLoad.PartialSelectionCanWipe | cmd/etl/main.go:148-226 | with a table left out, a loaded one can end up empty although the order is right for the selection |
| TableLoad.Target.Load | cmd/etl/main.go:148-226 | the loop leaves in every table what truncations and copies in list order leave there, unselected tables included |
| TableLoad.Run | cmd/etl/main.go:93-226 | order and loop together: with all tables selected, truncation on and no cycle, every loaded table holds exactly its source rows, whatever it held before |
| JsonSyntax.DocumentDecodes | internal/httpapi/geocode.go:308-321 | every document decodes to its value with key order kept and nothing left over, whatever white space stands between its tokens and however its characters are escaped |
| JsonSyntax.TreeDecodes | internal/httpapi/geocode.go:345-367 | a spelled value followed by any text is read exactly up to its end |
| JsonSyntax.CharsDecode | internal/httpapi/geocode.go:466-509 | raw characters, short escapes and `\u` escapes all read as the characters they spell |
| JsonSyntax.SetAllDistinct | internal/httpapi/geocode.go:378-427 | members with distinct keys come out in the order they were written |
| JsonSoundness.DecodesExactlyDocuments | internal/httpapi/geocode.go:308-611 | a text decodes to a value exactly when it is some spelling of that value between white space |
| JsonSoundness.ValueRead | internal/httpapi/geocode.go:345-464 | whatever the decoder reads is the text of a spelled value, and what it leaves is untouched |
| JsonSoundness.DecodedIsRegular | internal/httpapi/geocode.go:308-611 | a decoded value has no repeated key and no integer beyond 64 bits anywhere |
| JsonStrict.DecodedIsRfcIff | internal/httpapi/geocode.go:308-611 | a text the decoder takes is a document of RFC 8259 exactly when each run of number characters outside its strings is a number of section 6 and no byte inside its strings is below 0x20 |
| JsonStrict.RfcDocumentTakenIff | internal/httpapi/geocode.go:556-588 | of the documents of RFC 8259 the decoder takes exactly those whose numbers all fit 64 bits or a double |
| JsonStrict.TakenButNotJson | internal/httpapi/geocode.go:556-611 | `+1`, `.5`, `01` and a raw line feed in a string are taken and are not JSON |
| JsonNumbers.NumbersTaken | internal/httpapi/geocode.go:556-588 | for every number of RFC 8259: an integer of 64 bits is kept exactly, any other number is a double, and it is refused exactly when it is too large for one |
| JsonNumbers.NumberReads | internal/httpapi/geocode.go:581-585 | the digits and the power of ten read from a number are the ones its sign, whole part, fraction and exponent spell |
| JsonNumbers.NumberDocument | internal/httpapi/geocode.go:556-588 | such a number alone decodes, or fails as an invalid number |
| JsonSurrogates.ReadAsMeant | internal/httpapi/geocode.go:544-550 | a string is read as RFC 8259 means it exactly when no character in it is escaped as a surrogate pair |
| JsonSurrogates.FaceReadTwice | internal/httpapi/geocode.go:544-550 | U+1F600 escaped as a pair is read as U+FFFD twice |
| JsonValue.Object.Set | internal/jsonphp/object.go:36-48 | a key already there keeps its position and takes the new value, a new one goes last |
| JsonValue.SetKeepsDistinct | internal/jsonphp/object.go:36-48 | setting never repeats a key |
| JsonParser.Parser.Value | internal/httpapi/geocode.go:345-367 | the parser stops where, and answers what, the function on the text ahead says, errors included |
| JsonParser.Parser.Fields | internal/httpapi/geocode.go:388-426 | the member loop sets the remaining members one by one onto those already set |
| JsonParser.Parser.List | internal/httpapi/geocode.go:429-464 | the array loop appends the remaining items in order |
| JsonParser.Parser.String | internal/httpapi/geocode.go:466-509 | the string loop, with its error for each way a string can be cut short |
| JsonParser.Parser.Unquoted | internal/httpapi/geocode.go:511-554 | the case analysis of one escape, equal to the table of escapes the decoding theorems use |
| JsonParser.Parser.Number | internal/httpapi/geocode.go:556-588 | the longest run of number characters, as integer, double or error |
| JsonParser.Parser.IntLiteral | internal/httpapi/geocode.go:590-611 | true exactly for an optional minus and at least one digit |
| JsonParser.DecodeOrdered | internal/httpapi/geocode.go:308-321 | the whole decoder answers what the decoding theorems are about, trailing characters included |
| JsonPrinter.TextSurvives | internal/jsonphp/jsonphp.go:306-376 | a text comes back from its encoding exactly when it is valid UTF-8 without characters beyond the basic plane |
| JsonPrinter.EscapedValue | internal/jsonphp/jsonphp.go:306-376 | what comes back in every case: invalid bytes as U+FFFD, wide characters as U+FFFD twice, all else unchanged |
| JsonPrinter.EscapedAlphabet | internal/jsonphp/jsonphp.go:306-376 | the text is cut into ASCII bytes, whole characters and stray bytes, and written piece by piece in order: an ASCII byte from 0x20 to 0x7f other than quote, backslash and slash as itself, any other ASCII byte and every whole character as escapes alone, and each stray byte, and nothing else, as the three bytes of U+FFFD |
| JsonMarshal.MarshalRoundTrip | internal/jsonphp/jsonphp.go:146-292 | for every value of null, booleans, 64-bit integers, texts, lists and objects with distinct keys: the encoder's output decodes to the value itself, key order included, exactly when all its texts and keys are valid UTF-8 within the basic plane |
| JsonMarshal.FaceIsLost | internal/jsonphp/jsonphp.go:306-376 | U+1F600 in four bytes, encoded and decoded, comes back as U+FFFD twice |
| JsonMarshal.MarshalReads | internal/jsonphp/jsonphp.go:146-292 | the encoder's output always decodes, to the value with each text as it is read back; keys that become equal merge |
| JsonMarshal.EchoIsValueIff | internal/jsonphp/jsonphp.go:306-376 | reading back changes nothing anywhere in a value exactly when all its texts and keys are valid UTF-8 within the basic plane |
| JsonEncoder.Encode | internal/jsonphp/jsonphp.go:146-292 | the encoder appends to its builder exactly the text the round trip is about |
| JsonEncoder.EncodeObject | internal/jsonphp/object.go:67-86 | the member loop writes each key once, in order, with its value |
| JsonEncoder.EncodeString | internal/jsonphp/jsonphp.go:306-376 | the loop over bytes and runes writes the escaped characters between quotes |
| JsonEncoder.SpellThen | internal/jsonphp/jsonphp.go:146-292 | a value's text does not depend on what is written after it |
| PageUrl.QueryKept | internal/httpapi/paginator.go:223-273 | the built query decodes to the caller's pairs in order without `page`, then the new page last, for all byte strings including malformed percent signs |
| PageUrl.RebuildFromOwn | internal/httpapi/paginator.go:223-273 | building another page from a built query equals building it from the original |
| PageUrl.EscapeRoundTrip | internal/httpapi/paginator.go:275-280 | the escaping of any bytes is undone by both the form decoder and the one of RFC 3986 section 2.1 |
| PageUrl.EscapeAlphabet | internal/httpapi/paginator.go:275-280 | escaped text holds only the unreserved characters of RFC 3986 section 2.3 and percent triplets |
| PageUrl.PairsRoundTrip | internal/httpapi/paginator.go:260-273 | encoding any pairs and decoding gives the same pairs |
| PageUrl.KeptPairs | internal/httpapi/paginator.go:228-258 | the loop keeps exactly the pairs that are not `page`, in order |
| PageUrl.BuildPageUrl | internal/httpapi/paginator.go:223-273 | the caller's path, a question mark or an ampersand when the path has one, and the new query |
| PageParam.BuiltPageIsRequested | internal/httpapi/disputes.go:214-228 | a request for a built URL is a request for its page, whatever the caller's query held |
| PageParam.StrictPairsRoundTrip | internal/httpapi/disputes.go:214-228 | the request's strict parser reads a built query as the same pairs |
| Paginator.WindowIsWindow | internal/httpapi/paginator.go:179-211 | each window runs from the first page to the last in steps of one, and each ellipsis stands inside and hides at least two pages |
| Paginator.WindowShowsNeighbours | internal/httpapi/paginator.go:179-211 | every page within three of the current one is shown |
| Paginator.OneActiveLink | internal/httpapi/paginator.go:107-123 | some link is active exactly when the current page is in range, and never two |
| Paginator.WalkShowsEverything | internal/httpapi/paginator.go:46-104 | for bodies answered from a request for page 1 on, each to the next-page URL of the one before: there are at most as many as the last page says, a body has no next page exactly when it is the last of them, their rows put together are then every row once, in order, and each range starts right after the one before |
| Paginator.WalkEnds | internal/httpapi/paginator.go:46-104 | every request starts such a sequence of bodies that ends on a page without a next one |
| Paginator.RangesJoin | internal/httpapi/paginator.go:67-71 | from starts at 1, each next from is the last to plus one, and the last to is the total |
| Paginator.LastPageBounds | internal/httpapi/paginator.go:51-57 | the last page is the least that covers the total, and 1 for no rows |
| Paginator.Sequence | internal/httpapi/paginator.go:213-219 | the loop lists the pages from the first to the last |
| Paginator.WindowPages | internal/httpapi/paginator.go:179-211 | the branches build a proper window for every current page, in range or not |
| Paginator.PageLinks | internal/httpapi/paginator.go:106-123 | one link for each entry of the window, between the two arrows |
| Paginator.Paginate | internal/httpapi/paginator.go:46-104 | the thirteen fields of the body in terms of the total, the page size and the requested page, invalid ones corrected |
| CsvExport.RoundTrip | internal/httpapi/adminexport.go:149-165 | an RFC 4180 section 2 reader with LF line ends gets back exactly the rows written, whatever their fields hold |
| CsvExport.CellIsSafe | internal/httpapi/adminexport.go:136-147 | no exported cell opens as a formula, and only cells that would are changed, by one apostrophe |
| CsvExport.CsvLine | internal/httpapi/adminexport.go:149-158 | the loop over fields writes one line; a row without fields is an empty line |
| CsvExport.Export | internal/httpapi/adminexport.go:108-134 | the export loop writes a document that reads back as its rows |
| BidderBatch.LoadBidderBatch | internal/httpapi/listbatch.go:596-775 | a need has a tree exactly when it was asked for and its profile row exists; the tree holds that profile, its user, that user's contacts in id order and the rating average and count over that profile's rows alone, for any duplicated and mixed needs |
| BidderBatch.ServedIsLookup | internal/httpapi/projectprofiles.go:308-342 | the batch serves what the single queries serve, with the one exact exception of profiles without a user when user 0 has contacts; nothing else is served |
| BidderBatch.ServedAlways | db/postgres/migrations/0008_marketplace_and_content.sql:223-223 | batch and single queries always agree while every contact belongs to a user there is and none has id 0 |
| BidderBatch.UserZeroServed | internal/httpapi/listbatch.go:661-668 | with a contact of user 0 and a profile without a user, the single queries serve that contact and the batch does not |
| BidderBatch.LoadProfiles | internal/httpapi/listbatch.go:616-660 | the loops over tables, rows and needs find for each need the row its own query would |
| BidderBatch.UserIds | internal/httpapi/listbatch.go:661-668 | the users asked for are exactly the nonzero users of found profiles, in whatever order the map is walked |
| BidderBatch.LoadRatings | internal/httpapi/listbatch.go:690-729 | every score held is its own profile's, and every rated profile has one |
| BidderBatch.LoadUsers | internal/httpapi/listbatch.go:669-689 | each user found is the row its own query would find |
| ListBatch.PhonesBatch | internal/httpapi/listbatch.go:241-263 | one query for many users gives each user the list a query of its own gives, null contacts dropped, in id order |
| ListBatch.BidRowsBatch | internal/httpapi/listbatch.go:84-127 | one query for many projects gives each project the bids its own query gives, for any role and profile filter |
| ListBatch.ProjectBidCountsBatch | internal/httpapi/listbatch.go:55-80 | the grouped counts are, project by project, the counts of its own query |
| OwnedRows.BatchHoldsEach | internal/httpapi/listbatch.go:245-245 | ordered by owner and id, the rows of each owner are that owner's rows ordered by id |
| KeyedRows.PickHoldsEach | internal/httpapi/listbatch.go:623-656 | a map filled from one query for many ids holds for each id what a query for that id answers |
| SlidingWindow.WindowLimit | internal/httpapi/limiter.go:52-80 | for calls in clock order with one window and any mix of limits, a call is admitted exactly when fewer than its limit were admitted within the window before it, and is then among at most its limit |
| SlidingWindow.HitsAreRecentAdmissions | internal/httpapi/limiter.go:59-66 | the stored hits are always exactly the admissions within the window, in order |
| SlidingWindow.RetryAfterInWindow | internal/httpapi/limiter.go:68-75 | a refusal asks for a wait above zero and of at most the window |
| SlidingWindow.RetryAfterExact | internal/httpapi/limiter.go:68-75 | with nothing admitted meanwhile every earlier call is refused, and the call at now plus retryAfter is admitted exactly when fewer than the limit are later than the oldest kept hit |
| SlidingWindow.RetryAfterOneLimit | internal/httpapi/limiter.go:68-75 | with one limit for all calls that call is always admitted |
| SlidingWindow.RemainingAgrees | internal/httpapi/limiter.go:84-105 | something remains exactly when a call at the same instant would be admitted |
| MemoryLimiter.Limiter.Allow | internal/httpapi/limiter.go:52-80 | over shared backing arrays, the answer and the key's hits follow the sliding-window rule and no other key's hits change |
| MemoryLimiter.Limiter.KeepLive | internal/httpapi/limiter.go:59-66 | the in-place filter over its own array keeps exactly the live hits, in order |
| MemoryLimiter.Limiter.Append | internal/httpapi/limiter.go:77-77 | appending adds one hit at the end, in place or in a fresh array |
| MemoryLimiter.Limiter.Remaining | internal/httpapi/limiter.go:84-105 | the counting loop agrees with the rule and changes nothing |
| Redactor.RedactOutput | internal/ai/guard.go:126-152 | the loop ends; every bearer prefix in its output is followed by the placeholder; the input is cut into copied pieces and whole tokens of at most 128 bytes, and all but the tokens is copied in order |
| Redactor.OutputIsGuarded | internal/ai/guard.go:126-152 | no prefix in the output stands before anything but the placeholder, across all cuts |
| Redactor.PiecesWellCut | internal/ai/guard.go:126-152 | each cut is at the first prefix left and takes its whole token: up to white space, 128 bytes or the end |
| Redactor.PiecesAreTheText | internal/ai/guard.go:126-152 | the pieces put together are the input |

## Left out

- HTTP, SQL text, scanning, validation messages, notifications, mail and response rendering: wiring
  around the modelled steps; failing queries and transactions that roll back are handlers that did nothing.
- StockProtocol.StockConservation: calls that die between two statements and merchants' own stock edits are not modelled; no handler fails midway.
- OrderLaws.SiteHoldsIff: requirement edits, restocks and uses elsewhere count as a changed start; orders and their items are never deleted here.
- OrderLaws.ClosedHoldsIff: whether a caller may act and whether a dispute is open enter the payment routes as one answer, and the end of a courier's job enters a review the same way.
- Courier.AtMostThreeUpdates: holds for handlers that do not overlap; overlapping ones are in `Courier.WriteClimbsIff`.
- LedgerLaws.MoneyConserved: runs of whole transactions; project status changes on release and termination, and the termin, addendum and bid handlers around `recordPaymentMinor` are outside, and other callers enter as one request that records a payment; a vendor import lowers a budget as any reduction does; deletions of payment rows are outside, and platform fees, which no code here writes.
- DependencyOrder.Order: the catalogue query and the alphabetical sort are inputs.
- TableLoad.Run: copying always succeeds, the bid fold is a source like any other, sequences are not reset, and the verify mode, which writes nothing, is outside.
- JsonText.NumberOf: a double keeps its literal, so rounding is not modelled, only which literals fit; a decoded double is not encoded again, because the shortest-digits float format is outside.
- JsonStrict.DecodedIsRfcIff: a text is read as bytes, so section 8.1's demand for UTF-8 is not part of the statement.
- JsonEncoder.Encode: values that hold a double are outside, as said above.
- JsonMarshal.MarshalRoundTrip: pretty printing, pre-encoded documents, unordered maps and the other integer widths of the encoder are outside.
- PageParam.Requested: pages beyond 64 bits read as 1 as in the code, but the row offset of a page near that bound, which wraps in the code, is not modelled.
- Paginator.WalkShowsEverything: over a fixed list of rows, with a path that holds no question mark, as the paginator asks; a status filter that the handlers drop from the next-page URL changes the list and is outside.
- CsvExport.RoundTrip: rows have at least one field; the status header and the CRLF line ends of the standard are not what the code writes.
- BidderBatch.LoadBidderBatch: query errors, columns of unexpected types and the rendering of a tree are outside; the average is a real number.
- Batched negotiation logs, sub-professionals and owner blocks: the same one-query-for-many pattern as `ListBatch`.
- SlidingWindow.WindowLimit: assumes calls in clock order, because the time is read before the lock is taken; limits are at least one, as all routes declare.
- MemoryLimiter.Limiter.Allow: the lock, the key hashing and the database-backed limiter are outside.
- Redactor.RedactOutput: a token longer than 128 bytes keeps its tail, as in the code; the other guards of that file are outside.
- Shipping tariffs, geocoding coordinates and budget estimates: floating point throughout.
- Tokens, password hashing, uploads and model calls: foreign or random.
