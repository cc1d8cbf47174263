# Invoice API core: validation, store, destroy and invoice ids

A Dafny model of the server side of a Laravel invoice application: the
validation rule table that every invoice request passes through
(`InvoiceRequest::rules`), the controller actions that create and delete an
invoice (`InvoiceController::store` and `destroy`), and the model hook that
gives each new invoice its six-character id (`Invoice::generateCustomId`,
run from the `creating` event).

Modules, one per file:

- `Text` (`text.dfy`): digit characters, PHP's integer-to-string conversion,
  `str_pad(..., STR_PAD_LEFT)`, the character set `trim()` removes, and the
  shape `^[A-Z]{2}[0-9]{4}$` of an invoice id.
- `InvoiceIds` (`invoice_ids.dfy`): the id generator. The generator draws
  random values one after another. Those draws are a parameter: a sequence
  of `Draw(random, number)` values, each holding the two characters from
  `Str::random(2)` and the number from `random_int(0, 9999)`.
  `GenerateCustomId` is the do-while loop over those draws. It returns the
  first candidate that is not already an invoice id. A second group of
  lemmas counts the 26·26·10000 ids of the intended shape.
- `RequestRules` (`request_rules.dfy`): the rule table, chosen by HTTP method,
  and a model of how the framework evaluates such a table.
  - `required` and `required_if` are implicit rules.
  - Every other rule is skipped for a missing key, a blank string, or a null
    when the key has `nullable`.
  - A `line_items.*` field that is absent from an entry is read as null. The
    framework treats it as not present instead, but the verdict is the same,
    because every wildcard rule list carries `nullable`.
  - `Passes` evaluates the table. `Accepted` is an independent,
    key-by-key description of what a request must look like.
    `PassesIffAccepted` proves the two agree.
- `InvoiceTables` (`invoice_tables.dfy`): the clients, addresses and invoices
  tables as values.
  - `AfterStore` and `AfterDestroy` are the effect of the two actions on
    those tables, and the lemmas are about them.
  - `BeforeInsert` is `store` up to `Invoice::create`. `AfterStore` adds the
    insert with the evidently intended id check. `AfterStoreAsWritten` adds
    the query error that the check raises as written (see "## Findings").
  - Auto-increment ids start at 1 and grow.
  - A `first()` lookup returns the lowest matching id.
  - What `store` reads from the request follows the PHP code. A key that is
    absent when it is read ends the action with `UndefinedKey`. PHP 8 emits an
    "Undefined array key" warning there, which Laravel's error handler turns
    into an ErrorException. Whatever rows were already created stay.
- `InvoiceController` (`invoice_controller.dfy`): class `Database`, with the
  three tables as fields.
  - Its `Store`, `PrepareInvoice`, `Destroy`, `CreateClient`, `CreateAddress`
    and `CreateInvoice` methods update those fields in place. `Store` is
    `PrepareInvoice` (everything before `Invoice::create`) followed by
    `CreateInvoice`.
  - Each method is proved to produce exactly the state the `InvoiceTables`
    function describes.
  - `Store` and `Destroy` also keep the tables' invariant `TablesValid`:
    ids increase, invoice ids are distinct, and every reference resolves.

Behaviour of the code that the model keeps as written:

- **Sender lookup.** For a pending invoice, `store` looks up the sender
  address using the client address's fields (InvoiceController.php:43-47).
  - When the client address already exists, the invoice's sender reference
    is that same row, whatever `sender_address` held (`PendingSharesAddressRow`,
    `SenderAddressIgnored`).
  - When it does not exist, a fresh row is created from `sender_address`
    (`SenderRowFields`).
- **Total.** `total_cents` is always the constant 100
  (InvoiceController.php:81). The tests expect the sum of quantity ×
  unit price over the line items. `FixtureTotalIgnored` shows the stored 100
  beside the 22000 that the test fixture's items add up to.
- **Id letters.** `Str::upper(Str::random(2))` picks from letters and digits,
  so a generated id can begin with a digit and then fails the id regex.
  `DrawnDigitBreaksShape` gives such a draw.
  `GeneratedIdShape` states the shape when every drawn character is a letter.
- **Trailing newline in the id regex.** The PCRE pattern `^[A-Z]{2}[0-9]{4}$`
  also accepts the id followed by one `"\n"` (`MatchesIdRegex`, `UpdateRequiresId`).
- **Status-only draft.** A draft with only a status passes validation
  (`DraftNeedsOnlyStatus`). `store` then reads `client_name`, which is absent,
  so it fails before inserting anything (`StatusOnlyDraftFails`). The test at
  InvoiceCrudTest.php:338-352 expects 201.
- **Null line items.** `line_items` has no `nullable`, so a null
  `line_items` is rejected even on a draft (`LineItemsKey`).
- **Destroy.** `destroy` deletes the invoice row only. No `deleting` hook
  exists in Invoice.php, so clients and addresses stay.

## Model

| member | source | states |
|---|---|---|
| Text.PadLeft | app/Models/Invoice.php:50 | str_pad with STR_PAD_LEFT: a string already as wide is kept; otherwise the result has the width, ends with the input, and is padded at the front |
| Text.DecimalRoundTrip | app/Models/Invoice.php:50 | the decimal text of n reads back as n |
| Text.Pad4RoundTrip | app/Models/Invoice.php:50 | every number 0..9999 pads to exactly four digits that read back as the number |
| Text.Pad4Injective | app/Models/Invoice.php:50 | distinct numbers give distinct four-digit parts |
| Text.DecimalString | app/Models/Invoice.php:50 | the decimal text PHP gives a non-negative integer: at least one character, all digits |
| Text.Pad4 | app/Models/Invoice.php:50 | the four-digit part of an id: the number's decimal text padded on the left with zeros to width 4 |
| Text.ParseDigitsBound | app/Models/Invoice.php:50 | a k-digit string denotes a number below 10^k |
| Text.ParseDigitsInjective | app/Models/Invoice.php:50 | digit strings of equal length that denote the same number are equal |
| Text.Pad4OfDigits | app/Models/Invoice.php:50 | every four-digit string is the padding of the number 0..9999 it denotes, so str_pad reaches every four-digit part |
| Text.LeadingZeros | app/Models/Invoice.php:50 | zero padding does not change the value the digits denote |
| InvoiceIds.Upper | app/Models/Invoice.php:48 | Str::upper on one character: a letter becomes upper case and a digit stays a digit; the result is upper case exactly when the input was a letter |
| InvoiceIds.UpperString | app/Models/Invoice.php:48 | Str::upper keeps the length and maps each character |
| InvoiceIds.CandidateId | app/Models/Invoice.php:48-51 | the id one pass of the loop body builds: the upper-cased two drawn characters followed by the padded number |
| InvoiceIds.FirstFreshIndex | app/Models/Invoice.php:46-52 | the index of the first draw whose candidate is not taken; every earlier candidate is taken |
| InvoiceIds.GeneratedId | app/Models/Invoice.php:44-55 | the id generateCustomId returns: not taken, and the candidate of one of the draws |
| InvoiceIds.GenerateCustomId | app/Models/Invoice.php:44-55 | the loop returns an id not already taken, namely the first untaken candidate among the draws, and every earlier candidate was taken |
| InvoiceIds.CandidateIdFormat | app/Models/Invoice.php:48-51 | a candidate is six characters: two upper-case letters or digits, then four digits that read back as the drawn number |
| InvoiceIds.CandidateIdShape | app/Models/Invoice.php:48-51 | when both drawn characters are letters, the candidate has the id shape |
| InvoiceIds.DrawnDigitBreaksShape | app/Models/Invoice.php:48 | a draw of "a1" and 42 is legal and gives "A10042", which does not have the id shape |
| InvoiceIds.GeneratedIdFormat | app/Models/Invoice.php:44-55 | the generated id is fresh, six characters long, and ends in four digits |
| InvoiceIds.GeneratedIdShape | tests/Feature/_InvoiceIdTest.php:32-45 | with letter-only draws the generated id matches `^[A-Z]{2}\d{4}$` |
| InvoiceIds.SuccessiveIdsDistinct | tests/Feature/_InvoiceIdTest.php:34-45 | two invoices created one after the other get different ids |
| InvoiceIds.KeyIdShape | database/migrations/2025_09_20_222003_create_invoices_table.php:19 | each pair of letters and each number 0..9999 gives an id of the shape, with those letters and that number |
| InvoiceIds.SpaceCardinality | app/Models/Invoice.php:39-41 | the ids KeyId builds from two letters and a number 0..9999 are 26·26·10000 distinct strings |
| InvoiceIds.IdShapeSpace | app/Models/Invoice.php:39-41 | a string has the id shape iff KeyId builds it, so the shape admits exactly 26·26·10000 ids |
| InvoiceIds.LetterDraw | app/Models/Invoice.php:48-51 | a draw of two letters and a number builds the KeyId of those letters and that number |
| InvoiceIds.FreeIdExists | app/Models/Invoice.php:39-41 | while fewer than 26·26·10000 ids are taken, an id of the shape is free, and some well-formed draw builds a free candidate, so a loop that reaches that draw ends |
| RequestRules.NullableRules | app/Http/Requests/InvoiceRequest.php:42 | a key with the nullable and required_if:status,pending rules passes exactly when it is absent and not pending, or present and every other rule holds |
| RequestRules.TextKey | app/Http/Requests/InvoiceRequest.php:54-56 | a string key with a maximum passes iff it is absent (allowed only unless pending) or a string of at most that length |
| RequestRules.DateKey | app/Http/Requests/InvoiceRequest.php:53 | issue_date passes iff absent (unless pending) or a Y-m-d date |
| RequestRules.PaymentTermsKey | app/Http/Requests/InvoiceRequest.php:55 | payment_terms passes iff absent (unless pending) or an integer in 0..36525 |
| RequestRules.AmountKey | app/Http/Requests/InvoiceRequest.php:71-72 | quantity and price_unit_cents pass iff absent (unless pending) or a non-negative integer |
| RequestRules.EmailKey | app/Http/Requests/InvoiceRequest.php:57 | client_email passes iff absent (unless pending) or a valid address of at most 100 characters |
| RequestRules.ArrayKey | app/Http/Requests/InvoiceRequest.php:59-68 | an address key passes iff absent (unless pending) or an array |
| RequestRules.LineItemsKey | app/Http/Requests/InvoiceRequest.php:69 | line_items passes iff it is an array, or it is missing and the status is not pending; null is rejected |
| RequestRules.StatusKey | app/Http/Requests/InvoiceRequest.php:43-58 | status passes iff it is a string among the allowed ones |
| RequestRules.IdKey | app/Http/Requests/InvoiceRequest.php:47-48 | id passes iff it is a string matching the id regex |
| RequestRules.AddressKeys | app/Http/Requests/InvoiceRequest.php:59-68 | an address and its four fields pass iff the address is accepted |
| RequestRules.ItemKeys | app/Http/Requests/InvoiceRequest.php:70-72 | the three wildcard rules pass on an entry iff the entry is accepted |
| RequestRules.KeyPassesIff | app/Http/Requests/InvoiceRequest.php:52-73 | each key's rule list passes iff that key is accepted |
| RequestRules.KeysGiveSenderAddress | app/Http/Requests/InvoiceRequest.php:59-63 | the sender address keys passing gives an accepted sender address |
| RequestRules.KeysGiveClientAddress | app/Http/Requests/InvoiceRequest.php:64-68 | the client address keys passing gives an accepted client address |
| RequestRules.KeysGiveItems | app/Http/Requests/InvoiceRequest.php:69-72 | the line item keys passing gives accepted line items and entries |
| RequestRules.KeysGiveAccepted | app/Http/Requests/InvoiceRequest.php:52-73 | all keys passing gives an accepted request |
| RequestRules.AcceptedGivesKeys | app/Http/Requests/InvoiceRequest.php:52-73 | an accepted request passes every key |
| RequestRules.RuleList | app/Http/Requests/InvoiceRequest.php:53-72 | the rule list of each key, as rules() writes it, with the allowed statuses chosen by method |
| RequestRules.Rules | app/Http/Requests/InvoiceRequest.php:40-76 | the table rules() returns: every key, plus id under PUT and PATCH, each with its rule list |
| RequestRules.Passes | app/Http/Requests/InvoiceRequest.php:40-76 | validation of a request: every key of the method's table passes its rule list under the framework's skip and implicit-rule semantics |
| RequestRules.Accepted | app/Http/Requests/InvoiceRequest.php:40-76 | the independent key-by-key description of a valid request: status allowed, id for updates, each field absent (only unless pending) or within its bounds, addresses and line items accepted |
| RequestRules.RulesTable | app/Http/Requests/InvoiceRequest.php:46-52 | the table holds an id key exactly for PUT and PATCH, and every other key always, each with its rule list |
| RequestRules.PassesIffAccepted | app/Http/Requests/InvoiceRequest.php:40-76 | a request passes the rule table iff it is accepted by the key-by-key description, for every method |
| RequestRules.StatusAllowed | app/Http/Requests/InvoiceRequest.php:43-50 | a passing request has a string status among the method's allowed ones; under POST it is draft or pending |
| RequestRules.PostRejectsPaid | tests/Feature/InvoiceCrudTest.php:524-528 | a POST with status paid fails validation |
| RequestRules.UpdateRequiresId | app/Http/Requests/InvoiceRequest.php:45-48 | a passing PUT or PATCH carries an id matching the regex: six characters, or seven ending in a newline |
| RequestRules.PendingIsComplete | tests/Feature/InvoiceCrudTest.php:459-522 | a passing pending request has every field filled and its line items and their fields present |
| RequestRules.PassedValuesBounded | app/Http/Requests/InvoiceRequest.php:53-72 | every value present in a passing request lies within its rule's bounds: dates, terms 0..36525, description up to 2000 characters, name, email, the eight address fields and each item's name up to 100, and non-negative quantities and prices |
| RequestRules.DraftNeedsOnlyStatus | tests/Feature/InvoiceCrudTest.php:338-347 | a status-only draft passes POST, and also PUT and PATCH when it carries an id; PUT without an id fails, and a POST without a status fails |
| RequestRules.FixtureAddressesAccepted | tests/Feature/InvoiceCrudTest.php:35-95 | the fixture's addresses are accepted |
| RequestRules.FixtureItemsAccepted | tests/Feature/InvoiceCrudTest.php:35-95 | the fixture's line items are accepted |
| RequestRules.FixtureIsAccepted | tests/Feature/InvoiceCrudTest.php:35-95 | the fixture is accepted as a draft and as a pending invoice |
| RequestRules.FixtureAccepted | tests/Feature/InvoiceCrudTest.php:354-528 | the fixture passes as draft and as pending, and fails as paid |
| InvoiceTables.AddClient | app/Http/Controllers/Api/InvoiceController.php:59-62 | Client::create appends a row with the next id and changes nothing else |
| InvoiceTables.AddAddress | app/Http/Controllers/Api/InvoiceController.php:65-78 | Address::create appends a row with the next id and changes nothing else |
| InvoiceTables.AddInvoice | app/Models/Invoice.php:30-35 | Invoice::create through the creating hook: appends the given row with its id replaced by a fresh generated one, and changes nothing else |
| InvoiceTables.FirstClientMatch | app/Http/Controllers/Api/InvoiceController.php:39-41 | the position of the first client with that name and email; no earlier row matches |
| InvoiceTables.FirstAddressMatch | app/Http/Controllers/Api/InvoiceController.php:43-53 | the position of the first address with those four fields; no earlier row matches |
| InvoiceTables.FindClient | app/Http/Controllers/Api/InvoiceController.php:39-41 | the client query with first(): an id of a matching row, or none when no row matches |
| InvoiceTables.FindAddress | app/Http/Controllers/Api/InvoiceController.php:43-53 | the address query on the four columns with first(): an id of a matching row, or none when no row matches |
| InvoiceTables.FindClientLowest | app/Http/Controllers/Api/InvoiceController.php:39-41 | the lookup finds a client iff one matches, and then returns the lowest matching id |
| InvoiceTables.FindAddressLowest | app/Http/Controllers/Api/InvoiceController.php:43-53 | the lookup finds an address iff one has those fields, and then returns the lowest such id |
| InvoiceTables.DueDate | app/Http/Controllers/Api/InvoiceController.php:86 | issue_date plus payment_terms days, as day numbers, counting back for negative terms; none in every other case |
| InvoiceTables.PassedPendingDueDate | app/Http/Controllers/Api/InvoiceController.php:86 | a pending invoice that passed validation always gets a due date, equal to its issue day plus its terms and so 0 to 36525 days later |
| InvoiceTables.BeforeInsert | app/Http/Controllers/Api/InvoiceController.php:32-87 | store up to Invoice::create either stops at an absent key or is ready to insert a row, and in both cases the invoices are untouched |
| InvoiceTables.AfterStore | app/Http/Controllers/Api/InvoiceController.php:32-105 | the tables and the response after store: the status branch, the pending lookups keyed on client_address, the creates, the invoice insert with total 100, and the UndefinedKey exit wherever an absent key is read |
| InvoiceTables.StoreOnlyAppends | app/Http/Controllers/Api/InvoiceController.php:32-105 | store only appends: at most one client, two addresses and one invoice, and no invoice when it fails |
| InvoiceTables.StoreAppendsInvoice | app/Http/Controllers/Api/InvoiceController.php:81-104 | a successful store appends one invoice whose fresh generated id is returned. The invoice carries the submitted status, dates, description and terms, total 100, and references that resolve |
| InvoiceTables.DraftCreatesFreshRows | tests/Feature/InvoiceCrudTest.php:303-336 | a stored draft creates one new client and two new addresses, with ids above every existing one, and references them |
| InvoiceTables.PendingReusesClient | tests/Feature/InvoiceCrudTest.php:389-453 | a stored pending invoice whose client exists adds no client and references the lowest matching client |
| InvoiceTables.PendingWithoutMatchCreates | tests/Feature/InvoiceCrudTest.php:354-387 | a stored pending invoice with no matching client or client address creates one client and two addresses and references them |
| InvoiceTables.PendingSharesAddressRow | app/Http/Controllers/Api/InvoiceController.php:43-53 | when the client address exists, no address is added and sender and client reference the same lowest matching row |
| InvoiceTables.SenderRowFields | app/Http/Controllers/Api/InvoiceController.php:64-71 | when the sender row is created, it holds the submitted sender address |
| InvoiceTables.SenderAddressIgnored | app/Http/Controllers/Api/InvoiceController.php:43-47 | for a pending invoice whose client address exists, the sender reference never holds a different submitted sender address |
| InvoiceTables.AddClientValid | app/Http/Controllers/Api/InvoiceController.php:59-62 | adding a client keeps the tables valid, and the new id and every old id resolve |
| InvoiceTables.AddAddressValid | app/Http/Controllers/Api/InvoiceController.php:65-78 | adding an address keeps the tables valid, and the new id and every old id resolve |
| InvoiceTables.AddInvoiceValid | app/Models/Invoice.php:30-35 | inserting an invoice with resolving references keeps the tables valid |
| InvoiceTables.FoundClientExists | app/Http/Controllers/Api/InvoiceController.php:39-41 | a found client id resolves |
| InvoiceTables.FoundAddressExists | app/Http/Controllers/Api/InvoiceController.php:43-53 | a found address id resolves |
| InvoiceTables.BeforeInsertValid | app/Http/Controllers/Api/InvoiceController.php:37-79 | the client and address creates keep the tables valid, and the row about to be inserted refers to a client and two addresses that exist |
| InvoiceTables.StoreAsWrittenNeverCreates | app/Models/Invoice.php:52 | with the product_id query as written, no store answers with an invoice id or inserts an invoice |
| InvoiceTables.AsWrittenDiffersOnlyAtInsert | app/Models/Invoice.php:52 | as written and as intended, store leaves the same clients and addresses; the query error comes exactly where the intended store creates an invoice, and the absent-key errors coincide |
| InvoiceTables.FixtureDraftFailsAsWritten | app/Models/Invoice.php:52 | on any tables the test's complete draft is created by the intended store, while as written it adds one client and two addresses and then fails with no invoice |
| InvoiceTables.StorePreservesValid | app/Http/Controllers/Api/InvoiceController.php:32-105 | store keeps the tables valid, whether it succeeds or fails midway |
| InvoiceTables.DraftStoreSucceedsIffKeysPresent | app/Http/Controllers/Api/InvoiceController.php:58-98 | a draft store succeeds iff every key it reads is present |
| InvoiceTables.StatusOnlyDraftFails | tests/Feature/InvoiceCrudTest.php:338-352 | storing a status-only draft fails and leaves the tables unchanged |
| InvoiceTables.PassedPendingIsStored | app/Http/Controllers/Api/InvoiceController.php:37-98 | every pending request that passes validation is stored |
| InvoiceTables.SuccessiveStoresDistinct | app/Http/Controllers/Api/InvoiceController.php:101-104 | two successful stores return different invoice ids |
| InvoiceTables.FixtureTotalIgnored | tests/Feature/InvoiceCrudTest.php:132-154 | storing the fixture gives total 100, while its items sum to 22000; the due date is the issue day plus 30 |
| InvoiceTables.LineItemsTotal | tests/Feature/InvoiceCrudTest.php:144-154 | the total the tests expect: the sum of quantity times unit price over the line items |
| InvoiceTables.LineItemsTotalAppend | tests/Feature/InvoiceCrudTest.php:144-151 | the expected total is additive: the total of two lists of items is the sum of their totals |
| InvoiceTables.FixtureItemsTotal | tests/Feature/InvoiceCrudTest.php:35-95 | the test fixture's three items add up to 22000 cents |
| InvoiceTables.CreatingHookOverwritesId | app/Models/Invoice.php:30-35 | whatever id the row carried, the hook replaces it with a fresh six-character id and keeps the earlier rows |
| InvoiceTables.RemoveInvoice | app/Http/Controllers/Api/InvoiceController.php:144 | deleting keeps exactly the rows with another id |
| InvoiceTables.AfterDestroy | app/Http/Controllers/Api/InvoiceController.php:141-146 | the tables after destroy and whether the id existed: an unknown id changes nothing, a known one loses its invoice rows |
| InvoiceTables.RemoveKeepsDistinct | app/Http/Controllers/Api/InvoiceController.php:144 | deleting keeps the invoice ids distinct |
| InvoiceTables.DestroyRemovesOnlyInvoice | app/Http/Controllers/Api/InvoiceController.php:141-146 | destroy reports whether the id existed; afterwards it is gone, every other invoice stays, clients and addresses are unchanged, and an unknown id changes nothing |
| InvoiceTables.ValidWithFewerInvoices | app/Http/Controllers/Api/InvoiceController.php:144 | dropping invoices with distinct ids keeps the tables valid |
| InvoiceTables.DestroyPreservesValid | app/Http/Controllers/Api/InvoiceController.php:141-146 | destroy keeps the tables valid |
| InvoiceController.Database.CreateClient | app/Http/Controllers/Api/InvoiceController.php:59-62 | appends the client row in place, returns its id and keeps the tables valid |
| InvoiceController.Database.CreateAddress | app/Http/Controllers/Api/InvoiceController.php:65-78 | appends the address row in place, returns its id and keeps the tables valid |
| InvoiceController.Database.CreateInvoice | app/Models/Invoice.php:30-35 | runs the creating hook, then inserts the row with the generated id, which was not yet taken |
| InvoiceController.Database.PrepareInvoice | app/Http/Controllers/Api/InvoiceController.php:32-87 | the new state, the readiness flag and the row to insert are exactly those of BeforeInsert, and the tables stay valid |
| InvoiceController.Database.Store | app/Http/Controllers/Api/InvoiceController.php:32-105 | the new state and the outcome are exactly those of AfterStore; the tables only grow, and stay valid |
| InvoiceController.Database.Destroy | app/Http/Controllers/Api/InvoiceController.php:141-146 | the new state and the found flag are exactly those of AfterDestroy; the tables stay valid |

## Left out

- `update`: its body in InvoiceController.php:123-134 is only comments, so there is nothing to model. The rule that forbids moving a pending or paid invoice back to draft exists only in the tests.
- `index` and `show` only read rows and format them through the JSON resources. The resources, seeders, factories and the front-end are not part of this model.
- The deletion cascade described at InvoiceController.php:139-143 is not in Invoice.php, which registers only a creating hook. Destroy therefore removes only the invoice row.
- Line item rows are never created by `store` (the TODO at InvoiceController.php:82-83), so the model has no line item table. `LineItemsTotal` is the total the tests expect.
- `prepareForValidation`: dates are modelled as day numbers, so an issue_date `Date(day)` is taken to be already in Y-m-d form. `strtotime` parsing is not modelled.
- InvoiceTables.DueDate: an issue date plus integer terms gives that day plus the terms; negative terms, which validation rejects, count back, as `strtotime` reads "+-N days". Every other combination gives no due date, which covers two different source behaviours:
  - With issue_date null or blank, which a draft may have, `strtotime(" +N days")` counts from the current time, so the source stores a clock-dependent date.
  - Where `strtotime` fails, `date` formats the epoch.
- The unique index on the four address columns (create_addresses_table.php:22) is not modelled. Against that schema, two kinds of draft fail on an address insert: one that repeats an existing address, and one whose sender and client addresses are equal. DraftCreatesFreshRows describes the store without the index.
- The email rule's check is a parameter (`isEmail`), because the framework's address validator is not part of this model.
- Numeric strings accepted by the integer rule are modelled as `Integer`. The framework's ConvertEmptyStringsToNull and TrimStrings middleware are not modelled. Blank strings are treated as empty when a rule is skipped.
- SQL collation, type coercion in `where` comparisons, NOT NULL and unique constraints, and foreign keys are not modelled. Lookups compare values exactly.
- The Eloquent relations in Address.php and Client.php are not used by `store` or `destroy` and are not modelled.
- InvoiceIds.GenerateCustomId: the loop tests a candidate against the invoice ids, the evidently intended check. The query as written names a missing product_id column (see "## Findings"); AfterStoreAsWritten models that.
- InvoiceIds.GeneratedId: likewise describes the intended check, not the product_id query as written.
- InvoiceTables.AfterStore: stores with the intended id check. The code as written fails at every invoice insert; that is AfterStoreAsWritten (see "## Findings").
- InvoiceIds.GenerateCustomId: the loop's random draws are a finite parameter. The method requires that some draw in it is fresh. A run that never meets a fresh candidate is not modelled.
- Concurrency: two requests generating the same id at the same time, and transactions, are not modelled.
- HTTP responses beyond the outcome are not modelled: status codes, JSON bodies, and the 404 from route binding in `destroy`, which is the found flag.

## Findings

| source | as written | input that shows it | evidently intended | confidence | as-written member | corrected member |
|---|---|---|---|---|---|---|
| app/Models/Invoice.php:52 | the collision check queries a `product_id` column, which the invoices table lacks (its key is `id`, create_invoices_table.php:19), so every `Invoice::create` raises a query error after `store` has inserted the client and address rows | the test's complete draft on any tables: one client and two addresses are added and no invoice is stored | a candidate is redrawn when it is already an invoice id, and the store answers 201 with a fresh id | high; not executed | InvoiceTables.FixtureDraftFailsAsWritten | InvoiceIds.GenerateCustomId |
