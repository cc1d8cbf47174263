/**
 * The three tables InvoiceController::store and destroy write
 * (app/Http/Controllers/Api/InvoiceController.php), as values: what a store
 * or a destroy leaves behind, stated as functions of the tables before it.
 *
 * Rows carry the request's own Values. Auto-increment ids start at 1 and
 * grow by one per insert; "the first match" of a query is the lowest id.
 */
module InvoiceTables {
  import opened Text
  import opened InvoiceIds
  import opened RequestRules

  datatype Option<T> = None | Some(value: T)

  datatype ClientRow = ClientRow(id: nat, fullName: Value, email: Value)

  datatype AddressRow = AddressRow(id: nat, fields: Address)

  datatype InvoiceRow = InvoiceRow(
    id: string,
    issueDate: Value,
    dueDate: Option<int>,
    description: Value,
    paymentTerms: Value,
    clientId: nat,
    status: Value,
    senderAddressId: nat,
    clientAddressId: nat,
    totalCents: int)

  datatype Tables = Tables(
    clients: seq<ClientRow>,
    addresses: seq<AddressRow>,
    invoices: seq<InvoiceRow>,
    nextClientId: nat,
    nextAddressId: nat)

  const EmptyTables := Tables([], [], [], 1, 1)

  /** The ids the invoices table holds. */
  function IdsOf(invoices: seq<InvoiceRow>): set<string> {
    set i | 0 <= i < |invoices| :: invoices[i].id
  }

  predicate HasClient(t: Tables, id: nat) {
    exists i :: 0 <= i < |t.clients| && t.clients[i].id == id
  }

  predicate HasAddress(t: Tables, id: nat) {
    exists i :: 0 <= i < |t.addresses| && t.addresses[i].id == id
  }

  predicate DistinctIds(rows: seq<InvoiceRow>) {
    forall i, j :: 0 <= i < j < |rows| ==> rows[i].id != rows[j].id
  }

  /** Ids grow along each table and stay below the next id; invoice ids are distinct; every reference resolves. */
  predicate TablesValid(t: Tables) {
    && (forall i, j :: 0 <= i < j < |t.clients| ==> t.clients[i].id < t.clients[j].id)
    && (forall i :: 0 <= i < |t.clients| ==> t.clients[i].id < t.nextClientId)
    && (forall i, j :: 0 <= i < j < |t.addresses| ==> t.addresses[i].id < t.addresses[j].id)
    && (forall i :: 0 <= i < |t.addresses| ==> t.addresses[i].id < t.nextAddressId)
    && DistinctIds(t.invoices)
    && (forall i :: 0 <= i < |t.invoices| ==>
          && HasClient(t, t.invoices[i].clientId)
          && HasAddress(t, t.invoices[i].senderAddressId)
          && HasAddress(t, t.invoices[i].clientAddressId))
  }

  // ---- Inserts ----

  /** Client::create: a row with the next id. */
  function AddClient(t: Tables, fullName: Value, email: Value): (u: Tables)
    ensures u.clients == t.clients + [ClientRow(t.nextClientId, fullName, email)]
    ensures u.nextClientId == t.nextClientId + 1
    ensures u.addresses == t.addresses && u.invoices == t.invoices && u.nextAddressId == t.nextAddressId
  {
    t.(clients := t.clients + [ClientRow(t.nextClientId, fullName, email)], nextClientId := t.nextClientId + 1)
  }

  /** Address::create: a row with the next id. */
  function AddAddress(t: Tables, fields: Address): (u: Tables)
    ensures u.addresses == t.addresses + [AddressRow(t.nextAddressId, fields)]
    ensures u.nextAddressId == t.nextAddressId + 1
    ensures u.clients == t.clients && u.invoices == t.invoices && u.nextClientId == t.nextClientId
  {
    t.(addresses := t.addresses + [AddressRow(t.nextAddressId, fields)], nextAddressId := t.nextAddressId + 1)
  }

  /** Invoice::create: the creating hook replaces whatever id the row carries by a generated one. */
  function AddInvoice(t: Tables, row: InvoiceRow, draws: seq<Draw>): (u: Tables)
    requires HasFreshDraw(draws, IdsOf(t.invoices))
    ensures |u.invoices| == |t.invoices| + 1 && u.invoices[..|t.invoices|] == t.invoices
    ensures u.invoices[|t.invoices|].id !in IdsOf(t.invoices)
    ensures u.invoices[|t.invoices|] == row.(id := u.invoices[|t.invoices|].id)
    ensures u.clients == t.clients && u.addresses == t.addresses
    ensures u.nextClientId == t.nextClientId && u.nextAddressId == t.nextAddressId
  {
    t.(invoices := t.invoices + [row.(id := GeneratedId(draws, IdsOf(t.invoices)))])
  }

  // ---- Queries ----

  predicate ClientMatches(row: ClientRow, fullName: Value, email: Value) {
    row.fullName == fullName && row.email == email
  }

  /** The four columns the address queries compare. */
  predicate AddressMatches(row: AddressRow, key: Address) {
    && row.fields.street == key.street
    && row.fields.city == key.city
    && row.fields.postalCode == key.postalCode
    && row.fields.country == key.country
  }

  /** The position of the first matching client, or |rows| when none matches. */
  function FirstClientMatch(rows: seq<ClientRow>, fullName: Value, email: Value): (k: nat)
    ensures k <= |rows|
    ensures k < |rows| ==> ClientMatches(rows[k], fullName, email)
    ensures forall j :: 0 <= j < k ==> !ClientMatches(rows[j], fullName, email)
  {
    if rows == [] then 0
    else if ClientMatches(rows[0], fullName, email) then 0
    else 1 + FirstClientMatch(rows[1..], fullName, email)
  }

  /** The position of the first matching address, or |rows| when none matches. */
  function FirstAddressMatch(rows: seq<AddressRow>, key: Address): (k: nat)
    ensures k <= |rows|
    ensures k < |rows| ==> AddressMatches(rows[k], key)
    ensures forall j :: 0 <= j < k ==> !AddressMatches(rows[j], key)
  {
    if rows == [] then 0
    else if AddressMatches(rows[0], key) then 0
    else 1 + FirstAddressMatch(rows[1..], key)
  }

  /** Client::where('full_name', ..)->where('email', ..)->first(), as an id. */
  function FindClient(rows: seq<ClientRow>, fullName: Value, email: Value): (found: Option<nat>)
    ensures found.Some? ==> exists i :: 0 <= i < |rows| && rows[i].id == found.value && ClientMatches(rows[i], fullName, email)
    ensures found.None? ==> forall i :: 0 <= i < |rows| ==> !ClientMatches(rows[i], fullName, email)
  {
    var k := FirstClientMatch(rows, fullName, email);
    if k < |rows| then Some(rows[k].id) else None
  }

  /** Address::where on the four columns ->first(), as an id. */
  function FindAddress(rows: seq<AddressRow>, key: Address): (found: Option<nat>)
    ensures found.Some? ==> exists i :: 0 <= i < |rows| && rows[i].id == found.value && AddressMatches(rows[i], key)
    ensures found.None? ==> forall i :: 0 <= i < |rows| ==> !AddressMatches(rows[i], key)
  {
    var k := FirstAddressMatch(rows, key);
    if k < |rows| then Some(rows[k].id) else None
  }

  // ---- store ----

  /** `$data[k]['street']` .. `['country']` all succeed only on an array holding the four keys. */
  function AddressRead(p: AddressPart): Option<Address> {
    if p.Fields? && !p.address.street.Missing? && !p.address.city.Missing?
       && !p.address.postalCode.Missing? && !p.address.country.Missing?
    then Some(p.address)
    else None
  }

  /**
   * issue_date plus payment_terms days, with dates as day numbers; negative
   * terms count back, as strtotime reads "+-N days". None stands for every
   * other case: with issue_date null or blank the source counts from the
   * current time, and an unparsable one makes strtotime fail.
   */
  function DueDate(issueDate: Value, paymentTerms: Value): Option<int> {
    if issueDate.Date? && paymentTerms.Integer?
    then Some(issueDate.day + paymentTerms.n)
    else None
  }

  /**
   * A successful store answers with the new invoice's id; reading an absent key
   * raises an error instead. MissingColumn is the query error that the creating
   * hook's product_id lookup raises in the code as written.
   */
  datatype StoreOutcome = Created(invoiceId: string) | UndefinedKey | MissingColumn

  datatype StoreResult = StoreResult(tables: Tables, outcome: StoreOutcome)

  /** The rows a pending store finds before it creates anything; both address lookups use client_address. */
  datatype Lookups = Lookups(client: Option<nat>, sender: Option<nat>, clientAddress: Option<nat>)

  function PendingLookups(t: Tables, r: Request): Lookups
    requires AddressRead(r.clientAddress).Some?
  {
    var key := AddressRead(r.clientAddress).value;
    Lookups(FindClient(t.clients, r.clientName, r.clientEmail), FindAddress(t.addresses, key), FindAddress(t.addresses, key))
  }

  /** Where store stands when it reaches Invoice::create: stopped by an absent key, or about to insert a row. */
  datatype Staged = Stopped(tables: Tables) | Ready(tables: Tables, row: InvoiceRow)

  /** store up to Invoice::create: the status branch, the pending lookups, the client and address creates. */
  function BeforeInsert(t: Tables, r: Request): (s: Staged)
    ensures s.tables.invoices == t.invoices
  {
    if r.status.Missing? then Stopped(t)
    else if IsPending(r) && (r.clientName.Missing? || r.clientEmail.Missing? || AddressRead(r.clientAddress).None?) then
      Stopped(t)
    else
      var found := if IsPending(r) then PendingLookups(t, r) else Lookups(None, None, None);
      if found.client.None? && (r.clientName.Missing? || r.clientEmail.Missing?) then Stopped(t)
      else
        var t1 := if found.client.Some? then t else AddClient(t, r.clientName, r.clientEmail);
        var clientId := if found.client.Some? then found.client.value else t.nextClientId;
        if found.sender.None? && AddressRead(r.senderAddress).None? then Stopped(t1)
        else
          var t2 := if found.sender.Some? then t1 else AddAddress(t1, AddressRead(r.senderAddress).value);
          var senderId := if found.sender.Some? then found.sender.value else t1.nextAddressId;
          if found.clientAddress.None? && AddressRead(r.clientAddress).None? then Stopped(t2)
          else
            var t3 := if found.clientAddress.Some? then t2 else AddAddress(t2, AddressRead(r.clientAddress).value);
            var clientAddressId := if found.clientAddress.Some? then found.clientAddress.value else t2.nextAddressId;
            if r.issueDate.Missing? || r.paymentTerms.Missing? || r.description.Missing? then Stopped(t3)
            else
              Ready(t3, InvoiceRow("", r.issueDate, DueDate(r.issueDate, r.paymentTerms), r.description,
                                   r.paymentTerms, clientId, r.status, senderId, clientAddressId, 100))
  }

  /**
   * The tables and the response after store(r), the random draws deciding the
   * new invoice's id, with the creating hook's collision check on the id column.
   */
  function AfterStore(t: Tables, r: Request, draws: seq<Draw>): StoreResult
    requires HasFreshDraw(draws, IdsOf(t.invoices))
  {
    match BeforeInsert(t, r)
    case Stopped(u) => StoreResult(u, UndefinedKey)
    case Ready(u, row) => StoreResult(AddInvoice(u, row, draws), Created(GeneratedId(draws, IdsOf(u.invoices))))
  }

  /**
   * store as written: the creating hook asks whether an invoice with the
   * candidate as its product_id exists, and the invoices table has no such
   * column, so Invoice::create raises a query error once the client and
   * address rows are in. The draws play no part.
   */
  function AfterStoreAsWritten(t: Tables, r: Request): StoreResult
  {
    match BeforeInsert(t, r)
    case Stopped(u) => StoreResult(u, UndefinedKey)
    case Ready(u, _) => StoreResult(u, MissingColumn)
  }

  /** As written, no store ever answers with an invoice id, and none inserts an invoice. */
  lemma StoreAsWrittenNeverCreates(t: Tables, r: Request)
    ensures !AfterStoreAsWritten(t, r).outcome.Created?
    ensures AfterStoreAsWritten(t, r).tables.invoices == t.invoices
  {
  }

  /**
   * The code as written and the intended check agree on every row but the new
   * invoice: the same clients and addresses are left behind, and the query error
   * comes exactly where the intended store creates an invoice.
   */
  lemma AsWrittenDiffersOnlyAtInsert(t: Tables, r: Request, draws: seq<Draw>)
    requires HasFreshDraw(draws, IdsOf(t.invoices))
    ensures AfterStoreAsWritten(t, r).tables == AfterStore(t, r, draws).tables.(invoices := t.invoices)
    ensures AfterStoreAsWritten(t, r).outcome == MissingColumn <==> AfterStore(t, r, draws).outcome.Created?
    ensures AfterStoreAsWritten(t, r).outcome == UndefinedKey <==> AfterStore(t, r, draws).outcome == UndefinedKey
  {
  }

  /**
   * The test's complete draft, on any tables: the intended store creates the
   * invoice, while the code as written inserts one client and two addresses and
   * then fails with no invoice.
   */
  lemma FixtureDraftFailsAsWritten(t: Tables, issueDay: int, draws: seq<Draw>)
    requires HasFreshDraw(draws, IdsOf(t.invoices))
    ensures AfterStore(t, Fixture(issueDay, "draft"), draws).outcome.Created?
    ensures var w := AfterStoreAsWritten(t, Fixture(issueDay, "draft"));
      && w.outcome == MissingColumn
      && w.tables.invoices == t.invoices
      && |w.tables.clients| == |t.clients| + 1
      && |w.tables.addresses| == |t.addresses| + 2
  {
    var r := Fixture(issueDay, "draft");
    assert !IsPending(r) && DraftReadsPresent(r);
    DraftStoreSucceedsIffKeysPresent(t, r, draws);
  }

  // ---- destroy ----

  function RemoveInvoice(rows: seq<InvoiceRow>, id: string): (kept: seq<InvoiceRow>)
    ensures |kept| <= |rows|
    ensures forall k :: 0 <= k < |kept| ==> kept[k] in rows && kept[k].id != id
    ensures forall k :: 0 <= k < |rows| && rows[k].id != id ==> rows[k] in kept
  {
    if rows == [] then []
    else if rows[0].id == id then RemoveInvoice(rows[1..], id)
    else [rows[0]] + RemoveInvoice(rows[1..], id)
  }

  /** destroy: route binding answers 404 for an unknown id; otherwise the invoice is deleted, and nothing else. */
  function AfterDestroy(t: Tables, id: string): (Tables, bool)
  {
    if id in IdsOf(t.invoices) then (t.(invoices := RemoveInvoice(t.invoices, id)), true) else (t, false)
  }

  // ---- The test's expected total, which store does not compute ----

  function ItemAmount(v: Value): int { if v.Integer? then v.n else 0 }

  /** The sum of quantity times unit price over the line items. */
  function LineItemsTotal(items: seq<LineItem>): int {
    if items == [] then 0
    else LineItemsTotal(items[..|items| - 1])
         + ItemAmount(items[|items| - 1].quantity) * ItemAmount(items[|items| - 1].priceUnitCents)
  }

  /** Line totals add up: the total of two lists is the sum of their totals. */
  lemma {:induction false} LineItemsTotalAppend(a: seq<LineItem>, b: seq<LineItem>)
    ensures LineItemsTotal(a + b) == LineItemsTotal(a) + LineItemsTotal(b)
  {
    if b != [] {
      assert (a + b)[..|a + b| - 1] == a + b[..|b| - 1];
      assert (a + b)[|a + b| - 1] == b[|b| - 1];
      LineItemsTotalAppend(a, b[..|b| - 1]);
    } else {
      assert a + b == a;
    }
  }

  /** A pending invoice that passed validation always gets a due date, 0 to 36525 days after its issue date. */
  lemma PassedPendingDueDate(m: HttpMethod, r: Request, isEmail: string -> bool)
    requires IsPending(r) && Passes(m, r, isEmail)
    ensures r.issueDate.Date? && r.paymentTerms.Integer?
    ensures DueDate(r.issueDate, r.paymentTerms) == Some(r.issueDate.day + r.paymentTerms.n)
    ensures r.issueDate.day <= DueDate(r.issueDate, r.paymentTerms).value <= r.issueDate.day + 36525
  {
    PendingIsComplete(m, r, isEmail);
    PassedValuesBounded(m, r, isEmail);
  }

  // ---- Properties of the queries ----

  /** The client query finds a row exactly when one matches, and then the lowest-id one. */
  lemma FindClientLowest(rows: seq<ClientRow>, fullName: Value, email: Value)
    requires forall i, j :: 0 <= i < j < |rows| ==> rows[i].id < rows[j].id
    ensures FindClient(rows, fullName, email).Some? <==> exists i :: 0 <= i < |rows| && ClientMatches(rows[i], fullName, email)
    ensures FindClient(rows, fullName, email).Some? ==>
      var id := FindClient(rows, fullName, email).value;
      && (exists i :: 0 <= i < |rows| && rows[i].id == id && ClientMatches(rows[i], fullName, email))
      && (forall j :: 0 <= j < |rows| && ClientMatches(rows[j], fullName, email) ==> id <= rows[j].id)
  {
    var k := FirstClientMatch(rows, fullName, email);
    if k < |rows| {
      forall j | 0 <= j < |rows| && ClientMatches(rows[j], fullName, email) ensures rows[k].id <= rows[j].id {
        assert !(j < k);
      }
    }
  }

  /** The address query finds a row exactly when all four columns equal the key, and then the lowest-id one. */
  lemma FindAddressLowest(rows: seq<AddressRow>, key: Address)
    requires forall i, j :: 0 <= i < j < |rows| ==> rows[i].id < rows[j].id
    ensures FindAddress(rows, key).Some? <==> exists i :: 0 <= i < |rows| && rows[i].fields == key
    ensures FindAddress(rows, key).Some? ==>
      var id := FindAddress(rows, key).value;
      && (exists i :: 0 <= i < |rows| && rows[i].id == id && rows[i].fields == key)
      && (forall j :: 0 <= j < |rows| && rows[j].fields == key ==> id <= rows[j].id)
  {
    var k := FirstAddressMatch(rows, key);
    if k < |rows| {
      forall j | 0 <= j < |rows| && rows[j].fields == key ensures rows[k].id <= rows[j].id {
        assert AddressMatches(rows[j], key);
        assert !(j < k);
      }
    } else {
      forall j | 0 <= j < |rows| ensures rows[j].fields != key {
        assert !AddressMatches(rows[j], key);
      }
    }
  }

  // ---- Properties of store ----

  /** store only appends: every earlier row stays where it was; at most one client, two addresses and one invoice are added. */
  lemma StoreOnlyAppends(t: Tables, r: Request, draws: seq<Draw>)
    requires HasFreshDraw(draws, IdsOf(t.invoices))
    ensures var u := AfterStore(t, r, draws).tables;
      && t.clients <= u.clients && |u.clients| <= |t.clients| + 1
      && t.addresses <= u.addresses && |u.addresses| <= |t.addresses| + 2
      && t.invoices <= u.invoices && |u.invoices| <= |t.invoices| + 1
      && (AfterStore(t, r, draws).outcome.UndefinedKey? ==> u.invoices == t.invoices)
  {
  }

  /** A successful store appends one invoice: a fresh generated id, the submitted values, total 100, references that resolve. */
  lemma StoreAppendsInvoice(t: Tables, r: Request, draws: seq<Draw>)
    requires HasFreshDraw(draws, IdsOf(t.invoices))
    requires AfterStore(t, r, draws).outcome.Created?
    ensures var res := AfterStore(t, r, draws);
      var u := res.tables;
      && |u.invoices| == |t.invoices| + 1
      && u.invoices[..|t.invoices|] == t.invoices
      && var row := u.invoices[|t.invoices|];
      && row.id == res.outcome.invoiceId
      && row.id !in IdsOf(t.invoices)
      && row.id == GeneratedId(draws, IdsOf(t.invoices))
      && row.status == r.status
      && row.totalCents == 100
      && row.issueDate == r.issueDate && row.description == r.description && row.paymentTerms == r.paymentTerms
      && row.dueDate == DueDate(r.issueDate, r.paymentTerms)
      && HasClient(u, row.clientId) && HasAddress(u, row.senderAddressId) && HasAddress(u, row.clientAddressId)
  {
    var u := AfterStore(t, r, draws).tables;
    var row := u.invoices[|t.invoices|];
    if IsPending(r) {
      var key := AddressRead(r.clientAddress).value;
      var kc := FirstClientMatch(t.clients, r.clientName, r.clientEmail);
      var ka := FirstAddressMatch(t.addresses, key);
      if kc < |t.clients| {
        assert u.clients[kc] == t.clients[kc];
      } else {
        assert u.clients[|t.clients|].id == row.clientId;
      }
      if ka < |t.addresses| {
        assert u.addresses[ka] == t.addresses[ka];
      } else {
        assert u.addresses[|t.addresses|].id == row.senderAddressId;
        assert u.addresses[|t.addresses| + 1].id == row.clientAddressId;
      }
    } else {
      assert u.clients[|t.clients|].id == row.clientId;
      assert u.addresses[|t.addresses|].id == row.senderAddressId;
      assert u.addresses[|t.addresses| + 1].id == row.clientAddressId;
    }
  }

  /** A draft store always adds one client and two addresses, past every earlier id, and the invoice points at them. */
  lemma DraftCreatesFreshRows(t: Tables, r: Request, draws: seq<Draw>)
    requires TablesValid(t) && HasFreshDraw(draws, IdsOf(t.invoices))
    requires !IsPending(r) && AfterStore(t, r, draws).outcome.Created?
    ensures var u := AfterStore(t, r, draws).tables;
      && r.senderAddress.Fields? && r.clientAddress.Fields?
      && u.clients == t.clients + [ClientRow(t.nextClientId, r.clientName, r.clientEmail)]
      && u.addresses == t.addresses + [AddressRow(t.nextAddressId, r.senderAddress.address),
                                       AddressRow(t.nextAddressId + 1, r.clientAddress.address)]
      && var row := u.invoices[|t.invoices|];
      && row.clientId == t.nextClientId
      && row.senderAddressId == t.nextAddressId && row.clientAddressId == t.nextAddressId + 1
      && (forall i :: 0 <= i < |t.clients| ==> t.clients[i].id < row.clientId)
      && (forall i :: 0 <= i < |t.addresses| ==> t.addresses[i].id < row.senderAddressId < row.clientAddressId)
  {
    StoreAppendsInvoice(t, r, draws);
  }

  /** A pending store that finds a client with the same name and email adds no client and uses the lowest-id match. */
  lemma PendingReusesClient(t: Tables, r: Request, draws: seq<Draw>)
    requires TablesValid(t) && HasFreshDraw(draws, IdsOf(t.invoices))
    requires IsPending(r) && AfterStore(t, r, draws).outcome.Created?
    requires exists i :: 0 <= i < |t.clients| && ClientMatches(t.clients[i], r.clientName, r.clientEmail)
    ensures var u := AfterStore(t, r, draws).tables;
      var id := u.invoices[|t.invoices|].clientId;
      && u.clients == t.clients
      && (exists i :: 0 <= i < |t.clients| && t.clients[i].id == id && ClientMatches(t.clients[i], r.clientName, r.clientEmail))
      && (forall j :: 0 <= j < |t.clients| && ClientMatches(t.clients[j], r.clientName, r.clientEmail) ==> id <= t.clients[j].id)
  {
    StoreAppendsInvoice(t, r, draws);
    FindClientLowest(t.clients, r.clientName, r.clientEmail);
  }

  /** A pending store that finds no client and no address like client_address creates all three from the submitted fields. */
  lemma PendingWithoutMatchCreates(t: Tables, r: Request, draws: seq<Draw>)
    requires TablesValid(t) && HasFreshDraw(draws, IdsOf(t.invoices))
    requires IsPending(r) && AfterStore(t, r, draws).outcome.Created?
    requires forall i :: 0 <= i < |t.clients| ==> !ClientMatches(t.clients[i], r.clientName, r.clientEmail)
    requires r.clientAddress.Fields?
    requires forall i :: 0 <= i < |t.addresses| ==> t.addresses[i].fields != r.clientAddress.address
    ensures var u := AfterStore(t, r, draws).tables;
      && r.senderAddress.Fields?
      && u.clients == t.clients + [ClientRow(t.nextClientId, r.clientName, r.clientEmail)]
      && u.addresses == t.addresses + [AddressRow(t.nextAddressId, r.senderAddress.address),
                                       AddressRow(t.nextAddressId + 1, r.clientAddress.address)]
      && var row := u.invoices[|t.invoices|];
      && row.clientId == t.nextClientId
      && row.senderAddressId == t.nextAddressId && row.clientAddressId == t.nextAddressId + 1
  {
    FindClientLowest(t.clients, r.clientName, r.clientEmail);
    FindAddressLowest(t.addresses, r.clientAddress.address);
    assert PendingLookups(t, r) == Lookups(None, None, None);
  }

  /**
   * The sender lookup is keyed on client_address: a pending store that finds an address like
   * client_address points both references at that one row, the lowest-id match, and adds no address.
   */
  lemma PendingSharesAddressRow(t: Tables, r: Request, draws: seq<Draw>)
    requires TablesValid(t) && HasFreshDraw(draws, IdsOf(t.invoices))
    requires IsPending(r) && AfterStore(t, r, draws).outcome.Created?
    requires r.clientAddress.Fields?
    requires exists i :: 0 <= i < |t.addresses| && t.addresses[i].fields == r.clientAddress.address
    ensures var u := AfterStore(t, r, draws).tables;
      var row := u.invoices[|t.invoices|];
      && u.addresses == t.addresses
      && row.senderAddressId == row.clientAddressId
      && (exists i :: 0 <= i < |t.addresses| && t.addresses[i].id == row.clientAddressId
                      && t.addresses[i].fields == r.clientAddress.address)
      && (forall j :: 0 <= j < |t.addresses| && t.addresses[j].fields == r.clientAddress.address
                      ==> row.clientAddressId <= t.addresses[j].id)
  {
    StoreAppendsInvoice(t, r, draws);
    FindAddressLowest(t.addresses, r.clientAddress.address);
  }

  /** The invoice's sender row holds the submitted sender_address, but only on a draft or when client_address has no match. */
  lemma SenderRowFields(t: Tables, r: Request, draws: seq<Draw>)
    requires TablesValid(t) && HasFreshDraw(draws, IdsOf(t.invoices))
    requires AfterStore(t, r, draws).outcome.Created?
    requires !IsPending(r) || (r.clientAddress.Fields? &&
               forall i :: 0 <= i < |t.addresses| ==> t.addresses[i].fields != r.clientAddress.address)
    ensures var u := AfterStore(t, r, draws).tables;
      var row := u.invoices[|t.invoices|];
      && r.senderAddress.Fields?
      && |u.addresses| > |t.addresses|
      && u.addresses[|t.addresses|] == AddressRow(row.senderAddressId, r.senderAddress.address)
  {
    StoreAppendsInvoice(t, r, draws);
    if IsPending(r) {
      FindAddressLowest(t.addresses, r.clientAddress.address);
    }
  }

  // ---- store keeps the tables valid ----

  lemma AddClientValid(t: Tables, fullName: Value, email: Value)
    requires TablesValid(t)
    ensures TablesValid(AddClient(t, fullName, email))
    ensures HasClient(AddClient(t, fullName, email), t.nextClientId)
    ensures forall id :: HasClient(t, id) ==> HasClient(AddClient(t, fullName, email), id)
  {
    var u := AddClient(t, fullName, email);
    assert u.clients[|t.clients|].id == t.nextClientId;
    forall id | HasClient(t, id) ensures HasClient(u, id) {
      var i :| 0 <= i < |t.clients| && t.clients[i].id == id;
      assert u.clients[i] == t.clients[i];
    }
    forall i | 0 <= i < |u.invoices| ensures HasClient(u, u.invoices[i].clientId) {
      assert HasClient(t, t.invoices[i].clientId);
    }
  }

  lemma AddAddressValid(t: Tables, fields: Address)
    requires TablesValid(t)
    ensures TablesValid(AddAddress(t, fields))
    ensures HasAddress(AddAddress(t, fields), t.nextAddressId)
    ensures forall id :: HasAddress(t, id) ==> HasAddress(AddAddress(t, fields), id)
  {
    var u := AddAddress(t, fields);
    assert u.addresses[|t.addresses|].id == t.nextAddressId;
    forall id | HasAddress(t, id) ensures HasAddress(u, id) {
      var i :| 0 <= i < |t.addresses| && t.addresses[i].id == id;
      assert u.addresses[i] == t.addresses[i];
    }
    forall i | 0 <= i < |u.invoices|
      ensures HasAddress(u, u.invoices[i].senderAddressId) && HasAddress(u, u.invoices[i].clientAddressId)
    {
      assert HasAddress(t, t.invoices[i].senderAddressId) && HasAddress(t, t.invoices[i].clientAddressId);
    }
  }

  lemma AddInvoiceValid(t: Tables, row: InvoiceRow, draws: seq<Draw>)
    requires TablesValid(t) && HasFreshDraw(draws, IdsOf(t.invoices))
    requires HasClient(t, row.clientId) && HasAddress(t, row.senderAddressId) && HasAddress(t, row.clientAddressId)
    ensures TablesValid(AddInvoice(t, row, draws))
  {
    var u := AddInvoice(t, row, draws);
    var id := GeneratedId(draws, IdsOf(t.invoices));
    forall i | 0 <= i < |t.invoices| ensures t.invoices[i].id != id {
      assert t.invoices[i].id in IdsOf(t.invoices);
    }
  }

  lemma FoundClientExists(t: Tables, fullName: Value, email: Value)
    requires FindClient(t.clients, fullName, email).Some?
    ensures HasClient(t, FindClient(t.clients, fullName, email).value)
  {
    var k := FirstClientMatch(t.clients, fullName, email);
    assert t.clients[k].id == FindClient(t.clients, fullName, email).value;
  }

  lemma FoundAddressExists(t: Tables, key: Address)
    requires FindAddress(t.addresses, key).Some?
    ensures HasAddress(t, FindAddress(t.addresses, key).value)
  {
    var k := FirstAddressMatch(t.addresses, key);
    assert t.addresses[k].id == FindAddress(t.addresses, key).value;
  }

  /** The rows store creates before the insert keep the tables valid, and the row it is about to insert refers to rows that exist. */
  lemma BeforeInsertValid(t: Tables, r: Request)
    requires TablesValid(t)
    ensures TablesValid(BeforeInsert(t, r).tables)
    ensures var s := BeforeInsert(t, r);
      s.Ready? ==> HasClient(s.tables, s.row.clientId) && HasAddress(s.tables, s.row.senderAddressId) && HasAddress(s.tables, s.row.clientAddressId)
  {
    if r.status.Missing? {
    } else if IsPending(r) && (r.clientName.Missing? || r.clientEmail.Missing? || AddressRead(r.clientAddress).None?) {
    } else {
      var found := if IsPending(r) then PendingLookups(t, r) else Lookups(None, None, None);
      if IsPending(r) {
        if found.client.Some? { FoundClientExists(t, r.clientName, r.clientEmail); }
        if found.sender.Some? { FoundAddressExists(t, AddressRead(r.clientAddress).value); }
      }
      if found.client.None? && (r.clientName.Missing? || r.clientEmail.Missing?) {
      } else {
        var t1 := if found.client.Some? then t else AddClient(t, r.clientName, r.clientEmail);
        var clientId := if found.client.Some? then found.client.value else t.nextClientId;
        if found.client.None? { AddClientValid(t, r.clientName, r.clientEmail); }
        assert TablesValid(t1) && HasClient(t1, clientId);
        assert found.sender.Some? ==> HasAddress(t1, found.sender.value);
        if found.sender.None? && AddressRead(r.senderAddress).None? {
          assert BeforeInsert(t, r) == Stopped(t1);
        } else {
          var t2 := if found.sender.Some? then t1 else AddAddress(t1, AddressRead(r.senderAddress).value);
          var senderId := if found.sender.Some? then found.sender.value else t1.nextAddressId;
          if found.sender.None? { AddAddressValid(t1, AddressRead(r.senderAddress).value); }
          assert TablesValid(t2) && HasClient(t2, clientId) && HasAddress(t2, senderId);
          assert found.clientAddress.Some? ==> HasAddress(t2, found.clientAddress.value);
          if found.clientAddress.None? && AddressRead(r.clientAddress).None? {
            assert BeforeInsert(t, r) == Stopped(t2);
          } else {
            var t3 := if found.clientAddress.Some? then t2 else AddAddress(t2, AddressRead(r.clientAddress).value);
            var clientAddressId := if found.clientAddress.Some? then found.clientAddress.value else t2.nextAddressId;
            if found.clientAddress.None? { AddAddressValid(t2, AddressRead(r.clientAddress).value); }
            assert TablesValid(t3) && HasClient(t3, clientId) && HasAddress(t3, senderId) && HasAddress(t3, clientAddressId);
            if r.issueDate.Missing? || r.paymentTerms.Missing? || r.description.Missing? {
              assert BeforeInsert(t, r) == Stopped(t3);
            } else {
              assert BeforeInsert(t, r) == Ready(t3, InvoiceRow("", r.issueDate, DueDate(r.issueDate, r.paymentTerms),
                r.description, r.paymentTerms, clientId, r.status, senderId, clientAddressId, 100));
            }
          }
        }
      }
    }
  }

  /** A store, successful or not, leaves valid tables valid. */
  lemma StorePreservesValid(t: Tables, r: Request, draws: seq<Draw>)
    requires TablesValid(t) && HasFreshDraw(draws, IdsOf(t.invoices))
    ensures TablesValid(AfterStore(t, r, draws).tables)
  {
    BeforeInsertValid(t, r);
    var s := BeforeInsert(t, r);
    if s.Ready? {
      AddInvoiceValid(s.tables, s.row, draws);
    }
  }

  // ---- More about store ----

  /** Everything a draft store reads: status, client name and email, both addresses' four keys, the three invoice keys. */
  predicate DraftReadsPresent(r: Request) {
    && !r.status.Missing? && !r.clientName.Missing? && !r.clientEmail.Missing?
    && AddressRead(r.senderAddress).Some? && AddressRead(r.clientAddress).Some?
    && !r.issueDate.Missing? && !r.paymentTerms.Missing? && !r.description.Missing?
  }

  /** A draft store succeeds exactly when every key it reads is present. */
  lemma DraftStoreSucceedsIffKeysPresent(t: Tables, r: Request, draws: seq<Draw>)
    requires HasFreshDraw(draws, IdsOf(t.invoices))
    requires !IsPending(r)
    ensures AfterStore(t, r, draws).outcome.Created? <==> DraftReadsPresent(r)
  {
  }

  /** A draft holding only its status passes validation, yet store then reads client_name, which is absent. */
  lemma StatusOnlyDraftFails(t: Tables, draws: seq<Draw>)
    requires HasFreshDraw(draws, IdsOf(t.invoices))
    ensures AfterStore(t, Bare(Missing, Text("draft")), draws) == StoreResult(t, UndefinedKey)
  {
    assert !IsPending(Bare(Missing, Text("draft")));
  }

  /** A pending request that passed validation is always stored. */
  lemma PassedPendingIsStored(t: Tables, r: Request, draws: seq<Draw>, isEmail: string -> bool)
    requires HasFreshDraw(draws, IdsOf(t.invoices))
    requires IsPending(r) && Passes(Post, r, isEmail)
    ensures AfterStore(t, r, draws).outcome.Created?
  {
    PendingIsComplete(Post, r, isEmail);
  }

  /** Two stores in a row answer with different invoice ids. */
  lemma SuccessiveStoresDistinct(t: Tables, r1: Request, d1: seq<Draw>, r2: Request, d2: seq<Draw>)
    requires HasFreshDraw(d1, IdsOf(t.invoices)) && AfterStore(t, r1, d1).outcome.Created?
    requires HasFreshDraw(d2, IdsOf(AfterStore(t, r1, d1).tables.invoices))
    requires AfterStore(AfterStore(t, r1, d1).tables, r2, d2).outcome.Created?
    ensures AfterStore(t, r1, d1).outcome.invoiceId != AfterStore(AfterStore(t, r1, d1).tables, r2, d2).outcome.invoiceId
  {
    var u1 := AfterStore(t, r1, d1).tables;
    StoreAppendsInvoice(t, r1, d1);
    StoreAppendsInvoice(u1, r2, d2);
    assert u1.invoices[|t.invoices|].id in IdsOf(u1.invoices);
  }

  /**
   * When a pending store finds client_address among the addresses and sender_address differs from it,
   * the invoice's sender row does not hold the submitted sender_address.
   */
  lemma SenderAddressIgnored(t: Tables, r: Request, draws: seq<Draw>)
    requires TablesValid(t) && HasFreshDraw(draws, IdsOf(t.invoices))
    requires IsPending(r) && AfterStore(t, r, draws).outcome.Created?
    requires r.clientAddress.Fields? && r.senderAddress.Fields? && r.senderAddress.address != r.clientAddress.address
    requires exists i :: 0 <= i < |t.addresses| && t.addresses[i].fields == r.clientAddress.address
    ensures var u := AfterStore(t, r, draws).tables;
      forall i :: 0 <= i < |u.addresses| && u.addresses[i].id == u.invoices[|t.invoices|].senderAddressId ==>
        u.addresses[i].fields != r.senderAddress.address
  {
    PendingSharesAddressRow(t, r, draws);
    var u := AfterStore(t, r, draws).tables;
    var id := u.invoices[|t.invoices|].clientAddressId;
    var k :| 0 <= k < |t.addresses| && t.addresses[k].id == id && t.addresses[k].fields == r.clientAddress.address;
    forall i | 0 <= i < |u.addresses| && u.addresses[i].id == id ensures u.addresses[i].fields != r.senderAddress.address {
      AddressIdsUnique(t, i, k);
    }
  }

  /** In valid tables an address id names one row. */
  lemma AddressIdsUnique(t: Tables, i: nat, k: nat)
    requires TablesValid(t)
    requires i < |t.addresses| && k < |t.addresses| && t.addresses[i].id == t.addresses[k].id
    ensures i == k
  {
    assert !(i < k) && !(k < i);
  }

  /** The complete test request: stored with total 100, while the line items add up to 22000. */
  lemma FixtureTotalIgnored(t: Tables, issueDay: int, status: string, draws: seq<Draw>)
    requires HasFreshDraw(draws, IdsOf(t.invoices))
    requires AfterStore(t, Fixture(issueDay, status), draws).outcome.Created?
    ensures var row := AfterStore(t, Fixture(issueDay, status), draws).tables.invoices[|t.invoices|];
      && row.totalCents == 100
      && LineItemsTotal(Fixture(issueDay, status).lineItems.items) == 22000
      && row.dueDate == Some(issueDay + 30)
  {
    StoreAppendsInvoice(t, Fixture(issueDay, status), draws);
    FixtureItemsTotal(issueDay, status);
  }

  /** The test fixture's items: 1 x 5000 + 3 x 4000 + 2 x 2500. */
  lemma FixtureItemsTotal(issueDay: int, status: string)
    ensures LineItemsTotal(Fixture(issueDay, status).lineItems.items) == 22000
  {
    var items := Fixture(issueDay, status).lineItems.items;
    assert items[..2][..1][..0] == [];
    assert LineItemsTotal(items[..2][..1]) == 5000;
    assert LineItemsTotal(items[..2]) == 17000;
  }

  /** The creating hook: whatever id a row is created with, the stored id is the generated, fresh one. */
  lemma CreatingHookOverwritesId(t: Tables, row: InvoiceRow, supplied: string, draws: seq<Draw>)
    requires HasFreshDraw(draws, IdsOf(t.invoices))
    ensures AddInvoice(t, row.(id := supplied), draws) == AddInvoice(t, row, draws)
    ensures var u := AddInvoice(t, row, draws);
      && u.invoices[..|t.invoices|] == t.invoices
      && u.invoices[|t.invoices|].id !in IdsOf(t.invoices)
      && |u.invoices[|t.invoices|].id| == 6
  {
    GeneratedIdFormat(draws, IdsOf(t.invoices));
  }

  // ---- destroy ----

  lemma {:induction false} RemoveKeepsDistinct(rows: seq<InvoiceRow>, id: string)
    requires DistinctIds(rows)
    ensures DistinctIds(RemoveInvoice(rows, id))
  {
    if rows != [] {
      var rest := RemoveInvoice(rows[1..], id);
      RemoveKeepsDistinct(rows[1..], id);
      if rows[0].id != id {
        var kept := [rows[0]] + rest;
        forall k | 0 <= k < |rest| ensures rest[k].id != rows[0].id {
          var i :| 0 <= i < |rows[1..]| && rows[1..][i] == rest[k];
          assert rows[i + 1] == rest[k];
        }
        forall i, j | 0 <= i < j < |kept| ensures kept[i].id != kept[j].id {
          assert kept[j] == rest[j - 1];
          if i > 0 {
            assert kept[i] == rest[i - 1];
            assert rest[i - 1].id != rest[j - 1].id;
          } else {
            assert kept[i] == rows[0];
          }
        }
        assert kept == RemoveInvoice(rows, id);
      } else {
        assert rest == RemoveInvoice(rows, id);
      }
    }
  }

  /** destroy deletes the invoice with that id, keeps every other invoice, and touches neither clients nor addresses. */
  lemma DestroyRemovesOnlyInvoice(t: Tables, id: string)
    ensures var (u, found) := AfterDestroy(t, id);
      && found == (id in IdsOf(t.invoices))
      && id !in IdsOf(u.invoices)
      && u.clients == t.clients && u.addresses == t.addresses
      && u.nextClientId == t.nextClientId && u.nextAddressId == t.nextAddressId
      && (forall k :: 0 <= k < |t.invoices| && t.invoices[k].id != id ==> t.invoices[k] in u.invoices)
      && (forall k :: 0 <= k < |u.invoices| ==> u.invoices[k] in t.invoices)
      && (!found ==> u == t)
  {
  }

  /** Replacing the invoices by distinct rows taken from them keeps the tables valid. */
  lemma ValidWithFewerInvoices(t: Tables, kept: seq<InvoiceRow>)
    requires TablesValid(t)
    requires DistinctIds(kept)
    requires forall k :: 0 <= k < |kept| ==> kept[k] in t.invoices
    ensures TablesValid(t.(invoices := kept))
  {
    var u := t.(invoices := kept);
    forall k | 0 <= k < |kept|
      ensures HasClient(u, kept[k].clientId)
      ensures HasAddress(u, kept[k].senderAddressId) && HasAddress(u, kept[k].clientAddressId)
    {
      assert kept[k] in t.invoices;
      var i :| 0 <= i < |t.invoices| && t.invoices[i] == kept[k];
      assert HasClient(t, t.invoices[i].clientId);
      assert HasAddress(t, t.invoices[i].senderAddressId) && HasAddress(t, t.invoices[i].clientAddressId);
    }
  }

  lemma DestroyPreservesValid(t: Tables, id: string)
    requires TablesValid(t)
    ensures TablesValid(AfterDestroy(t, id).0)
  {
    if id in IdsOf(t.invoices) {
      RemoveKeepsDistinct(t.invoices, id);
      ValidWithFewerInvoices(t, RemoveInvoice(t.invoices, id));
    }
  }
}
