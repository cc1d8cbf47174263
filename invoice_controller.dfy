/**
 * InvoiceController::store and destroy (app/Http/Controllers/Api/InvoiceController.php)
 * over a database object holding the clients, addresses and invoices tables,
 * with Invoice's creating hook (app/Models/Invoice.php) run by every invoice insert.
 * Each method is proved against the table functions of InvoiceTables.
 */
module InvoiceController {
  import opened InvoiceIds
  import opened RequestRules
  import opened InvoiceTables

  class Database {
    var clients: seq<ClientRow>
    var addresses: seq<AddressRow>
    var invoices: seq<InvoiceRow>
    var nextClientId: nat
    var nextAddressId: nat

    function State(): Tables
      reads this
    {
      Tables(clients, addresses, invoices, nextClientId, nextAddressId)
    }

    ghost predicate Valid()
      reads this
    {
      TablesValid(State())
    }

    /** Empty tables whose auto-increment ids start at 1. */
    constructor()
      ensures State() == EmptyTables
      ensures Valid()
    {
      clients := [];
      addresses := [];
      invoices := [];
      nextClientId := 1;
      nextAddressId := 1;
    }

    /** Client::create. */
    method CreateClient(fullName: Value, email: Value) returns (id: nat)
      modifies this
      ensures State() == AddClient(old(State()), fullName, email)
      ensures id == old(nextClientId)
      ensures old(Valid()) ==> Valid()
    {
      if Valid() {
        AddClientValid(State(), fullName, email);
      }
      id := nextClientId;
      clients := clients + [ClientRow(id, fullName, email)];
      nextClientId := nextClientId + 1;
    }

    /** Address::create. */
    method CreateAddress(fields: Address) returns (id: nat)
      modifies this
      ensures State() == AddAddress(old(State()), fields)
      ensures id == old(nextAddressId)
      ensures old(Valid()) ==> Valid()
    {
      if Valid() {
        AddAddressValid(State(), fields);
      }
      id := nextAddressId;
      addresses := addresses + [AddressRow(id, fields)];
      nextAddressId := nextAddressId + 1;
    }

    /** Invoice::create: the creating hook assigns a generated id before the row is inserted. */
    method CreateInvoice(row: InvoiceRow, draws: seq<Draw>) returns (id: string)
      requires HasFreshDraw(draws, IdsOf(invoices))
      modifies this
      ensures State() == AddInvoice(old(State()), row, draws)
      ensures id == GeneratedId(draws, IdsOf(old(invoices)))
      ensures id !in IdsOf(old(invoices))
    {
      id := GenerateCustomId(draws, IdsOf(invoices));
      invoices := invoices + [row.(id := id)];
    }

    /**
     * store up to Invoice::create: the status branch, the pending lookups, and the
     * client and address creates; an absent key read stops it midway.
     */
    method PrepareInvoice(r: Request) returns (ready: bool, row: InvoiceRow)
      modifies this
      ensures var s := BeforeInsert(old(State()), r);
        && State() == s.tables
        && ready == s.Ready?
        && (ready ==> row == s.row)
      ensures old(Valid()) ==> Valid()
    {
      ghost var t := State();
      if Valid() {
        BeforeInsertValid(t, r);
      }
      row := InvoiceRow("", Missing, None, Missing, Missing, 0, Missing, 0, 0, 0);
      ready := false;
      if r.status.Missing? {
        return;
      }
      var pending := r.status == Text("pending");
      var client: Option<nat> := None;
      var senderAddress: Option<nat> := None;
      var clientAddress: Option<nat> := None;
      if pending {
        if r.clientName.Missing? || r.clientEmail.Missing? || AddressRead(r.clientAddress).None? {
          return;
        }
        client := FindClient(clients, r.clientName, r.clientEmail);
        senderAddress := FindAddress(addresses, AddressRead(r.clientAddress).value);
        clientAddress := FindAddress(addresses, AddressRead(r.clientAddress).value);
      }
      var clientId: nat;
      if client.None? {
        if r.clientName.Missing? || r.clientEmail.Missing? {
          return;
        }
        clientId := CreateClient(r.clientName, r.clientEmail);
      } else {
        clientId := client.value;
      }
      var senderId: nat;
      if senderAddress.None? {
        if AddressRead(r.senderAddress).None? {
          return;
        }
        senderId := CreateAddress(AddressRead(r.senderAddress).value);
      } else {
        senderId := senderAddress.value;
      }
      var clientAddressId: nat;
      if clientAddress.None? {
        if AddressRead(r.clientAddress).None? {
          return;
        }
        clientAddressId := CreateAddress(AddressRead(r.clientAddress).value);
      } else {
        clientAddressId := clientAddress.value;
      }
      var invoiceTotal := 100;
      if r.issueDate.Missing? || r.paymentTerms.Missing? || r.description.Missing? {
        return;
      }
      var dueDate := DueDate(r.issueDate, r.paymentTerms);
      row := InvoiceRow("", r.issueDate, dueDate, r.description, r.paymentTerms,
                        clientId, r.status, senderId, clientAddressId, invoiceTotal);
      ready := true;
    }

    /** store: prepare the client and address rows, then insert the invoice, whose creating hook assigns its id. */
    method Store(r: Request, draws: seq<Draw>) returns (outcome: StoreOutcome)
      requires HasFreshDraw(draws, IdsOf(invoices))
      modifies this
      ensures State() == AfterStore(old(State()), r, draws).tables
      ensures outcome == AfterStore(old(State()), r, draws).outcome
      ensures old(clients) <= clients && old(addresses) <= addresses && old(invoices) <= invoices
      ensures old(Valid()) ==> Valid()
    {
      ghost var t := State();
      StoreOnlyAppends(t, r, draws);
      if Valid() {
        StorePreservesValid(t, r, draws);
      }
      var ready, row := PrepareInvoice(r);
      if !ready {
        return UndefinedKey;
      }
      var id := CreateInvoice(row, draws);
      return Created(id);
    }

    /** destroy: an unknown id is answered 404 by route binding; a known one is deleted. */
    method Destroy(id: string) returns (found: bool)
      modifies this
      ensures (State(), found) == AfterDestroy(old(State()), id)
      ensures old(Valid()) ==> Valid()
    {
      if Valid() {
        DestroyPreservesValid(State(), id);
      }
      found := id in IdsOf(invoices);
      if found {
        invoices := RemoveInvoice(invoices, id);
      }
    }
  }
}
