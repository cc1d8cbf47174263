/**
 * InvoiceRequest::rules (app/Http/Requests/InvoiceRequest.php): the table of
 * validation rules an invoice request must pass, chosen by HTTP method, and
 * the way the framework evaluates such a table.
 *
 * A request is abstract: each key holds a Value. Date(day) stands for a
 * Y-m-d date string (the reformatting that prepareForValidation applies to
 * issue_date is taken as done), Integer(n) for any value the integer rule
 * accepts, and Array(count) for an array with count entries. The email rule's
 * check is a parameter.
 */
module RequestRules {
  import opened Text

  datatype Value =
    | Missing          // the key is not in the request
    | Null
    | Text(s: string)
    | Integer(n: int)
    | Date(day: int)
    | Array(count: nat)

  datatype Address = Address(street: Value, city: Value, postalCode: Value, country: Value)

  /** What sender_address or client_address holds: an array with the four keys (a Missing one is absent), or something else. */
  datatype AddressPart = Plain(value: Value) | Fields(address: Address)

  /** One entry of line_items. */
  datatype LineItem = LineItem(name: Value, quantity: Value, priceUnitCents: Value)

  /** What line_items holds: a list of entries, or something else. */
  datatype LineItemsPart = PlainItems(value: Value) | Items(items: seq<LineItem>)

  datatype Request = Request(
    id: Value,
    issueDate: Value,
    description: Value,
    paymentTerms: Value,
    clientName: Value,
    clientEmail: Value,
    status: Value,
    senderAddress: AddressPart,
    clientAddress: AddressPart,
    lineItems: LineItemsPart)

  datatype HttpMethod = Post | Put | Patch

  /** The keys of the rule table; the last three are the `line_items.*.` wildcard keys. */
  datatype Attribute =
    | Id | IssueDate | Description | PaymentTerms | ClientName | ClientEmail | Status
    | SenderAddress | SenderStreet | SenderCity | SenderPostalCode | SenderCountry
    | ClientAddress | ClientStreet | ClientCity | ClientPostalCode | ClientCountry
    | LineItems | ItemName | ItemQuantity | ItemPriceUnitCents

  datatype Rule =
    | Required | Nullable | RequiredIfPending
    | IsString | IsInteger | IsArray | IsEmail | IsDate | DateFormatYmd
    | Min(bound: int) | Max(bound: int) | In(options: seq<string>) | IdRegex

  const AllAttributes: set<Attribute> := {
    Id, IssueDate, Description, PaymentTerms, ClientName, ClientEmail, Status,
    SenderAddress, SenderStreet, SenderCity, SenderPostalCode, SenderCountry,
    ClientAddress, ClientStreet, ClientCity, ClientPostalCode, ClientCountry,
    LineItems, ItemName, ItemQuantity, ItemPriceUnitCents
  }

  function AllowedStatuses(m: HttpMethod): seq<string> {
    if m == Put || m == Patch then ["draft", "pending", "paid"] else ["draft", "pending"]
  }

  /** The rule list of one key; id's list is only part of the table under PUT and PATCH. */
  function RuleList(m: HttpMethod, a: Attribute): seq<Rule>
  {
    var requiredIfPending := [Nullable, RequiredIfPending];
    var lineItemsRequirement := [RequiredIfPending];
    match a
    case Id => [IdRegex, Required]
    case IssueDate => [IsDate, DateFormatYmd, Nullable] + requiredIfPending
    case Description => [IsString, Max(2000), Nullable] + requiredIfPending
    case PaymentTerms => [IsInteger, Min(0), Max(36525), Nullable] + requiredIfPending
    case ClientName => [IsString, Max(100), Nullable] + requiredIfPending
    case ClientEmail => [IsEmail, Max(100), Nullable] + requiredIfPending
    case Status => [Required, IsString, In(AllowedStatuses(m))]
    case SenderAddress => [IsArray, Nullable] + requiredIfPending
    case SenderStreet => [IsString, Max(100), Nullable] + requiredIfPending
    case SenderCity => [IsString, Max(100), Nullable] + requiredIfPending
    case SenderPostalCode => [IsString, Max(100), Nullable] + requiredIfPending
    case SenderCountry => [IsString, Max(100), Nullable] + requiredIfPending
    case ClientAddress => [IsArray, Nullable] + requiredIfPending
    case ClientStreet => [IsString, Max(100), Nullable] + requiredIfPending
    case ClientCity => [IsString, Max(100), Nullable] + requiredIfPending
    case ClientPostalCode => [IsString, Max(100), Nullable] + requiredIfPending
    case ClientCountry => [IsString, Max(100), Nullable] + requiredIfPending
    case LineItems => [IsArray] + lineItemsRequirement
    case ItemName => [IsString, Max(100), Nullable] + requiredIfPending
    case ItemQuantity => [IsInteger, Min(0), Nullable] + requiredIfPending
    case ItemPriceUnitCents => [IsInteger, Min(0), Nullable] + requiredIfPending
  }

  /** PUT and PATCH merge the id key into the table; every other key is always there. */
  predicate InTable(m: HttpMethod, a: Attribute) {
    var updating := m == Put || m == Patch;
    a != Id || updating
  }

  /** The rule table rules() returns for a request made with method m. */
  function Rules(m: HttpMethod): map<Attribute, seq<Rule>>
  {
    map a | a in AllAttributes && InTable(m, a) :: RuleList(m, a)
  }

  // ---- Where each key's value comes from ----

  predicate IsItemAttribute(a: Attribute) {
    a == ItemName || a == ItemQuantity || a == ItemPriceUnitCents
  }

  function PresentCount(a: Address): nat {
    (if a.street.Missing? then 0 else 1) + (if a.city.Missing? then 0 else 1)
    + (if a.postalCode.Missing? then 0 else 1) + (if a.country.Missing? then 0 else 1)
  }

  /** The value under the address key itself. */
  function PartValue(p: AddressPart): Value {
    match p
    case Plain(v) => v
    case Fields(a) => Array(PresentCount(a))
  }

  /** The values under the address's dotted keys: absent unless the part is an array holding them. */
  function AddressOf(p: AddressPart): Address {
    match p
    case Plain(_) => Address(Missing, Missing, Missing, Missing)
    case Fields(a) => a
  }

  function ItemsValue(p: LineItemsPart): Value {
    match p
    case PlainItems(v) => v
    case Items(items) => Array(|items|)
  }

  /** The entries the `line_items.*.` keys expand over. */
  function ItemsOf(r: Request): seq<LineItem> {
    match r.lineItems
    case PlainItems(v) =>
      // the wildcard keys are filled into each non-array entry as well
      if v.Array? then seq(v.count, _ => LineItem(Missing, Missing, Missing)) else []
    case Items(items) => items
  }

  function ValueOf(r: Request, a: Attribute): Value
    requires !IsItemAttribute(a)
  {
    match a
    case Id => r.id
    case IssueDate => r.issueDate
    case Description => r.description
    case PaymentTerms => r.paymentTerms
    case ClientName => r.clientName
    case ClientEmail => r.clientEmail
    case Status => r.status
    case SenderAddress => PartValue(r.senderAddress)
    case SenderStreet => AddressOf(r.senderAddress).street
    case SenderCity => AddressOf(r.senderAddress).city
    case SenderPostalCode => AddressOf(r.senderAddress).postalCode
    case SenderCountry => AddressOf(r.senderAddress).country
    case ClientAddress => PartValue(r.clientAddress)
    case ClientStreet => AddressOf(r.clientAddress).street
    case ClientCity => AddressOf(r.clientAddress).city
    case ClientPostalCode => AddressOf(r.clientAddress).postalCode
    case ClientCountry => AddressOf(r.clientAddress).country
    case LineItems => ItemsValue(r.lineItems)
  }

  /**
   * A wildcard key of one entry. The framework treats an absent key as not
   * present: it skips the non-implicit rules and gives required_if a null.
   * Reading it as Null gives the same verdict, because every wildcard rule list
   * carries nullable, so a null skips the same rules.
   */
  function ItemValue(item: LineItem, a: Attribute): Value
    requires IsItemAttribute(a)
  {
    var v := match a
      case ItemName => item.name
      case ItemQuantity => item.quantity
      case ItemPriceUnitCents => item.priceUnitCents;
    if v.Missing? then Null else v
  }

  // ---- How a rule list is evaluated ----

  predicate IsPending(r: Request) { r.status == Text("pending") }

  /** What `required` rejects: absent, null, a string that trims to "", an empty array. */
  predicate IsEmpty(v: Value) {
    v.Missing? || v.Null? || (v.Text? && Blank(v.s)) || (v.Array? && v.count == 0)
  }

  /** Every rule except the two `required` forms is skipped for these values. */
  predicate Skipped(v: Value, rules: seq<Rule>) {
    v.Missing? || (v.Text? && Blank(v.s)) || (v.Null? && Nullable in rules)
  }

  /** The size min and max compare: the number under a numeric rule, else length or count. */
  function Size(v: Value, numeric: bool): int {
    match v
    case Integer(n) => if numeric then n else |IntegerText(n)|
    case Text(s) => |s|
    case Date(_) => 10
    case Array(c) => c
    case _ => 0
  }

  /** `^[A-Z]{2}[0-9]{4}$` under PCRE, where `$` also matches before a final newline. */
  predicate MatchesIdRegex(s: string) {
    IsIdShape(s) || (|s| == 7 && s[6] == '\n' && IsIdShape(s[..6]))
  }

  predicate Holds(rule: Rule, v: Value, numeric: bool, isEmail: string -> bool) {
    match rule
    case Required => !IsEmpty(v)
    case Nullable => true
    case RequiredIfPending => true
    case IsString => v.Text? || v.Date?
    case IsInteger => v.Integer?
    case IsArray => v.Array?
    case IsEmail => v.Text? && isEmail(v.s)
    case IsDate => v.Date?
    case DateFormatYmd => v.Date?
    case Min(b) => Size(v, numeric) >= b
    case Max(b) => Size(v, numeric) <= b
    case In(options) => v.Text? && v.s in options
    case IdRegex => v.Text? && MatchesIdRegex(v.s)
  }

  predicate RulePasses(rule: Rule, v: Value, rules: seq<Rule>, pending: bool, isEmail: string -> bool) {
    match rule
    case Required => !IsEmpty(v)
    case RequiredIfPending => !pending || !IsEmpty(v)
    case _ => Skipped(v, rules) || Holds(rule, v, IsInteger in rules, isEmail)
  }

  predicate AttributePasses(rules: seq<Rule>, v: Value, pending: bool, isEmail: string -> bool) {
    forall k :: 0 <= k < |rules| ==> RulePasses(rules[k], v, rules, pending, isEmail)
  }

  predicate KeyPasses(rules: seq<Rule>, r: Request, a: Attribute, isEmail: string -> bool) {
    if IsItemAttribute(a) then
      forall i :: 0 <= i < |ItemsOf(r)| ==> AttributePasses(rules, ItemValue(ItemsOf(r)[i], a), IsPending(r), isEmail)
    else
      AttributePasses(rules, ValueOf(r, a), IsPending(r), isEmail)
  }

  /** The request passes validation: every key of the rule table passes its rules. */
  predicate Passes(m: HttpMethod, r: Request, isEmail: string -> bool) {
    var rules := Rules(m);
    forall a :: a in rules ==> KeyPasses(rules[a], r, a, isEmail)
  }

  // ---- A direct statement of what the table accepts ----

  /** Values for which a nullable key's type rules are skipped. */
  predicate Absent(v: Value) { v.Missing? || v.Null? || (v.Text? && Blank(v.s)) }

  /** A key ruled `<type rules>|nullable|required_if:status,pending`, whose type rules amount to ok. */
  predicate NullableKey(v: Value, pending: bool, ok: bool) {
    if Absent(v) then !pending else ok && !(pending && IsEmpty(v))
  }

  predicate TextUpTo(v: Value, max: nat) {
    (v.Text? && |v.s| <= max) || (v.Date? && 10 <= max)
  }

  predicate IntegerIn(v: Value, low: int, high: int) {
    v.Integer? && low <= v.n <= high
  }

  /** One of the four address keys: a string of at most 100 characters, filled when pending. */
  predicate AddressKey(v: Value, pending: bool) { NullableKey(v, pending, TextUpTo(v, 100)) }

  predicate AddressAccepted(p: AddressPart, pending: bool) {
    var a := AddressOf(p);
    && NullableKey(PartValue(p), pending, PartValue(p).Array?)
    && AddressKey(a.street, pending)
    && AddressKey(a.city, pending)
    && AddressKey(a.postalCode, pending)
    && AddressKey(a.country, pending)
  }

  /** line_items is not nullable: null is refused even on a draft. */
  predicate LineItemsAccepted(v: Value, pending: bool) {
    if v.Missing? || (v.Text? && Blank(v.s)) then !pending
    else v.Array? && !(pending && v.count == 0)
  }

  predicate ItemAccepted(item: LineItem, pending: bool) {
    && NullableKey(item.name, pending, TextUpTo(item.name, 100))
    && NullableKey(item.quantity, pending, item.quantity.Integer? && item.quantity.n >= 0)
    && NullableKey(item.priceUnitCents, pending, item.priceUnitCents.Integer? && item.priceUnitCents.n >= 0)
  }

  predicate Accepted(m: HttpMethod, r: Request, isEmail: string -> bool) {
    var pending := IsPending(r);
    && r.status.Text? && r.status.s in AllowedStatuses(m)
    && (m != Post ==> r.id.Text? && MatchesIdRegex(r.id.s))
    && NullableKey(r.issueDate, pending, r.issueDate.Date?)
    && NullableKey(r.description, pending, TextUpTo(r.description, 2000))
    && NullableKey(r.paymentTerms, pending, IntegerIn(r.paymentTerms, 0, 36525))
    && NullableKey(r.clientName, pending, TextUpTo(r.clientName, 100))
    && NullableKey(r.clientEmail, pending,
         r.clientEmail.Text? && isEmail(r.clientEmail.s) && |r.clientEmail.s| <= 100)
    && AddressAccepted(r.senderAddress, pending)
    && AddressAccepted(r.clientAddress, pending)
    && LineItemsAccepted(ItemsValue(r.lineItems), pending)
    && forall i :: 0 <= i < |ItemsOf(r)| ==> ItemAccepted(ItemsOf(r)[i], pending)
  }

  // ---- The rule lists, evaluated ----

  predicate NonImplicit(rule: Rule) { !rule.Required? && !rule.RequiredIfPending? }

  /** A list `t|nullable|required_if:status,pending` passes exactly when the key is absent on a draft, or t holds and pending keys are filled. */
  lemma NullableRules(t: seq<Rule>, v: Value, pending: bool, isEmail: string -> bool)
    requires forall k :: 0 <= k < |t| ==> NonImplicit(t[k])
    ensures AttributePasses(t + [Nullable, RequiredIfPending], v, pending, isEmail)
        <==> NullableKey(v, pending, forall k :: 0 <= k < |t| ==> Holds(t[k], v, IsInteger in t, isEmail))
  {
    var rules := t + [Nullable, RequiredIfPending];
    assert rules[|t|] == Nullable && rules[|t| + 1] == RequiredIfPending;
    assert (IsInteger in rules) == (IsInteger in t) by {
      if IsInteger in rules {
        var k :| 0 <= k < |rules| && rules[k] == IsInteger;
        assert k < |t| && t[k] == IsInteger;
      }
    }
    var ok := forall k :: 0 <= k < |t| ==> Holds(t[k], v, IsInteger in t, isEmail);
    if AttributePasses(rules, v, pending, isEmail) {
      assert RulePasses(rules[|t| + 1], v, rules, pending, isEmail);
      if !Absent(v) {
        assert !Skipped(v, rules);
        forall k | 0 <= k < |t| ensures Holds(t[k], v, IsInteger in t, isEmail) {
          assert rules[k] == t[k];
          assert RulePasses(rules[k], v, rules, pending, isEmail);
        }
      }
    }
    if NullableKey(v, pending, ok) {
      forall k | 0 <= k < |rules| ensures RulePasses(rules[k], v, rules, pending, isEmail) {
        if k < |t| {
          assert rules[k] == t[k];
          if !Absent(v) {
            assert Holds(t[k], v, IsInteger in t, isEmail);
          }
        }
      }
    }
  }

  lemma TextKey(v: Value, max: nat, pending: bool, isEmail: string -> bool)
    ensures AttributePasses([IsString, Max(max), Nullable] + [Nullable, RequiredIfPending], v, pending, isEmail)
        <==> NullableKey(v, pending, TextUpTo(v, max))
  {
    var t := [IsString, Max(max), Nullable];
    NullableRules(t, v, pending, isEmail);
    assert (forall k :: 0 <= k < |t| ==> Holds(t[k], v, IsInteger in t, isEmail)) == TextUpTo(v, max) by {
      assert IsInteger !in t;
      assert Holds(t[0], v, false, isEmail) && Holds(t[1], v, false, isEmail) ==> TextUpTo(v, max);
    }
  }

  lemma DateKey(v: Value, pending: bool, isEmail: string -> bool)
    ensures AttributePasses([IsDate, DateFormatYmd, Nullable] + [Nullable, RequiredIfPending], v, pending, isEmail)
        <==> NullableKey(v, pending, v.Date?)
  {
    var t := [IsDate, DateFormatYmd, Nullable];
    NullableRules(t, v, pending, isEmail);
    assert (forall k :: 0 <= k < |t| ==> Holds(t[k], v, IsInteger in t, isEmail)) == v.Date? by {
      assert Holds(t[0], v, IsInteger in t, isEmail) ==> v.Date?;
    }
  }

  lemma PaymentTermsKey(v: Value, pending: bool, isEmail: string -> bool)
    ensures AttributePasses([IsInteger, Min(0), Max(36525), Nullable] + [Nullable, RequiredIfPending], v, pending, isEmail)
        <==> NullableKey(v, pending, IntegerIn(v, 0, 36525))
  {
    var t := [IsInteger, Min(0), Max(36525), Nullable];
    NullableRules(t, v, pending, isEmail);
    assert (forall k :: 0 <= k < |t| ==> Holds(t[k], v, IsInteger in t, isEmail)) == IntegerIn(v, 0, 36525) by {
      assert t[0] == IsInteger;
      assert Holds(t[0], v, true, isEmail) && Holds(t[1], v, true, isEmail) && Holds(t[2], v, true, isEmail)
        ==> IntegerIn(v, 0, 36525);
    }
  }

  lemma AmountKey(v: Value, pending: bool, isEmail: string -> bool)
    ensures AttributePasses([IsInteger, Min(0), Nullable] + [Nullable, RequiredIfPending], v, pending, isEmail)
        <==> NullableKey(v, pending, v.Integer? && v.n >= 0)
  {
    var t := [IsInteger, Min(0), Nullable];
    NullableRules(t, v, pending, isEmail);
    assert (forall k :: 0 <= k < |t| ==> Holds(t[k], v, IsInteger in t, isEmail)) == (v.Integer? && v.n >= 0) by {
      assert t[0] == IsInteger;
      assert Holds(t[0], v, true, isEmail) && Holds(t[1], v, true, isEmail) ==> v.Integer? && v.n >= 0;
    }
  }

  lemma EmailKey(v: Value, pending: bool, isEmail: string -> bool)
    ensures AttributePasses([IsEmail, Max(100), Nullable] + [Nullable, RequiredIfPending], v, pending, isEmail)
        <==> NullableKey(v, pending, v.Text? && isEmail(v.s) && |v.s| <= 100)
  {
    var t := [IsEmail, Max(100), Nullable];
    NullableRules(t, v, pending, isEmail);
    assert (forall k :: 0 <= k < |t| ==> Holds(t[k], v, IsInteger in t, isEmail))
        == (v.Text? && isEmail(v.s) && |v.s| <= 100) by {
      assert IsInteger !in t;
      assert Holds(t[0], v, false, isEmail) && Holds(t[1], v, false, isEmail) ==> v.Text? && isEmail(v.s) && |v.s| <= 100;
    }
  }

  lemma ArrayKey(v: Value, pending: bool, isEmail: string -> bool)
    ensures AttributePasses([IsArray, Nullable] + [Nullable, RequiredIfPending], v, pending, isEmail)
        <==> NullableKey(v, pending, v.Array?)
  {
    var t := [IsArray, Nullable];
    NullableRules(t, v, pending, isEmail);
    assert (forall k :: 0 <= k < |t| ==> Holds(t[k], v, IsInteger in t, isEmail)) == v.Array? by {
      assert Holds(t[0], v, IsInteger in t, isEmail) ==> v.Array?;
    }
  }

  /** line_items, ruled `array|required_if:status,pending` without nullable. */
  lemma LineItemsKey(v: Value, pending: bool, isEmail: string -> bool)
    ensures AttributePasses([IsArray] + [RequiredIfPending], v, pending, isEmail) <==> LineItemsAccepted(v, pending)
  {
    var rules := [IsArray] + [RequiredIfPending];
    assert Nullable !in rules;
    if AttributePasses(rules, v, pending, isEmail) {
      assert RulePasses(rules[0], v, rules, pending, isEmail);
      assert RulePasses(rules[1], v, rules, pending, isEmail);
    }
  }

  /** status, ruled `required|string|in:...` over non-blank options. */
  lemma StatusKey(v: Value, options: seq<string>, pending: bool, isEmail: string -> bool)
    requires forall k :: 0 <= k < |options| ==> |options[k]| > 0 && !IsTrimmed(options[k][0])
    ensures AttributePasses([Required, IsString, In(options)], v, pending, isEmail) <==> v.Text? && v.s in options
  {
    var rules := [Required, IsString, In(options)];
    if AttributePasses(rules, v, pending, isEmail) {
      assert RulePasses(rules[0], v, rules, pending, isEmail);
      assert RulePasses(rules[2], v, rules, pending, isEmail);
    }
    if v.Text? && v.s in options {
      var k :| 0 <= k < |options| && options[k] == v.s;
      assert !Blank(v.s) by { assert !IsTrimmed(v.s[0]); }
    }
  }

  /** id on PUT and PATCH, ruled `regex:/^[A-Z]{2}[0-9]{4}$/|required`. */
  lemma IdKey(v: Value, pending: bool, isEmail: string -> bool)
    ensures AttributePasses([IdRegex, Required], v, pending, isEmail) <==> v.Text? && MatchesIdRegex(v.s)
  {
    var rules := [IdRegex, Required];
    if AttributePasses(rules, v, pending, isEmail) {
      assert RulePasses(rules[0], v, rules, pending, isEmail);
      assert RulePasses(rules[1], v, rules, pending, isEmail);
    }
    if v.Text? && MatchesIdRegex(v.s) {
      assert !Blank(v.s) by { assert !IsTrimmed(v.s[0]); }
    }
  }

  lemma AddressKeys(part: AddressPart, pending: bool, isEmail: string -> bool)
    ensures var text := [IsString, Max(100), Nullable] + [Nullable, RequiredIfPending];
      var a := AddressOf(part);
      (&& AttributePasses([IsArray, Nullable] + [Nullable, RequiredIfPending], PartValue(part), pending, isEmail)
       && AttributePasses(text, a.street, pending, isEmail)
       && AttributePasses(text, a.city, pending, isEmail)
       && AttributePasses(text, a.postalCode, pending, isEmail)
       && AttributePasses(text, a.country, pending, isEmail))
      <==> AddressAccepted(part, pending)
  {
    var a := AddressOf(part);
    ArrayKey(PartValue(part), pending, isEmail);
    TextKey(a.street, 100, pending, isEmail);
    TextKey(a.city, 100, pending, isEmail);
    TextKey(a.postalCode, 100, pending, isEmail);
    TextKey(a.country, 100, pending, isEmail);
  }

  /** An entry's absent keys, filled in as null, are judged as absent ones would be. */
  lemma ItemKeys(item: LineItem, pending: bool, isEmail: string -> bool)
    ensures var amount := [IsInteger, Min(0), Nullable] + [Nullable, RequiredIfPending];
      (&& AttributePasses([IsString, Max(100), Nullable] + [Nullable, RequiredIfPending], ItemValue(item, ItemName), pending, isEmail)
       && AttributePasses(amount, ItemValue(item, ItemQuantity), pending, isEmail)
       && AttributePasses(amount, ItemValue(item, ItemPriceUnitCents), pending, isEmail))
      <==> ItemAccepted(item, pending)
  {
    TextKey(ItemValue(item, ItemName), 100, pending, isEmail);
    AmountKey(ItemValue(item, ItemQuantity), pending, isEmail);
    AmountKey(ItemValue(item, ItemPriceUnitCents), pending, isEmail);
  }

  /** What one key's rule list amounts to, stated without the rules. */
  predicate KeyAccepted(m: HttpMethod, r: Request, a: Attribute, isEmail: string -> bool) {
    var p := IsPending(r);
    var items := ItemsOf(r);
    match a
    case Id => r.id.Text? && MatchesIdRegex(r.id.s)
    case Status => r.status.Text? && r.status.s in AllowedStatuses(m)
    case IssueDate => NullableKey(r.issueDate, p, r.issueDate.Date?)
    case Description => NullableKey(r.description, p, TextUpTo(r.description, 2000))
    case PaymentTerms => NullableKey(r.paymentTerms, p, IntegerIn(r.paymentTerms, 0, 36525))
    case ClientName => NullableKey(r.clientName, p, TextUpTo(r.clientName, 100))
    case ClientEmail =>
      NullableKey(r.clientEmail, p, r.clientEmail.Text? && isEmail(r.clientEmail.s) && |r.clientEmail.s| <= 100)
    case SenderAddress => NullableKey(PartValue(r.senderAddress), p, PartValue(r.senderAddress).Array?)
    case ClientAddress => NullableKey(PartValue(r.clientAddress), p, PartValue(r.clientAddress).Array?)
    case LineItems => LineItemsAccepted(ItemsValue(r.lineItems), p)
    case ItemName => forall i :: 0 <= i < |items| ==> NullableKey(items[i].name, p, TextUpTo(items[i].name, 100))
    case ItemQuantity =>
      forall i :: 0 <= i < |items| ==> NullableKey(items[i].quantity, p, items[i].quantity.Integer? && items[i].quantity.n >= 0)
    case ItemPriceUnitCents =>
      forall i :: 0 <= i < |items| ==>
        NullableKey(items[i].priceUnitCents, p, items[i].priceUnitCents.Integer? && items[i].priceUnitCents.n >= 0)
    case SenderStreet => AddressKey(AddressOf(r.senderAddress).street, p)
    case SenderCity => AddressKey(AddressOf(r.senderAddress).city, p)
    case SenderPostalCode => AddressKey(AddressOf(r.senderAddress).postalCode, p)
    case SenderCountry => AddressKey(AddressOf(r.senderAddress).country, p)
    case ClientStreet => AddressKey(AddressOf(r.clientAddress).street, p)
    case ClientCity => AddressKey(AddressOf(r.clientAddress).city, p)
    case ClientPostalCode => AddressKey(AddressOf(r.clientAddress).postalCode, p)
    case ClientCountry => AddressKey(AddressOf(r.clientAddress).country, p)
  }

  lemma KeyPassesIff(m: HttpMethod, r: Request, a: Attribute, isEmail: string -> bool)
    ensures KeyPasses(RuleList(m, a), r, a, isEmail) <==> KeyAccepted(m, r, a, isEmail)
  {
    var p := IsPending(r);
    var items := ItemsOf(r);
    match a
    case Id => IdKey(r.id, p, isEmail);
    case Status => StatusKey(r.status, AllowedStatuses(m), p, isEmail);
    case IssueDate => DateKey(r.issueDate, p, isEmail);
    case Description => TextKey(r.description, 2000, p, isEmail);
    case PaymentTerms => PaymentTermsKey(r.paymentTerms, p, isEmail);
    case ClientName => TextKey(r.clientName, 100, p, isEmail);
    case ClientEmail => EmailKey(r.clientEmail, p, isEmail);
    case SenderAddress => ArrayKey(PartValue(r.senderAddress), p, isEmail);
    case ClientAddress => ArrayKey(PartValue(r.clientAddress), p, isEmail);
    case LineItems => LineItemsKey(ItemsValue(r.lineItems), p, isEmail);
    case ItemName =>
      forall i | 0 <= i < |items| ensures AttributePasses(RuleList(m, a), ItemValue(items[i], a), p, isEmail)
                                      <==> NullableKey(items[i].name, p, TextUpTo(items[i].name, 100)) {
        TextKey(ItemValue(items[i], a), 100, p, isEmail);
      }
    case ItemQuantity =>
      forall i | 0 <= i < |items| ensures AttributePasses(RuleList(m, a), ItemValue(items[i], a), p, isEmail)
                                      <==> NullableKey(items[i].quantity, p, items[i].quantity.Integer? && items[i].quantity.n >= 0) {
        AmountKey(ItemValue(items[i], a), p, isEmail);
      }
    case ItemPriceUnitCents =>
      forall i | 0 <= i < |items| ensures AttributePasses(RuleList(m, a), ItemValue(items[i], a), p, isEmail)
                                      <==> NullableKey(items[i].priceUnitCents, p, items[i].priceUnitCents.Integer? && items[i].priceUnitCents.n >= 0) {
        AmountKey(ItemValue(items[i], a), p, isEmail);
      }
    case _ => TextKey(ValueOf(r, a), 100, p, isEmail);
  }

  lemma KeysGiveSenderAddress(m: HttpMethod, r: Request, isEmail: string -> bool)
    requires forall a :: InTable(m, a) ==> KeyAccepted(m, r, a, isEmail)
    ensures AddressAccepted(r.senderAddress, IsPending(r))
  {
    assert KeyAccepted(m, r, SenderAddress, isEmail);
    assert KeyAccepted(m, r, SenderStreet, isEmail);
    assert KeyAccepted(m, r, SenderCity, isEmail);
    assert KeyAccepted(m, r, SenderPostalCode, isEmail);
    assert KeyAccepted(m, r, SenderCountry, isEmail);
  }

  lemma KeysGiveClientAddress(m: HttpMethod, r: Request, isEmail: string -> bool)
    requires forall a :: InTable(m, a) ==> KeyAccepted(m, r, a, isEmail)
    ensures AddressAccepted(r.clientAddress, IsPending(r))
  {
    assert KeyAccepted(m, r, ClientAddress, isEmail);
    assert KeyAccepted(m, r, ClientStreet, isEmail);
    assert KeyAccepted(m, r, ClientCity, isEmail);
    assert KeyAccepted(m, r, ClientPostalCode, isEmail);
    assert KeyAccepted(m, r, ClientCountry, isEmail);
  }

  lemma KeysGiveItems(m: HttpMethod, r: Request, isEmail: string -> bool)
    requires forall a :: InTable(m, a) ==> KeyAccepted(m, r, a, isEmail)
    ensures LineItemsAccepted(ItemsValue(r.lineItems), IsPending(r))
    ensures forall i :: 0 <= i < |ItemsOf(r)| ==> ItemAccepted(ItemsOf(r)[i], IsPending(r))
  {
    assert KeyAccepted(m, r, LineItems, isEmail);
    assert KeyAccepted(m, r, ItemName, isEmail);
    assert KeyAccepted(m, r, ItemQuantity, isEmail);
    assert KeyAccepted(m, r, ItemPriceUnitCents, isEmail);
  }

  lemma KeysGiveAccepted(m: HttpMethod, r: Request, isEmail: string -> bool)
    requires forall a :: InTable(m, a) ==> KeyAccepted(m, r, a, isEmail)
    ensures Accepted(m, r, isEmail)
  {
    assert KeyAccepted(m, r, Status, isEmail);
    assert m != Post ==> KeyAccepted(m, r, Id, isEmail);
    assert KeyAccepted(m, r, IssueDate, isEmail);
    assert KeyAccepted(m, r, Description, isEmail);
    assert KeyAccepted(m, r, PaymentTerms, isEmail);
    assert KeyAccepted(m, r, ClientName, isEmail);
    assert KeyAccepted(m, r, ClientEmail, isEmail);
    KeysGiveSenderAddress(m, r, isEmail);
    KeysGiveClientAddress(m, r, isEmail);
    KeysGiveItems(m, r, isEmail);
  }

  lemma AcceptedGivesKeys(m: HttpMethod, r: Request, isEmail: string -> bool)
    requires Accepted(m, r, isEmail)
    ensures forall a :: InTable(m, a) ==> KeyAccepted(m, r, a, isEmail)
  {
    forall a | InTable(m, a) ensures KeyAccepted(m, r, a, isEmail) {
      if IsItemAttribute(a) {
        assert forall i :: 0 <= i < |ItemsOf(r)| ==> ItemAccepted(ItemsOf(r)[i], IsPending(r));
      }
    }
  }

  /** The table holds exactly the keys InTable names, each with its RuleList. */
  lemma RulesTable(m: HttpMethod)
    ensures forall a :: a in Rules(m) <==> InTable(m, a)
    ensures forall a :: a in Rules(m) ==> Rules(m)[a] == RuleList(m, a)
  {
    forall a | InTable(m, a) ensures a in AllAttributes {
      match a
      case Id =>
      case _ =>
    }
  }

  /** The rule table, as the framework evaluates it, accepts exactly the requests Accepted describes. */
  lemma PassesIffAccepted(m: HttpMethod, r: Request, isEmail: string -> bool)
    ensures Passes(m, r, isEmail) <==> Accepted(m, r, isEmail)
  {
    RulesTable(m);
    forall a | InTable(m, a) ensures KeyPasses(Rules(m)[a], r, a, isEmail) <==> KeyAccepted(m, r, a, isEmail) {
      KeyPassesIff(m, r, a, isEmail);
    }
    if Passes(m, r, isEmail) {
      KeysGiveAccepted(m, r, isEmail);
    }
    if Accepted(m, r, isEmail) {
      AcceptedGivesKeys(m, r, isEmail);
    }
  }

  // ---- What the table promises ----

  predicate Filled(v: Value) { !IsEmpty(v) }

  predicate AddressFilled(p: AddressPart) {
    p.Fields? && Filled(p.address.street) && Filled(p.address.city)
    && Filled(p.address.postalCode) && Filled(p.address.country)
  }

  /** Every key a pending invoice needs is there and non-empty, down to each line item's keys. */
  predicate Complete(r: Request) {
    && Filled(r.issueDate) && Filled(r.description) && Filled(r.paymentTerms)
    && Filled(r.clientName) && Filled(r.clientEmail)
    && AddressFilled(r.senderAddress) && AddressFilled(r.clientAddress)
    && r.lineItems.Items? && |r.lineItems.items| > 0
    && forall i :: 0 <= i < |r.lineItems.items| ==>
         var item := r.lineItems.items[i];
         Filled(item.name) && Filled(item.quantity) && Filled(item.priceUnitCents)
  }

  /** A request holding only an id and a status. */
  function Bare(id: Value, status: Value): Request {
    Request(id, Missing, Missing, Missing, Missing, Missing, status,
            Plain(Missing), Plain(Missing), PlainItems(Missing))
  }

  /** status is required on every method, and POST allows only draft and pending. */
  lemma StatusAllowed(m: HttpMethod, r: Request, isEmail: string -> bool)
    requires Passes(m, r, isEmail)
    ensures r.status.Text? && r.status.s in AllowedStatuses(m)
    ensures m == Post ==> r.status.s == "draft" || r.status.s == "pending"
  {
    PassesIffAccepted(m, r, isEmail);
  }

  /** POST turns away a paid invoice, whatever else the request holds. */
  lemma PostRejectsPaid(r: Request, isEmail: string -> bool)
    requires r.status == Text("paid")
    ensures !Passes(Post, r, isEmail)
  {
    if Passes(Post, r, isEmail) {
      StatusAllowed(Post, r, isEmail);
    }
  }

  /** PUT and PATCH need an id of two capitals and four digits (a final newline slips through `$`). */
  lemma UpdateRequiresId(m: HttpMethod, r: Request, isEmail: string -> bool)
    requires m != Post && Passes(m, r, isEmail)
    ensures r.id.Text? && MatchesIdRegex(r.id.s)
    ensures |r.id.s| == 6 || (|r.id.s| == 7 && r.id.s[6] == '\n')
  {
    PassesIffAccepted(m, r, isEmail);
  }

  /** A pending request only passes when it is complete. */
  lemma PendingIsComplete(m: HttpMethod, r: Request, isEmail: string -> bool)
    requires IsPending(r) && Passes(m, r, isEmail)
    ensures Complete(r)
  {
    PassesIffAccepted(m, r, isEmail);
    // line_items is a non-empty array; were it not a list of entries, its first entry would be unfilled
    assert ItemAccepted(ItemsOf(r)[0], true);
  }

  /** Each of the four address fields is absent or a string of at most 100 characters. */
  predicate AddressWithin(p: AddressPart) {
    var a := AddressOf(p);
    && (Absent(a.street) || TextUpTo(a.street, 100))
    && (Absent(a.city) || TextUpTo(a.city, 100))
    && (Absent(a.postalCode) || TextUpTo(a.postalCode, 100))
    && (Absent(a.country) || TextUpTo(a.country, 100))
  }

  /** The bounds a passing request's values keep. */
  lemma PassedValuesBounded(m: HttpMethod, r: Request, isEmail: string -> bool)
    requires Passes(m, r, isEmail)
    ensures Absent(r.paymentTerms) || IntegerIn(r.paymentTerms, 0, 36525)
    ensures Absent(r.issueDate) || r.issueDate.Date?
    ensures Absent(r.description) || TextUpTo(r.description, 2000)
    ensures Absent(r.clientName) || TextUpTo(r.clientName, 100)
    ensures Absent(r.clientEmail) || (r.clientEmail.Text? && isEmail(r.clientEmail.s) && |r.clientEmail.s| <= 100)
    ensures AddressWithin(r.senderAddress) && AddressWithin(r.clientAddress)
    ensures forall i :: 0 <= i < |ItemsOf(r)| ==>
      var item := ItemsOf(r)[i];
      && (Absent(item.name) || TextUpTo(item.name, 100))
      && (Absent(item.quantity) || (item.quantity.Integer? && item.quantity.n >= 0))
      && (Absent(item.priceUnitCents) || (item.priceUnitCents.Integer? && item.priceUnitCents.n >= 0))
  {
    PassesIffAccepted(m, r, isEmail);
  }

  /** A draft needs nothing but its status on POST, and its status and id on PUT and PATCH. */
  lemma DraftNeedsOnlyStatus(id: string, isEmail: string -> bool)
    requires IsIdShape(id)
    ensures Passes(Post, Bare(Missing, Text("draft")), isEmail)
    ensures Passes(Put, Bare(Text(id), Text("draft")), isEmail)
    ensures Passes(Patch, Bare(Text(id), Text("draft")), isEmail)
    ensures !Passes(Put, Bare(Missing, Text("draft")), isEmail)
    ensures !Passes(Post, Bare(Missing, Missing), isEmail)
  {
    PassesIffAccepted(Post, Bare(Missing, Text("draft")), isEmail);
    PassesIffAccepted(Put, Bare(Text(id), Text("draft")), isEmail);
    PassesIffAccepted(Patch, Bare(Text(id), Text("draft")), isEmail);
    PassesIffAccepted(Put, Bare(Missing, Text("draft")), isEmail);
    PassesIffAccepted(Post, Bare(Missing, Missing), isEmail);
  }

  /** The complete request the feature tests send, with a chosen status. */
  function Fixture(issueDay: int, status: string): Request {
    Request(
      Text(""), Date(issueDay), Text("Test invoice description"), Integer(30),
      Text("Ricky Bobby"), Text("el.diablo@gmail.com"), Text(status),
      Fields(Address(Text("930 Acoma Street Unit 316"), Text("Denver"), Text("80204"), Text("United States of America"))),
      Fields(Address(Text("17240 Connor Quay Ct"), Text("Cornelius"), Text("28031"), Text("United States of America"))),
      Items([
        LineItem(Text("apple"), Integer(1), Integer(5000)),
        LineItem(Text("banana"), Integer(3), Integer(4000)),
        LineItem(Text("carrot"), Integer(2), Integer(2500))]))
  }

  lemma FixtureAddressesAccepted(issueDay: int, status: string, pending: bool)
    ensures AddressAccepted(Fixture(issueDay, status).senderAddress, pending)
    ensures AddressAccepted(Fixture(issueDay, status).clientAddress, pending)
  {
    var r := Fixture(issueDay, status);
    assert r.senderAddress.address.street.s[0] == '9' && r.senderAddress.address.city.s[0] == 'D';
    assert r.senderAddress.address.postalCode.s[0] == '8' && r.senderAddress.address.country.s[0] == 'U';
    assert r.clientAddress.address.street.s[0] == '1' && r.clientAddress.address.city.s[0] == 'C';
    assert r.clientAddress.address.postalCode.s[0] == '2' && r.clientAddress.address.country.s[0] == 'U';
  }

  lemma FixtureItemsAccepted(issueDay: int, status: string, pending: bool)
    ensures LineItemsAccepted(ItemsValue(Fixture(issueDay, status).lineItems), pending)
    ensures forall i :: 0 <= i < |ItemsOf(Fixture(issueDay, status))| ==> ItemAccepted(ItemsOf(Fixture(issueDay, status))[i], pending)
  {
    var items := ItemsOf(Fixture(issueDay, status));
    assert items[0].name.s[0] == 'a' && items[1].name.s[0] == 'b' && items[2].name.s[0] == 'c';
    assert ItemAccepted(items[0], pending) && ItemAccepted(items[1], pending) && ItemAccepted(items[2], pending);
  }

  lemma FixtureIsAccepted(issueDay: int, status: string, isEmail: string -> bool)
    requires status == "draft" || status == "pending"
    requires isEmail("el.diablo@gmail.com")
    ensures Accepted(Post, Fixture(issueDay, status), isEmail)
  {
    var r := Fixture(issueDay, status);
    assert r.description.s[0] == 'T' && r.clientName.s[0] == 'R' && r.clientEmail.s[0] == 'e';
    FixtureAddressesAccepted(issueDay, status, IsPending(r));
    FixtureItemsAccepted(issueDay, status, IsPending(r));
  }

  /** POST accepts the complete request as a draft or as pending, and refuses it as paid. */
  lemma FixtureAccepted(issueDay: int, isEmail: string -> bool)
    requires isEmail("el.diablo@gmail.com")
    ensures Passes(Post, Fixture(issueDay, "draft"), isEmail)
    ensures Passes(Post, Fixture(issueDay, "pending"), isEmail)
    ensures !Passes(Post, Fixture(issueDay, "paid"), isEmail)
  {
    FixtureIsAccepted(issueDay, "draft", isEmail);
    PassesIffAccepted(Post, Fixture(issueDay, "draft"), isEmail);
    FixtureIsAccepted(issueDay, "pending", isEmail);
    PassesIffAccepted(Post, Fixture(issueDay, "pending"), isEmail);
    PostRejectsPaid(Fixture(issueDay, "paid"), isEmail);
  }
}
