/** What is read of an invoice is what was written. */
module ViewLaws {
  import opened CanonicalJson
  import opened FactViews
  import opened Sorting
  import opened Sums
  import opened Texts

  // An invoice or contract facts written as the object with the members its type declares, and read back as
  // src/modules/evaluator/fact-bundle.ts reads them.

  // ---- objects with named members ------------------------------------------------------------

  function Fields(names: seq<string>, values: seq<Value>): Value
    requires |names| == |values|
  {
    Obj(seq(|names|, i requires 0 <= i < |names| => Member(Ascii(names[i]), values[i])))
  }

  ghost predicate Apart(names: seq<string>) {
    forall i, j | 0 <= i < j < |names| :: Ascii(names[i]) != Ascii(names[j])
  }

  lemma FieldRead(names: seq<string>, values: seq<Value>, i: nat, name: string)
    requires |names| == |values| && Apart(names) && i < |names| && names[i] == name
    ensures Get(Fields(names, values), Ascii(name)) == values[i]
  {
    FindAt(Fields(names, values).members, i);
    hide Ascii;
    hide Find;
  }

  function TextOr(t: Option<Text>): Value { match t case Some(x) => Str(x) case None => Undefined }

  function FlagOr(b: Option<bool>): Value { match b case Some(x) => Bool(x) case None => Undefined }

  /** A list is read for its length only. */
  function ListOr(n: Option<nat>): Value { match n case Some(k) => Arr(seq(k, _ => Str([]))) case None => Undefined }

  // ---- charges -------------------------------------------------------------------------------

  const CHARGE_NAMES: seq<string> := ["code", "category", "quarantined", "amount", "currency", "basis", "rate",
                                      "rawDescription"]

  function WriteCharge(c: Charge): Value {
    Fields(CHARGE_NAMES, [TextOr(c.code), TextOr(c.category), Bool(c.quarantined), TextOr(c.amount), Str(c.currency),
                          TextOr(c.basis), TextOr(c.rate), TextOr(c.rawDescription)])
  }

  lemma ChargeNamesApart()
    ensures Apart(CHARGE_NAMES)
  {
    forall i, j | 0 <= i < j < |CHARGE_NAMES| ensures Ascii(CHARGE_NAMES[i]) != Ascii(CHARGE_NAMES[j]) {
      var a, b := Ascii(CHARGE_NAMES[i]), Ascii(CHARGE_NAMES[j]);
      assert |a| != |b| || a[0] != b[0] || a[1] != b[1];
    }
  }

  lemma TextRead(names: seq<string>, values: seq<Value>, i: nat, name: string, t: Option<Text>)
    requires |names| == |values| && Apart(names) && i < |names| && names[i] == name && values[i] == TextOr(t)
    ensures TextAt(Fields(names, values), name) == t
  {
    hide Apart;
    hide Ascii;
    hide Fields;
    hide Get;
    FieldRead(names, values, i, name);
  }

  lemma TextStated(names: seq<string>, values: seq<Value>, i: nat, name: string, t: Text)
    requires |names| == |values| && Apart(names) && i < |names| && names[i] == name && values[i] == Str(t)
    ensures TextAt(Fields(names, values), name) == Some(t)
  {
    TextRead(names, values, i, name, Some(t));
  }

  lemma FlagRead(names: seq<string>, values: seq<Value>, i: nat, name: string, b: Option<bool>)
    requires |names| == |values| && Apart(names) && i < |names| && names[i] == name && values[i] == FlagOr(b)
    ensures BoolAt(Fields(names, values), name) == b
  {
    hide Apart;
    hide Ascii;
    hide Fields;
    hide Get;
    FieldRead(names, values, i, name);
  }

  lemma CountRead(names: seq<string>, values: seq<Value>, i: nat, name: string, n: Option<nat>)
    requires |names| == |values| && Apart(names) && i < |names| && names[i] == name && values[i] == ListOr(n)
    ensures CountAt(Fields(names, values), name) == n
  {
    hide Apart;
    hide Ascii;
    hide Fields;
    hide Get;
    FieldRead(names, values, i, name);
  }

  lemma ChargeNames()
    ensures |CHARGE_NAMES| == 8
    ensures CHARGE_NAMES[0] == "code" && CHARGE_NAMES[1] == "category" && CHARGE_NAMES[2] == "quarantined"
    ensures CHARGE_NAMES[3] == "amount" && CHARGE_NAMES[4] == "currency" && CHARGE_NAMES[5] == "basis"
    ensures CHARGE_NAMES[6] == "rate" && CHARGE_NAMES[7] == "rawDescription"
  {
  }

  lemma ChargeIs(v: Value, c: Charge)
    requires TextAt(v, "code") == c.code && TextAt(v, "category") == c.category
    requires BoolAt(v, "quarantined") == Some(c.quarantined) && TextAt(v, "amount") == c.amount
    requires TextAt(v, "currency") == Some(c.currency) && TextAt(v, "basis") == c.basis && TextAt(v, "rate") == c.rate
    requires TextAt(v, "rawDescription") == c.rawDescription
    ensures ReadCharge(v) == c
  {
    hide TextAt;
    hide BoolAt;
  }

  lemma ChargeValues(c: Charge) returns (values: seq<Value>)
    ensures |values| == |CHARGE_NAMES| && WriteCharge(c) == Fields(CHARGE_NAMES, values)
    ensures values == [TextOr(c.code), TextOr(c.category), Bool(c.quarantined), TextOr(c.amount), Str(c.currency),
                       TextOr(c.basis), TextOr(c.rate), TextOr(c.rawDescription)]
    ensures values[2] == FlagOr(Some(c.quarantined))
  {
    values := [TextOr(c.code), TextOr(c.category), Bool(c.quarantined), TextOr(c.amount), Str(c.currency),
               TextOr(c.basis), TextOr(c.rate), TextOr(c.rawDescription)];
  }

  lemma ChargeRead(c: Charge)
    ensures ReadCharge(WriteCharge(c)) == c
  {
    hide *;
    var values := ChargeValues(c);
    ChargeNamesApart();
    ChargeNames();
    TextRead(CHARGE_NAMES, values, 0, "code", c.code);
    TextRead(CHARGE_NAMES, values, 1, "category", c.category);
    FlagRead(CHARGE_NAMES, values, 2, "quarantined", Some(c.quarantined));
    TextRead(CHARGE_NAMES, values, 3, "amount", c.amount);
    TextStated(CHARGE_NAMES, values, 4, "currency", c.currency);
    TextRead(CHARGE_NAMES, values, 5, "basis", c.basis);
    TextRead(CHARGE_NAMES, values, 6, "rate", c.rate);
    TextRead(CHARGE_NAMES, values, 7, "rawDescription", c.rawDescription);
    ChargeIs(WriteCharge(c), c);
  }

  // ---- invoices ------------------------------------------------------------------------------

  const INVOICE_NAMES: seq<string> := ["transactionSet", "parserVersion", "invoiceNumber", "shipmentReferences",
                                       "carrierCode", "containerNumbers", "vesselVoyage", "portCodes", "headerCurrency",
                                       "footing", "charges"]

  const FOOTING_NAMES: seq<string> := ["declaredTotal", "lineSum"]

  function WriteFooting(f: Option<Footing>): Value {
    match f
    case Some(x) => Fields(FOOTING_NAMES, [TextOr(x.declaredTotal), Str(x.lineSum)])
    case None => Undefined
  }

  function WriteCharges(cs: seq<Charge>): Value {
    Arr(seq(|cs|, i requires 0 <= i < |cs| => WriteCharge(cs[i])))
  }

  function WriteInvoice(inv: Invoice): Value {
    Fields(INVOICE_NAMES, [Str(inv.transactionSet), Str(inv.parserVersion), TextOr(inv.invoiceNumber),
                           ListOr(inv.shipmentReferences), TextOr(inv.carrierCode), ListOr(inv.containerNumbers),
                           TextOr(inv.vesselVoyage), ListOr(inv.portCodes), TextOr(inv.headerCurrency),
                           WriteFooting(inv.footing), WriteCharges(inv.charges)])
  }

  lemma InvoiceNamesApart()
    ensures Apart(INVOICE_NAMES) && Apart(FOOTING_NAMES)
  {
    forall i, j | 0 <= i < j < |INVOICE_NAMES| ensures Ascii(INVOICE_NAMES[i]) != Ascii(INVOICE_NAMES[j]) {
      var a, b := Ascii(INVOICE_NAMES[i]), Ascii(INVOICE_NAMES[j]);
      assert |a| != |b| || a[0] != b[0];
    }
    assert |Ascii("declaredTotal")| == 13 && |Ascii("lineSum")| == 7;
  }

  lemma InvoiceNames()
    ensures |INVOICE_NAMES| == 11 && |FOOTING_NAMES| == 2
    ensures INVOICE_NAMES[0] == "transactionSet" && INVOICE_NAMES[1] == "parserVersion"
    ensures INVOICE_NAMES[2] == "invoiceNumber" && INVOICE_NAMES[3] == "shipmentReferences"
    ensures INVOICE_NAMES[4] == "carrierCode" && INVOICE_NAMES[5] == "containerNumbers"
    ensures INVOICE_NAMES[6] == "vesselVoyage" && INVOICE_NAMES[7] == "portCodes"
    ensures INVOICE_NAMES[8] == "headerCurrency" && INVOICE_NAMES[9] == "footing" && INVOICE_NAMES[10] == "charges"
    ensures FOOTING_NAMES[0] == "declaredTotal" && FOOTING_NAMES[1] == "lineSum"
  {
  }

  lemma FootingRead(f: Option<Footing>)
    ensures ReadFooting(WriteFooting(f)) == f
  {
    InvoiceNamesApart();
    InvoiceNames();
    hide INVOICE_NAMES;
    hide FOOTING_NAMES;
    hide Apart;
    hide TextAt;
    if f.Some? {
      var values := [TextOr(f.value.declaredTotal), Str(f.value.lineSum)];
      TextRead(FOOTING_NAMES, values, 0, "declaredTotal", f.value.declaredTotal);
      TextStated(FOOTING_NAMES, values, 1, "lineSum", f.value.lineSum);
    }
  }

  lemma ChargesRead(cs: seq<Charge>)
    ensures WriteCharges(cs).Arr? && ReadCharges(WriteCharges(cs).items) == cs
  {
    forall i | 0 <= i < |cs| ensures ReadCharge(WriteCharge(cs[i])) == cs[i] { ChargeRead(cs[i]); }
    hide ReadCharge;
    hide WriteCharge;
  }

  lemma InvoiceIs(v: Value, inv: Invoice)
    requires TextAt(v, "transactionSet") == Some(inv.transactionSet)
    requires TextAt(v, "parserVersion") == Some(inv.parserVersion)
    requires TextAt(v, "invoiceNumber") == inv.invoiceNumber && TextAt(v, "carrierCode") == inv.carrierCode
    requires TextAt(v, "vesselVoyage") == inv.vesselVoyage && TextAt(v, "headerCurrency") == inv.headerCurrency
    requires CountAt(v, "shipmentReferences") == inv.shipmentReferences
    requires CountAt(v, "containerNumbers") == inv.containerNumbers && CountAt(v, "portCodes") == inv.portCodes
    requires Get(v, Ascii("footing")) == WriteFooting(inv.footing)
    requires Get(v, Ascii("charges")) == WriteCharges(inv.charges)
    ensures ReadInvoice(v) == inv
  {
    FootingRead(inv.footing);
    ChargesRead(inv.charges);
    hide TextAt;
    hide CountAt;
    hide Get;
    hide ReadFooting;
    hide WriteFooting;
    hide ReadCharges;
    hide WriteCharges;
    hide Ascii;
  }

  lemma InvoiceValues(inv: Invoice) returns (values: seq<Value>)
    ensures |values| == |INVOICE_NAMES| && WriteInvoice(inv) == Fields(INVOICE_NAMES, values)
    ensures values == [Str(inv.transactionSet), Str(inv.parserVersion), TextOr(inv.invoiceNumber),
                       ListOr(inv.shipmentReferences), TextOr(inv.carrierCode), ListOr(inv.containerNumbers),
                       TextOr(inv.vesselVoyage), ListOr(inv.portCodes), TextOr(inv.headerCurrency),
                       WriteFooting(inv.footing), WriteCharges(inv.charges)]
  {
    values := [Str(inv.transactionSet), Str(inv.parserVersion), TextOr(inv.invoiceNumber),
               ListOr(inv.shipmentReferences), TextOr(inv.carrierCode), ListOr(inv.containerNumbers),
               TextOr(inv.vesselVoyage), ListOr(inv.portCodes), TextOr(inv.headerCurrency),
               WriteFooting(inv.footing), WriteCharges(inv.charges)];
    hide TextOr;
    hide ListOr;
    hide WriteFooting;
    hide WriteCharges;
    hide Fields;
  }

  /** An invoice written with the members of its type is read back as it was: every property is read from its own
      member, lists by their length. */
  lemma InvoiceRead(inv: Invoice)
    ensures ReadInvoice(WriteInvoice(inv)) == inv
  {
    hide *;
    var values := InvoiceValues(inv);
    InvoiceNamesApart();
    InvoiceNames();
    TextStated(INVOICE_NAMES, values, 0, "transactionSet", inv.transactionSet);
    TextStated(INVOICE_NAMES, values, 1, "parserVersion", inv.parserVersion);
    TextRead(INVOICE_NAMES, values, 2, "invoiceNumber", inv.invoiceNumber);
    CountRead(INVOICE_NAMES, values, 3, "shipmentReferences", inv.shipmentReferences);
    TextRead(INVOICE_NAMES, values, 4, "carrierCode", inv.carrierCode);
    CountRead(INVOICE_NAMES, values, 5, "containerNumbers", inv.containerNumbers);
    TextRead(INVOICE_NAMES, values, 6, "vesselVoyage", inv.vesselVoyage);
    CountRead(INVOICE_NAMES, values, 7, "portCodes", inv.portCodes);
    TextRead(INVOICE_NAMES, values, 8, "headerCurrency", inv.headerCurrency);
    FieldRead(INVOICE_NAMES, values, 9, "footing");
    FieldRead(INVOICE_NAMES, values, 10, "charges");
    InvoiceIs(WriteInvoice(inv), inv);
  }

  // ---- contract facts ------------------------------------------------------------------------

  const RATE_NAMES: seq<string> := ["amount", "currency"]
  const FOUND_NAMES: seq<string> := ["status", "value", "resolverVersion", "pin"]
  const UNAVAILABLE_NAMES: seq<string> := ["status", "reason", "resolverVersion"]
  const PIN_NAMES: seq<string> := ["externalValueId"]
  const CONTRACT_NAMES: seq<string> := ["linehaulRate", "duplicateInvoice", "shipmentReferenceMatch",
                                        "externalResolutions"]

  function WriteRate(r: LinehaulRate): Value {
    match r
    case Omitted => Undefined
    case NoRate => Null
    case Rate(amount, currency) => Fields(RATE_NAMES, [Str(amount), Str(currency)])
  }

  function WriteResolution(r: Resolution): Value {
    match r
    case Found(value, version, id) =>
      Fields(FOUND_NAMES, [Str(Ascii("FOUND")), Str(value), Str(version), Fields(PIN_NAMES, [Str(id)])])
    case Unavailable(reason, version) =>
      Fields(UNAVAILABLE_NAMES, [Str(Ascii("UNAVAILABLE")), Str(reason), Str(version)])
  }

  function WriteExternals(entries: seq<(Text, Resolution)>): Value {
    Obj(seq(|entries|, i requires 0 <= i < |entries| => Member(entries[i].0, WriteResolution(entries[i].1))))
  }

  function WriteContract(c: ContractFacts): Value {
    Fields(CONTRACT_NAMES, [WriteRate(c.linehaulRate), FlagOr(c.duplicateInvoice), FlagOr(c.shipmentReferenceMatch),
                            WriteExternals(c.externals)])
  }

  lemma ContractNames()
    ensures |RATE_NAMES| == 2 && RATE_NAMES[0] == "amount" && RATE_NAMES[1] == "currency" && Apart(RATE_NAMES)
    ensures |FOUND_NAMES| == 4 && FOUND_NAMES[0] == "status" && FOUND_NAMES[1] == "value"
    ensures FOUND_NAMES[2] == "resolverVersion" && FOUND_NAMES[3] == "pin" && Apart(FOUND_NAMES)
    ensures |UNAVAILABLE_NAMES| == 3 && UNAVAILABLE_NAMES[0] == "status" && UNAVAILABLE_NAMES[1] == "reason"
    ensures UNAVAILABLE_NAMES[2] == "resolverVersion" && Apart(UNAVAILABLE_NAMES)
    ensures |PIN_NAMES| == 1 && PIN_NAMES[0] == "externalValueId" && Apart(PIN_NAMES)
    ensures |CONTRACT_NAMES| == 4 && CONTRACT_NAMES[0] == "linehaulRate" && CONTRACT_NAMES[1] == "duplicateInvoice"
    ensures CONTRACT_NAMES[2] == "shipmentReferenceMatch" && CONTRACT_NAMES[3] == "externalResolutions"
    ensures Apart(CONTRACT_NAMES)
  {
    assert |Ascii("amount")| == 6 && |Ascii("currency")| == 8;
    assert |Ascii("status")| == 6 && |Ascii("value")| == 5 && |Ascii("resolverVersion")| == 15 && |Ascii("pin")| == 3;
    assert Ascii("status")[0] == 115 && Ascii("reason")[0] == 114;
    assert |Ascii("linehaulRate")| == 12 && |Ascii("duplicateInvoice")| == 16;
    assert |Ascii("shipmentReferenceMatch")| == 22 && |Ascii("externalResolutions")| == 19;
  }

  lemma RateRead(r: LinehaulRate)
    ensures ReadRate(WriteRate(r)) == r
  {
    if r.Rate? {
      ContractNames();
      hide RATE_NAMES;
      hide Apart;
      hide TextAt;
      TextStated(RATE_NAMES, [Str(r.amount), Str(r.currency)], 0, "amount", r.amount);
      TextStated(RATE_NAMES, [Str(r.amount), Str(r.currency)], 1, "currency", r.currency);
    }
  }

  lemma ResolutionRead(r: Resolution)
    ensures ReadResolution(WriteResolution(r)) == r
  {
    ContractNames();
    assert |Ascii("FOUND")| == 5 && |Ascii("UNAVAILABLE")| == 11;
    hide FOUND_NAMES;
    hide UNAVAILABLE_NAMES;
    hide PIN_NAMES;
    hide Apart;
    hide TextAt;
    hide Get;
    hide Ascii;
    hide Fields;
    match r
    case Found(value, version, id) =>
      var values := [Str(Ascii("FOUND")), Str(value), Str(version), Fields(PIN_NAMES, [Str(id)])];
      TextStated(FOUND_NAMES, values, 0, "status", Ascii("FOUND"));
      TextStated(FOUND_NAMES, values, 1, "value", value);
      TextStated(FOUND_NAMES, values, 2, "resolverVersion", version);
      FieldRead(FOUND_NAMES, values, 3, "pin");
      TextStated(PIN_NAMES, [Str(id)], 0, "externalValueId", id);
    case Unavailable(reason, version) =>
      var values := [Str(Ascii("UNAVAILABLE")), Str(reason), Str(version)];
      TextStated(UNAVAILABLE_NAMES, values, 0, "status", Ascii("UNAVAILABLE"));
      TextStated(UNAVAILABLE_NAMES, values, 1, "reason", reason);
      TextStated(UNAVAILABLE_NAMES, values, 2, "resolverVersion", version);
  }

  /** Entries as they are read: with distinct keys, in the order of keys. */
  ghost predicate InKeyOrder(keyOrder: (Text, Text) -> bool, entries: seq<(Text, Resolution)>) {
    forall i, j | 0 <= i < j < |entries| :: keyOrder(entries[i].0, entries[j].0) && entries[i].0 != entries[j].0
  }

  lemma {:induction false} AllDefined(ms: seq<Member>)
    requires forall m | m in ms :: !m.value.Undefined?
    ensures DropUndefined(ms) == ms
    decreases |ms|
  {
    if ms != [] { AllDefined(ms[1..]); }
  }

  lemma ExternalKeysRead(keyOrder: (Text, Text) -> bool, entries: seq<(Text, Resolution)>)
    requires TotalOrder(keyOrder) && InKeyOrder(keyOrder, entries)
    ensures var keys := EntryKeys(keyOrder, WriteExternals(entries));
            |keys| == |entries| && forall i | 0 <= i < |keys| :: keys[i] == entries[i].0
  {
    var ms := WriteExternals(entries).members;
    AllDefined(ms);
    var keys := KeysOf(ms);
    SortSorts(keyOrder, keys);
    SortKeepsMultiset(keyOrder, keys);
    assert SortedBy(keyOrder, keys);
    SortedIsUnique(keyOrder, keys, SortBy(keyOrder, keys));
    hide SortBy;
    hide TotalOrder;
    hide WriteResolution;
  }

  lemma ExternalsRead(keyOrder: (Text, Text) -> bool, entries: seq<(Text, Resolution)>)
    requires TotalOrder(keyOrder) && InKeyOrder(keyOrder, entries)
    ensures ReadExternals(keyOrder, WriteExternals(entries)) == entries
  {
    ExternalKeysRead(keyOrder, entries);
    var v := WriteExternals(entries);
    forall i | 0 <= i < |entries| ensures ReadResolution(Get(v, entries[i].0)) == entries[i].1 {
      FindAt(v.members, i);
      ResolutionRead(entries[i].1);
    }
    hide EntryKeys;
    hide ReadResolution;
    hide WriteExternals;
    hide Get;
    hide TotalOrder;
  }

  lemma ContractIs(keyOrder: (Text, Text) -> bool, v: Value, c: ContractFacts)
    requires TotalOrder(keyOrder) && InKeyOrder(keyOrder, c.externals)
    requires Get(v, Ascii("linehaulRate")) == WriteRate(c.linehaulRate)
    requires BoolAt(v, "duplicateInvoice") == c.duplicateInvoice
    requires BoolAt(v, "shipmentReferenceMatch") == c.shipmentReferenceMatch
    requires Get(v, Ascii("externalResolutions")) == WriteExternals(c.externals)
    ensures ReadContract(keyOrder, v) == c
  {
    RateRead(c.linehaulRate);
    ExternalsRead(keyOrder, c.externals);
    hide ReadRate;
    hide WriteRate;
    hide ReadExternals;
    hide WriteExternals;
    hide BoolAt;
    hide Get;
    hide Ascii;
  }

  lemma ContractValues(c: ContractFacts) returns (values: seq<Value>)
    ensures |values| == |CONTRACT_NAMES| && WriteContract(c) == Fields(CONTRACT_NAMES, values)
    ensures values == [WriteRate(c.linehaulRate), FlagOr(c.duplicateInvoice), FlagOr(c.shipmentReferenceMatch),
                       WriteExternals(c.externals)]
  {
    values := [WriteRate(c.linehaulRate), FlagOr(c.duplicateInvoice), FlagOr(c.shipmentReferenceMatch),
               WriteExternals(c.externals)];
    hide WriteRate;
    hide WriteExternals;
    hide Fields;
  }

  /** Contract facts, likewise, with external values in the order of their keys. */
  lemma ContractRead(keyOrder: (Text, Text) -> bool, c: ContractFacts)
    requires TotalOrder(keyOrder) && InKeyOrder(keyOrder, c.externals)
    ensures ReadContract(keyOrder, WriteContract(c)) == c
  {
    hide *;
    var values := ContractValues(c);
    ContractNames();
    FieldRead(CONTRACT_NAMES, values, 0, "linehaulRate");
    FlagRead(CONTRACT_NAMES, values, 1, "duplicateInvoice", c.duplicateInvoice);
    FlagRead(CONTRACT_NAMES, values, 2, "shipmentReferenceMatch", c.shipmentReferenceMatch);
    FieldRead(CONTRACT_NAMES, values, 3, "externalResolutions");
    ContractIs(keyOrder, WriteContract(c), c);
  }
}
