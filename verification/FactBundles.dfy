/** The fact bundle and the coverage markers: src/modules/evaluator/fact-bundle.ts. A fact that is `undefined` is absent
    from the bundle. */
module FactBundles {
  import opened FactViews
  import opened Sorting
  import opened Sums
  import opened Texts

  datatype FactValue = Count(n: nat) | Flag(b: bool) | Money(amount: Text, currency: Text) | DecimalOf(value: Text)
      | Words(t: Text)

  type Bundle = map<Text, FactValue>

  /** Decimal arithmetic and Unicode text functions: `toFixed(4)`, the sum to four places, `rate * basis` within a cent
      of the amount, `trim() === ''`, and the slug of a source code. */
  datatype Arithmetic = Arithmetic(fixed: Text -> Text, total: seq<Text> -> Text,
                                   withinCent: (Text, Text, Text) -> bool,
                                   blank: Text -> bool, slug: Text -> Text)

  // ---- coverage markers ----------------------------------------------------------------------

  datatype MarkerCode = IncompleteRateBasis | FuelWithoutRateBasis | MissingChargeIdentity

  datatype CoverageMarker = CoverageMarker(chargeIndex: nat, code: MarkerCode, missingFields: seq<string>)

  predicate Stated(a: Arithmetic, t: Option<Text>) { t.Some? && !a.blank(t.value) }

  function MarkersAt(a: Arithmetic, c: Charge, index: nat): seq<CoverageMarker> {
    (if c.rate.Some? != c.basis.Some?
        then [CoverageMarker(index, IncompleteRateBasis, [if c.rate.Some? then "basis" else "rate"])]
     else if c.category == Some(Ascii("FUEL")) && c.rate.None?
         then [CoverageMarker(index, FuelWithoutRateBasis, ["rate", "basis"])]
     else [])
    + if !Stated(a, c.code) && !Stated(a, c.rawDescription)
        then [CoverageMarker(index, MissingChargeIdentity, ["code", "rawDescription"])] else []
  }

  function Markers(a: Arithmetic, charges: seq<Charge>): seq<CoverageMarker> {
    if charges == [] then []
        else Markers(a, charges[..|charges| - 1]) + MarkersAt(a, charges[|charges| - 1], |charges| - 1)
  }

  method FindCoverageMarkers(a: Arithmetic, charges: seq<Charge>) returns (markers: seq<CoverageMarker>)
    ensures markers == Markers(a, charges)
  {
    markers := [];
    for i := 0 to |charges|
      invariant markers == Markers(a, charges[..i])
    {
      var c := charges[i];
      var hasRate, hasBasis := c.rate.Some?, c.basis.Some?;
      ghost var before := markers;
      if hasRate != hasBasis {
        markers := markers + [CoverageMarker(i, IncompleteRateBasis, [if hasRate then "basis" else "rate"])];
      } else if c.category == Some(Ascii("FUEL")) && !hasRate && !hasBasis {
        markers := markers + [CoverageMarker(i, FuelWithoutRateBasis, ["rate", "basis"])];
      }
      if !Stated(a, c.code) && !Stated(a, c.rawDescription) {
        markers := markers + [CoverageMarker(i, MissingChargeIdentity, ["code", "rawDescription"])];
      }
      assert charges[..i + 1][..i] == charges[..i];
      assert markers == before + MarkersAt(a, c, i);
    }
    assert charges[..|charges|] == charges;
  }

  predicate Lacks(a: Arithmetic, c: Charge, field: string) {
    || (field == "rate" && c.rate.None?)
    || (field == "basis" && c.basis.None?)
    || (field == "code" && !Stated(a, c.code))
    || (field == "rawDescription" && !Stated(a, c.rawDescription))
  }

  /** What each marker says about its charge. */
  predicate Marks(a: Arithmetic, c: Charge, code: MarkerCode) {
    match code
    case IncompleteRateBasis => Lacks(a, c, "rate") <==> !Lacks(a, c, "basis")
    case FuelWithoutRateBasis => c.category == Some(Ascii("FUEL")) && Lacks(a, c, "rate") && Lacks(a, c, "basis")
    case MissingChargeIdentity => Lacks(a, c, "code") && Lacks(a, c, "rawDescription")
  }

  /** A charge carries a marker exactly when the gap is there, and the marker names fields the charge lacks. */
  lemma {:induction false} MarkersMeaning(a: Arithmetic, charges: seq<Charge>, index: nat, code: MarkerCode)
    ensures (exists m :: m in Markers(a, charges) && m.chargeIndex == index && m.code == code)
        <==> index < |charges| && Marks(a, charges[index], code)
    ensures forall m | m in Markers(a, charges) :: m.chargeIndex < |charges| && forall f | f in m.missingFields ::
        Lacks(a, charges[m.chargeIndex], f)
    decreases |charges|
  {
    if charges != [] {
      var n := |charges| - 1;
      MarkersMeaning(a, charges[..n], index, code);
      var here := MarkersAt(a, charges[n], n);
      hide MarkersAt;
      MarkersAtMeaning(a, charges[n], n, code);
      forall m | m in Markers(a, charges) ensures m in Markers(a, charges[..n]) || m in here {}
      forall m | m in Markers(a, charges[..n]) || m in here ensures m in Markers(a, charges) {}
    }
  }

  lemma MarkersAtMeaning(a: Arithmetic, c: Charge, index: nat, code: MarkerCode)
    ensures (exists m :: m in MarkersAt(a, c, index) && m.code == code) <==> Marks(a, c, code)
    ensures forall m | m in MarkersAt(a, c, index) :: m.chargeIndex == index && forall f | f in m.missingFields ::
        Lacks(a, c, f)
  {
    var ms := MarkersAt(a, c, index);
    if Marks(a, c, code) {
      match code
      case IncompleteRateBasis => assert ms[0].code == code;
      case FuelWithoutRateBasis => assert ms[0].code == code;
      case MissingChargeIdentity => assert ms[|ms| - 1].code == code;
    }
  }

  // ---- the bundle ----------------------------------------------------------------------------

  /** Assigning `undefined` leaves the fact absent. */
  function Put(bundle: Bundle, key: string, v: Option<FactValue>): Bundle {
    if v.Some? then bundle[Ascii(key) := v.value] else bundle - {Ascii(key)}
  }

  function MoneyFact(amount: Option<Text>, currency: Text): Option<FactValue> {
    if amount.Some? then Some(Money(amount.value, currency)) else None
  }

  function FlagFact(b: Option<bool>): Option<FactValue> { if b.Some? then Some(Flag(b.value)) else None }

  predicate CurrencyCode(t: Text) { |t| == 3 && forall i | 0 <= i < 3 :: 65 <= t[i] <= 90 }

  function CountOf(n: Option<nat>): nat { if n.Some? then n.value else 0 }

  function RateBasisMatches(a: Arithmetic, charges: seq<Charge>): Option<bool> {
    var using := Keep(charges, (c: Charge) => c.rate.Some? || c.basis.Some?);
    if using == [] || exists c :: c in using && (c.rate.None? || c.basis.None? || c.amount.None?) then None
    else
      Some(forall c | c in using ::
             && c.rate.Some? && c.basis.Some? && c.amount.Some?
             && a.withinCent(c.rate.value, c.basis.value, c.amount.value))
  }

  predicate CurrenciesStated(cs: seq<Charge>) { forall c | c in cs :: c.currency != [] }

  predicate AmountsStated(cs: seq<Charge>) { forall c | c in cs :: c.amount.Some? }

  function QuarantinedCount(cs: seq<Charge>): nat { |Keep(cs, (c: Charge) => c.quarantined)| }

  predicate HasFuel(cs: seq<Charge>) { exists c :: c in cs && c.category == Some(Ascii("FUEL")) }

  predicate IdentitiesStated(a: Arithmetic, cs: seq<Charge>) {
    forall c | c in cs :: Stated(a, c.code) || Stated(a, c.rawDescription)
  }

  predicate CurrencyCodes(cs: seq<Charge>) { forall c | c in cs :: CurrencyCode(c.currency) }

  predicate CurrenciesAlike(cs: seq<Charge>) { forall c, d | c in cs && d in cs :: c.currency == d.currency }

  /** The facts the invoice and the contract give directly, under their names. */
  function NamedFacts(a: Arithmetic, inv: Invoice, contract: ContractFacts, markerCount: nat): seq<(string,
      Option<FactValue>)> {
    var currency := OrEmpty(inv.headerCurrency);
    var lineSum := if inv.footing.Some? then inv.footing.value.lineSum else Ascii("0.0000");
    var declaredTotal := if inv.footing.Some? then inv.footing.value.declaredTotal else None;
    var is210, is310 := inv.transactionSet == Ascii("210"), inv.transactionSet == Ascii("310");
    [("declared_total", MoneyFact(declaredTotal, currency)),
     ("line_sum", Some(Money(a.fixed(lineSum), currency))),
     ("all_currencies_stated", Some(Flag(CurrenciesStated(inv.charges)))),
     ("all_amounts_stated", Some(Flag(AmountsStated(inv.charges)))),
     ("charge_count", Some(Count(|inv.charges|))),
     ("quarantined_count", Some(Count(QuarantinedCount(inv.charges)))),
     ("has_fuel_category", Some(Flag(HasFuel(inv.charges)))),
     ("duplicate_invoice", FlagFact(contract.duplicateInvoice)),
     ("shipment_reference_match", FlagFact(contract.shipmentReferenceMatch)),
     ("rate_basis_arithmetic_matches", FlagFact(RateBasisMatches(a, inv.charges))),
     ("required_210_invoice_number", Some(Flag(!is210 || Stated(a, inv.invoiceNumber)))),
     ("required_210_shipment_id", Some(Flag(!is210 || CountOf(inv.shipmentReferences) > 0))),
     ("required_210_scac", Some(Flag(!is210 || Stated(a, inv.carrierCode)))),
     ("required_310_invoice_number", Some(Flag(!is310 || Stated(a, inv.invoiceNumber)))),
     ("required_310_reference", Some(Flag(!is310 || CountOf(inv.shipmentReferences) > 0))),
     ("required_310_container", Some(Flag(!is310 || CountOf(inv.containerNumbers) > 0))),
     ("required_310_vessel_voyage", Some(Flag(!is310 || Stated(a, inv.vesselVoyage)))),
     ("required_310_ports", Some(Flag(!is310 || CountOf(inv.portCodes) >= 2))),
     ("required_310_charge_identity", Some(Flag(!is310 || IdentitiesStated(a, inv.charges)))),
     ("valid_310_currency_codes", Some(Flag(!is310 || CurrencyCodes(inv.charges)))),
     ("consistent_310_charge_currencies", if !is310 then None else Some(Flag(CurrenciesAlike(inv.charges)))),
     ("suspicious_missing_data_count", Some(Count(markerCount)))]
  }

  function PutAll(bundle: Bundle, facts: seq<(string, Option<FactValue>)>): Bundle
    decreases |facts|
  {
    if facts == [] then bundle else PutAll(Put(bundle, facts[0].0, facts[0].1), facts[1..])
  }

  function BaseFacts(a: Arithmetic, inv: Invoice, contract: ContractFacts, markerCount: nat): Bundle {
    PutAll(map[], NamedFacts(a, inv, contract, markerCount))
  }

  function FactKey(a: Arithmetic, sourceCode: Text, suffix: string): Text {
    Ascii("external_") + a.slug(sourceCode) + Ascii(suffix)
  }

  function WithExternal(a: Arithmetic, bundle: Bundle, entry: (Text, Resolution)): Bundle {
    var (code, resolution) := entry;
    match resolution
    case Found(value, resolverVersion, externalValueId) =>
      bundle[FactKey(a, code, "") := DecimalOf(value)][FactKey(a, code, "_resolver_version") := Words(resolverVersion)]
        [FactKey(a, code, "_external_value_id") := Words(externalValueId)]
    case Unavailable(reason, resolverVersion) =>
      bundle[FactKey(a, code, "_unavailable_reason") := Words(reason)][FactKey(a, code,
          "_resolver_version") := Words(resolverVersion)]
  }

  function WithExternals(a: Arithmetic, bundle: Bundle, entries: seq<(Text, Resolution)>): Bundle {
    if entries == [] then bundle
        else WithExternal(a, WithExternals(a, bundle, entries[..|entries| - 1]), entries[|entries| - 1])
  }

  /** The charges whose amounts make up the billed linehaul. */
  function LinehaulCharges(inv: Invoice): seq<Charge> {
    Keep(inv.charges, (c: Charge) => c.category == Some(Ascii("LINEHAUL")) && !c.quarantined && c.amount.Some?)
  }

  predicate OneCurrency(charges: seq<Charge>) {
    charges != [] && forall c | c in charges :: c.currency == charges[0].currency
  }

  function Amounts(charges: seq<Charge>): seq<Text> {
    seq(|charges|, i requires 0 <= i < |charges| => OrEmpty(charges[i].amount))
  }

  function WithRate(a: Arithmetic, bundle: Bundle, inv: Invoice, rate: LinehaulRate): Bundle {
    if rate == Omitted then bundle
    else
      var charges := LinehaulCharges(inv);
      var billed := if OneCurrency(charges) then Some(Money(a.total(Amounts(charges)), charges[0].currency)) else None;
      var contracted := if rate.Rate? then Some(Money(rate.amount, rate.currency)) else None;
      var agree := billed.Some? && contracted.Some? && charges[0].currency != []
          && charges[0].currency == rate.currency;
      Put(Put(Put(bundle, "billed_linehaul", billed), "contract_linehaul_rate", contracted),
          "linehaul_currencies_match", if agree then Some(Flag(true)) else None)
  }

  function Facts(a: Arithmetic, inv: Invoice, contract: ContractFacts): Bundle {
    WithRate(a, WithExternals(a, BaseFacts(a, inv, contract, |Markers(a, inv.charges)|), contract.externals), inv,
             contract.linehaulRate)
  }

  method BuildFactBundle(a: Arithmetic, inv: Invoice, contract: ContractFacts) returns (bundle: Bundle)
    ensures bundle == Facts(a, inv, contract)
  {
    hide BaseFacts;
    hide WithRate;
    var markers := FindCoverageMarkers(a, inv.charges);
    bundle := BaseFacts(a, inv, contract, |markers|);
    ghost var base := bundle;
    for i := 0 to |contract.externals|
      invariant bundle == WithExternals(a, base, contract.externals[..i])
    {
      var (code, resolution) := contract.externals[i];
      assert contract.externals[..i + 1][..i] == contract.externals[..i];
      match resolution {
        case Found(value, resolverVersion, externalValueId) =>
          bundle := bundle[FactKey(a, code, "") := DecimalOf(value)];
          bundle := bundle[FactKey(a, code, "_resolver_version") := Words(resolverVersion)];
          bundle := bundle[FactKey(a, code, "_external_value_id") := Words(externalValueId)];
        case Unavailable(reason, resolverVersion) =>
          bundle := bundle[FactKey(a, code, "_unavailable_reason") := Words(reason)];
          bundle := bundle[FactKey(a, code, "_resolver_version") := Words(resolverVersion)];
      }
    }
    assert contract.externals[..|contract.externals|] == contract.externals;
    bundle := AddLinehaul(a, bundle, inv, contract.linehaulRate);
  }

  method AddLinehaul(a: Arithmetic, before: Bundle, inv: Invoice, rate: LinehaulRate) returns (bundle: Bundle)
    ensures bundle == WithRate(a, before, inv, rate)
  {
    bundle := before;
    if rate != Omitted {
      var charges := LinehaulCharges(inv);
      var billedCurrency, billed: Option<FactValue> := None, None;
      if OneCurrency(charges) {
        billedCurrency := Some(charges[0].currency);
        billed := Some(Money(a.total(Amounts(charges)), charges[0].currency));
      }
      bundle := Put(bundle, "billed_linehaul", billed);
      bundle := Put(bundle, "contract_linehaul_rate", if rate.Rate? then Some(Money(rate.amount, rate.currency))
          else None);
      var statedAndEqual := billedCurrency.Some? && rate.Rate? && billedCurrency.value != [] && rate.currency != []
          && billedCurrency.value == rate.currency;
      bundle := Put(bundle, "linehaul_currencies_match", if statedAndEqual then Some(Flag(true)) else None);
    }
  }

  // ---- what the bundle guarantees ------------------------------------------------------------

  /** Keys under which no external value is ever written. */
  predicate Own(key: Text) { |key| == 0 || key[0] != 101 || |key| < 2 || key[1] != 120 }

  lemma {:induction false} ExternalsLeaveOwnFacts(a: Arithmetic, bundle: Bundle, entries: seq<(Text, Resolution)>,
                                                  key: Text)
    requires Own(key)
    ensures (key in WithExternals(a, bundle, entries) <==> key in bundle)
    ensures key in bundle ==> WithExternals(a, bundle, entries)[key] == bundle[key]
    decreases |entries|
  {
    if entries != [] {
      var n := |entries| - 1;
      ExternalsLeaveOwnFacts(a, bundle, entries[..n], key);
      var code := entries[n].0;
      ExternalKeysDiffer(a, code, "", key);
      ExternalKeysDiffer(a, code, "_resolver_version", key);
      ExternalKeysDiffer(a, code, "_external_value_id", key);
      ExternalKeysDiffer(a, code, "_unavailable_reason", key);
      hide FactKey;
    }
  }

  lemma ExternalKeysDiffer(a: Arithmetic, code: Text, suffix: string, key: Text)
    requires Own(key)
    ensures FactKey(a, code, suffix) != key
  {
    assert FactKey(a, code, suffix)[0] == 101 && FactKey(a, code, suffix)[1] == 120;
  }

  /** Two currencies agree: all billed linehaul is in one stated currency, that of a contracted rate. */
  predicate CurrenciesAgree(inv: Invoice, rate: LinehaulRate) {
    && rate.Rate? && rate.currency != [] && LinehaulCharges(inv) != []
    && forall c | c in inv.charges && c.category == Some(Ascii("LINEHAUL")) && !c.quarantined && c.amount.Some? ::
        c.currency == rate.currency
  }

  /** The guard of every rate comparison is present exactly when the currencies agree, and is then `true`: never
      `false`, whatever the external values are called. */
  lemma CurrencyGuard(a: Arithmetic, inv: Invoice, contract: ContractFacts)
    ensures var key := Ascii("linehaul_currencies_match"); var facts := Facts(a, inv, contract);
            (key in facts <==> CurrenciesAgree(inv, contract.linehaulRate))
                && (key in facts ==> facts[key] == Flag(true))
  {
    var key := Ascii("linehaul_currencies_match");
    var base := BaseFacts(a, inv, contract, |Markers(a, inv.charges)|);
    assert key !in base by { GuardIsNotABaseFact(a, inv, contract, |Markers(a, inv.charges)|); }
    assert Own(key);
    hide BaseFacts;
    hide Ascii;
    ExternalsLeaveOwnFacts(a, base, contract.externals, key);
    hide Own;
    GuardAfterRate(a, WithExternals(a, base, contract.externals), inv, contract.linehaulRate);
    hide WithExternals;
    hide WithRate;
    hide CurrenciesAgree;
  }

  lemma GuardAfterRate(a: Arithmetic, bundle: Bundle, inv: Invoice, rate: LinehaulRate)
    requires Ascii("linehaul_currencies_match") !in bundle
    ensures var key := Ascii("linehaul_currencies_match"); var facts := WithRate(a, bundle, inv, rate);
            (key in facts <==> CurrenciesAgree(inv, rate)) && (key in facts ==> facts[key] == Flag(true))
  {
    hide Ascii;
    var charges := LinehaulCharges(inv);
    assert forall c ::
        c in charges
        <==> c in inv.charges && c.category == Some(Ascii("LINEHAUL")) && !c.quarantined && c.amount.Some?;
    hide LinehaulCharges;
    if charges != [] { assert charges[0] in charges; }
  }

  lemma {:induction false} OnlyNamedFacts(bundle: Bundle, facts: seq<(string, Option<FactValue>)>, key: Text)
    requires key !in bundle && forall i | 0 <= i < |facts| :: |facts[i].0| != |key|
    ensures key !in PutAll(bundle, facts)
    decreases |facts|
  {
    if facts != [] { OnlyNamedFacts(Put(bundle, facts[0].0, facts[0].1), facts[1..], key); }
  }

  lemma GuardIsNotABaseFact(a: Arithmetic, inv: Invoice, contract: ContractFacts, markerCount: nat)
    ensures Ascii("linehaul_currencies_match") !in BaseFacts(a, inv, contract, markerCount)
  {
    hide RateBasisMatches;
    hide PutAll;
    var key := Ascii("linehaul_currencies_match");
    OnlyNamedFacts(map[], NamedFacts(a, inv, contract, markerCount), key);
  }
}
