/** Which facts a bundle holds, and where from. */
module BundleLaws {
  import opened FactBundles
  import opened FactViews
  import opened Sorting
  import opened Sums
  import opened Texts

  // What src/modules/evaluator/fact-bundle.ts, lines 57-164, promises of a bundle, key by key.

  function FactAt(bundle: Bundle, key: string): Option<FactValue> {
    if Ascii(key) in bundle then Some(bundle[Ascii(key)]) else None
  }

  // ---- facts put under distinct names --------------------------------------------------------

  predicate NamedApart(facts: seq<(string, Option<FactValue>)>) {
    forall i, j | 0 <= i < j < |facts| :: Ascii(facts[i].0) != Ascii(facts[j].0)
  }

  lemma {:induction false} PutAllLeaves(bundle: Bundle, facts: seq<(string, Option<FactValue>)>, key: Text)
    requires forall i | 0 <= i < |facts| :: Ascii(facts[i].0) != key
    ensures key in PutAll(bundle, facts) <==> key in bundle
    ensures key in bundle ==> PutAll(bundle, facts)[key] == bundle[key]
    decreases |facts|
  {
    if facts != [] { PutAllLeaves(Put(bundle, facts[0].0, facts[0].1), facts[1..], key); }
  }

  lemma {:induction false} PutAllAt(bundle: Bundle, facts: seq<(string, Option<FactValue>)>, i: nat)
    requires NamedApart(facts) && i < |facts|
    ensures FactAt(PutAll(bundle, facts), facts[i].0) == facts[i].1
    decreases |facts|
  {
    hide Ascii;
    var next := Put(bundle, facts[0].0, facts[0].1);
    if i == 0 {
      PutAllLeaves(next, facts[1..], Ascii(facts[0].0));
    } else {
      PutAllAt(next, facts[1..], i - 1);
    }
  }

  const NAMES: seq<string> := [
    "declared_total", "line_sum", "all_currencies_stated", "all_amounts_stated", "charge_count", "quarantined_count",
    "has_fuel_category", "duplicate_invoice", "shipment_reference_match", "rate_basis_arithmetic_matches",
    "required_210_invoice_number", "required_210_shipment_id", "required_210_scac", "required_310_invoice_number",
    "required_310_reference", "required_310_container", "required_310_vessel_voyage", "required_310_ports",
    "required_310_charge_identity", "valid_310_currency_codes", "consistent_310_charge_currencies",
    "suspicious_missing_data_count"]

  const RATE_NAMES: seq<string> := ["billed_linehaul", "contract_linehaul_rate", "linehaul_currencies_match"]

  lemma NamesApart()
    ensures forall i, j | 0 <= i < j < |NAMES| :: Ascii(NAMES[i]) != Ascii(NAMES[j])
  {
    forall i, j | 0 <= i < j < |NAMES| ensures Ascii(NAMES[i]) != Ascii(NAMES[j]) {
      var a, b := Ascii(NAMES[i]), Ascii(NAMES[j]);
      assert |a| != |b| || a[0] != b[0] || a[9] != b[9] || a[13] != b[13];
    }
  }

  /** No name is one of a rate fact, nor can an external value have it. */
  lemma NamesOwn(i: nat)
    requires i < |NAMES|
    ensures Own(Ascii(NAMES[i])) && forall k | 0 <= k < |RATE_NAMES| :: Ascii(NAMES[i]) != Ascii(RATE_NAMES[k])
  {
    var a := Ascii(NAMES[i]);
    assert a[0] != 101;
    forall k | 0 <= k < |RATE_NAMES| ensures a != Ascii(RATE_NAMES[k]) {
      var b := Ascii(RATE_NAMES[k]);
      assert |a| != |b| || a[0] != b[0];
    }
  }

  lemma NamesAre()
    ensures |NAMES| == 22
    ensures NAMES[0] == "declared_total" && NAMES[1] == "line_sum" && NAMES[2] == "all_currencies_stated"
    ensures NAMES[3] == "all_amounts_stated" && NAMES[4] == "charge_count" && NAMES[5] == "quarantined_count"
    ensures NAMES[6] == "has_fuel_category" && NAMES[7] == "duplicate_invoice"
    ensures NAMES[8] == "shipment_reference_match" && NAMES[9] == "rate_basis_arithmetic_matches"
    ensures NAMES[10] == "required_210_invoice_number" && NAMES[11] == "required_210_shipment_id"
    ensures NAMES[12] == "required_210_scac" && NAMES[13] == "required_310_invoice_number"
    ensures NAMES[14] == "required_310_reference" && NAMES[15] == "required_310_container"
    ensures NAMES[16] == "required_310_vessel_voyage" && NAMES[17] == "required_310_ports"
    ensures NAMES[18] == "required_310_charge_identity" && NAMES[19] == "valid_310_currency_codes"
    ensures NAMES[20] == "consistent_310_charge_currencies" && NAMES[21] == "suspicious_missing_data_count"
  {
  }

  lemma InvoiceNames(a: Arithmetic, inv: Invoice, contract: ContractFacts, n: nat)
    ensures var facts := NamedFacts(a, inv, contract, n);
      && |facts| == 22
      && facts[0].0 == "declared_total"
      && facts[1].0 == "line_sum"
      && facts[2].0 == "all_currencies_stated"
      && facts[3].0 == "all_amounts_stated"
  {
    hide RateBasisMatches;
    hide CurrenciesStated;
    hide AmountsStated;
    hide QuarantinedCount;
    hide HasFuel;
    hide IdentitiesStated;
    hide CurrencyCodes;
    hide CurrenciesAlike;
    hide Stated;
    hide CountOf;
    hide Ascii;
    hide FlagFact;
    hide MoneyFact;
  }

  lemma ChargeNames(a: Arithmetic, inv: Invoice, contract: ContractFacts, n: nat)
    ensures var facts := NamedFacts(a, inv, contract, n);
      && |facts| == 22
      && facts[4].0 == "charge_count"
      && facts[5].0 == "quarantined_count"
      && facts[6].0 == "has_fuel_category"
      && facts[7].0 == "duplicate_invoice"
      && facts[8].0 == "shipment_reference_match"
      && facts[9].0 == "rate_basis_arithmetic_matches"
  {
    hide RateBasisMatches;
    hide CurrenciesStated;
    hide AmountsStated;
    hide QuarantinedCount;
    hide HasFuel;
    hide IdentitiesStated;
    hide CurrencyCodes;
    hide CurrenciesAlike;
    hide Stated;
    hide CountOf;
    hide Ascii;
    hide FlagFact;
    hide MoneyFact;
  }

  lemma Names210(a: Arithmetic, inv: Invoice, contract: ContractFacts, n: nat)
    ensures var facts := NamedFacts(a, inv, contract, n);
      && |facts| == 22
      && facts[10].0 == "required_210_invoice_number"
      && facts[11].0 == "required_210_shipment_id"
      && facts[12].0 == "required_210_scac"
  {
    hide RateBasisMatches;
    hide CurrenciesStated;
    hide AmountsStated;
    hide QuarantinedCount;
    hide HasFuel;
    hide IdentitiesStated;
    hide CurrencyCodes;
    hide CurrenciesAlike;
    hide Stated;
    hide CountOf;
    hide Ascii;
    hide FlagFact;
    hide MoneyFact;
  }

  lemma Names310(a: Arithmetic, inv: Invoice, contract: ContractFacts, n: nat)
    ensures var facts := NamedFacts(a, inv, contract, n);
      && |facts| == 22
      && facts[13].0 == "required_310_invoice_number"
      && facts[14].0 == "required_310_reference"
      && facts[15].0 == "required_310_container"
      && facts[16].0 == "required_310_vessel_voyage"
      && facts[17].0 == "required_310_ports"
  {
    hide RateBasisMatches;
    hide CurrenciesStated;
    hide AmountsStated;
    hide QuarantinedCount;
    hide HasFuel;
    hide IdentitiesStated;
    hide CurrencyCodes;
    hide CurrenciesAlike;
    hide Stated;
    hide CountOf;
    hide Ascii;
    hide FlagFact;
    hide MoneyFact;
  }

  lemma CurrencyNames(a: Arithmetic, inv: Invoice, contract: ContractFacts, n: nat)
    ensures var facts := NamedFacts(a, inv, contract, n);
      && |facts| == 22
      && facts[18].0 == "required_310_charge_identity"
      && facts[19].0 == "valid_310_currency_codes"
      && facts[20].0 == "consistent_310_charge_currencies"
      && facts[21].0 == "suspicious_missing_data_count"
  {
    hide RateBasisMatches;
    hide CurrenciesStated;
    hide AmountsStated;
    hide QuarantinedCount;
    hide HasFuel;
    hide IdentitiesStated;
    hide CurrencyCodes;
    hide CurrenciesAlike;
    hide Stated;
    hide CountOf;
    hide Ascii;
    hide FlagFact;
    hide MoneyFact;
  }

  lemma NamedByNames(a: Arithmetic, inv: Invoice, contract: ContractFacts, n: nat)
    ensures var facts := NamedFacts(a, inv, contract, n);
            |facts| == |NAMES| && forall i | 0 <= i < |NAMES| :: facts[i].0 == NAMES[i]
  {
    hide *;
    NamesAre();
    InvoiceNames(a, inv, contract, n);
    ChargeNames(a, inv, contract, n);
    Names210(a, inv, contract, n);
    Names310(a, inv, contract, n);
    CurrencyNames(a, inv, contract, n);
  }

  lemma RateLeaves(a: Arithmetic, bundle: Bundle, inv: Invoice, rate: LinehaulRate, key: Text)
    requires forall k | 0 <= k < |RATE_NAMES| :: key != Ascii(RATE_NAMES[k])
    ensures key in WithRate(a, bundle, inv, rate) <==> key in bundle
    ensures key in bundle ==> WithRate(a, bundle, inv, rate)[key] == bundle[key]
  {
    hide Ascii;
    assert RATE_NAMES[0] == "billed_linehaul" && RATE_NAMES[1] == "contract_linehaul_rate"
        && RATE_NAMES[2] == "linehaul_currencies_match";
    hide LinehaulCharges;
    hide OneCurrency;
    hide Amounts;
  }

  /** A named fact is what was put under its name: nothing later touches it. */
  lemma NamedFactStays(a: Arithmetic, inv: Invoice, contract: ContractFacts, i: nat)
    requires i < |NAMES|
    ensures i < |NamedFacts(a, inv, contract, |Markers(a, inv.charges)|)|
    ensures FactAt(Facts(a, inv, contract), NAMES[i]) == NamedFacts(a, inv, contract, |Markers(a, inv.charges)|)[i].1
  {
    var n := |Markers(a, inv.charges)|;
    var facts := NamedFacts(a, inv, contract, n);
    NamedByNames(a, inv, contract, n);
    NamesApart();
    NamesOwn(i);
    hide NamedFacts;
    hide Ascii;
    hide Own;
    PutAllAt(map[], facts, i);
    var base := BaseFacts(a, inv, contract, n);
    assert base == PutAll(map[], facts);
    ExternalsLeaveOwnFacts(a, base, contract.externals, Ascii(NAMES[i]));
    RateLeaves(a, WithExternals(a, base, contract.externals), inv, contract.linehaulRate, Ascii(NAMES[i]));
    hide WithRate;
    hide WithExternals;
    hide PutAll;
  }

  // ---- the facts of the invoice and the contract ---------------------------------------------

  predicate Given(t: Option<Text>, a: Arithmetic) { t.Some? && !a.blank(t.value) }

  function Size(n: Option<nat>): nat { match n case Some(k) => k case None => 0 }

  /** The facts in their order; what is behind the names is below. */
  lemma ChargeFactsAre(a: Arithmetic, inv: Invoice, contract: ContractFacts, n: nat)
    ensures var facts, cs := NamedFacts(a, inv, contract, n), inv.charges;
      && |facts| == 22
      && facts[2].1 == Some(Flag(CurrenciesStated(cs))) && facts[3].1 == Some(Flag(AmountsStated(cs)))
      && facts[4].1 == Some(Count(|cs|)) && facts[5].1 == Some(Count(QuarantinedCount(cs)))
      && facts[6].1 == Some(Flag(HasFuel(cs))) && facts[21].1 == Some(Count(n))
  {
    hide RateBasisMatches;
    hide CurrenciesStated;
    hide AmountsStated;
    hide QuarantinedCount;
    hide HasFuel;
    hide IdentitiesStated;
    hide CurrencyCodes;
    hide CurrenciesAlike;
    hide Stated;
    hide CountOf;
    hide Ascii;
    hide FlagFact;
    hide MoneyFact;
  }

  lemma OptionalFactsAre(a: Arithmetic, inv: Invoice, contract: ContractFacts, n: nat)
    ensures var facts := NamedFacts(a, inv, contract, n);
      && |facts| == 22
      && facts[7].1 == FlagFact(contract.duplicateInvoice) && facts[8].1 == FlagFact(contract.shipmentReferenceMatch)
      && facts[9].1 == FlagFact(RateBasisMatches(a, inv.charges))
  {
    hide RateBasisMatches;
    hide CurrenciesStated;
    hide AmountsStated;
    hide QuarantinedCount;
    hide HasFuel;
    hide IdentitiesStated;
    hide CurrencyCodes;
    hide CurrenciesAlike;
    hide Stated;
    hide CountOf;
    hide Ascii;
    hide FlagFact;
    hide MoneyFact;
  }

  lemma RequiredFactsAre(a: Arithmetic, inv: Invoice, contract: ContractFacts, n: nat)
    ensures var facts := NamedFacts(a, inv, contract, n);
            var is210, is310 := inv.transactionSet == Ascii("210"), inv.transactionSet == Ascii("310");
      && |facts| == 22
      && facts[10].1 == Some(Flag(!is210 || Stated(a, inv.invoiceNumber)))
      && facts[11].1 == Some(Flag(!is210 || CountOf(inv.shipmentReferences) > 0))
      && facts[12].1 == Some(Flag(!is210 || Stated(a, inv.carrierCode)))
      && facts[13].1 == Some(Flag(!is310 || Stated(a, inv.invoiceNumber)))
      && facts[14].1 == Some(Flag(!is310 || CountOf(inv.shipmentReferences) > 0))
      && facts[15].1 == Some(Flag(!is310 || CountOf(inv.containerNumbers) > 0))
      && facts[16].1 == Some(Flag(!is310 || Stated(a, inv.vesselVoyage)))
      && facts[17].1 == Some(Flag(!is310 || CountOf(inv.portCodes) >= 2))
  {
    hide RateBasisMatches;
    hide CurrenciesStated;
    hide AmountsStated;
    hide QuarantinedCount;
    hide HasFuel;
    hide IdentitiesStated;
    hide CurrencyCodes;
    hide CurrenciesAlike;
    hide Stated;
    hide CountOf;
    hide Ascii;
    hide FlagFact;
    hide MoneyFact;
  }

  lemma CurrencyFactsAre(a: Arithmetic, inv: Invoice, contract: ContractFacts, n: nat)
    ensures var facts, cs, is310 := NamedFacts(a, inv, contract, n), inv.charges, inv.transactionSet == Ascii("310");
      && |facts| == 22
      && facts[18].1 == Some(Flag(!is310 || IdentitiesStated(a, cs)))
      && facts[19].1 == Some(Flag(!is310 || CurrencyCodes(cs)))
      && facts[20].1 == (if !is310 then None else Some(Flag(CurrenciesAlike(cs))))
  {
    hide RateBasisMatches;
    hide CurrenciesStated;
    hide AmountsStated;
    hide QuarantinedCount;
    hide HasFuel;
    hide IdentitiesStated;
    hide CurrencyCodes;
    hide CurrenciesAlike;
    hide Stated;
    hide CountOf;
    hide Ascii;
    hide FlagFact;
    hide MoneyFact;
  }

  lemma TotalsAre(a: Arithmetic, inv: Invoice, contract: ContractFacts, n: nat)
    ensures var facts, currency := NamedFacts(a, inv, contract, n), OrEmpty(inv.headerCurrency);
      && |facts| == 22
      && facts[0].1 == (if inv.footing.Some? then MoneyFact(inv.footing.value.declaredTotal, currency) else None)
      && facts[1].1 == Some(Money(a.fixed(if inv.footing.Some? then inv.footing.value.lineSum else Ascii("0.0000")),
                                  currency))
  {
    hide RateBasisMatches;
    hide CurrenciesStated;
    hide AmountsStated;
    hide QuarantinedCount;
    hide HasFuel;
    hide IdentitiesStated;
    hide CurrencyCodes;
    hide CurrenciesAlike;
    hide Stated;
    hide CountOf;
    hide Ascii;
    hide FlagFact;
  }

  /** The bundle under one of the names. */
  lemma NamedFact(a: Arithmetic, inv: Invoice, contract: ContractFacts, i: nat, name: string)
    returns (fact: Option<FactValue>)
    requires i < |NAMES| && NAMES[i] == name
    ensures i < |NamedFacts(a, inv, contract, |Markers(a, inv.charges)|)|
    ensures FactAt(Facts(a, inv, contract), name) == fact
         == NamedFacts(a, inv, contract, |Markers(a, inv.charges)|)[i].1
  {
    NamedFactStays(a, inv, contract, i);
    fact := FactAt(Facts(a, inv, contract), name);
  }

  /** The totals of the invoice, in its header currency; and what the contract says of duplicates and references. */
  lemma TotalsAndContract(a: Arithmetic, inv: Invoice, contract: ContractFacts)
    ensures var b := Facts(a, inv, contract);
            var currency := if inv.headerCurrency.Some? then inv.headerCurrency.value else [];
      && FactAt(b, "declared_total")
         == (match inv.footing
             case None => None
             case Some(footing) => match footing.declaredTotal
                                   case None => None
                                   case Some(total) => Some(Money(total, currency)))
      && FactAt(b, "line_sum")
         == Some(Money(match inv.footing
                       case None => a.fixed(Ascii("0.0000"))
                       case Some(footing) => a.fixed(footing.lineSum), currency))
      && FactAt(b, "duplicate_invoice")
         == (match contract.duplicateInvoice case None => None case Some(known) => Some(Flag(known)))
      && FactAt(b, "shipment_reference_match")
         == (match contract.shipmentReferenceMatch case None => None case Some(known) => Some(Flag(known)))
  {
    NamesAre();
    TotalsAre(a, inv, contract, |Markers(a, inv.charges)|);
    OptionalFactsAre(a, inv, contract, |Markers(a, inv.charges)|);
    hide NAMES;
    hide NamedFacts;
    hide Facts;
    hide Ascii;
    hide FactAt;
    var total := NamedFact(a, inv, contract, 0, "declared_total");
    var lines := NamedFact(a, inv, contract, 1, "line_sum");
    var duplicate := NamedFact(a, inv, contract, 7, "duplicate_invoice");
    var matches := NamedFact(a, inv, contract, 8, "shipment_reference_match");
  }

  lemma {:induction false} KeptAsMany<T(!new)>(s: seq<T>, p: T -> bool)
    ensures |Keep(s, p)| == |Passing(s, p)|
    decreases |s|
  {
    if s == [] {
      assert Passing(s, p) == {};
    } else {
      var n := |s| - 1;
      KeptAsMany(s[..n], p);
      KeepLast(s[..n], s[n], p);
      assert s == s[..n] + [s[n]];
      PassingLast(s[..n], s[n], p);
      hide Keep;
      hide Passing;
    }
  }

  lemma PassingLast<T>(s: seq<T>, x: T, p: T -> bool)
    ensures Passing(s + [x], p) == Passing(s, p) + if p(x) then {|s|} else {}
    ensures |s| !in Passing(s, p)
  {
  }

  ghost function Passing<T>(s: seq<T>, p: T -> bool): set<nat> { set i: nat | i < |s| && p(s[i]) }

  lemma ChargesMeaning(cs: seq<Charge>)
    ensures CurrenciesStated(cs) <==> forall c | c in cs :: c.currency != []
    ensures AmountsStated(cs) <==> forall c | c in cs :: c.amount.Some?
    ensures HasFuel(cs) <==> exists c :: c in cs && c.category == Some(Ascii("FUEL"))
    ensures QuarantinedCount(cs) == |set i: nat | i < |cs| && cs[i].quarantined|
  {
    KeptAsMany(cs, (c: Charge) => c.quarantined);
    assert Passing(cs, (c: Charge) => c.quarantined) == set i: nat | i < |cs| && cs[i].quarantined;
    hide Keep;
  }

  /** What the charges say together. */
  lemma ChargeFacts(a: Arithmetic, inv: Invoice, contract: ContractFacts)
    ensures var b := Facts(a, inv, contract); var cs := inv.charges;
      && FactAt(b, "all_currencies_stated") == Some(Flag(forall c | c in cs :: c.currency != []))
      && FactAt(b, "all_amounts_stated") == Some(Flag(forall c | c in cs :: c.amount.Some?))
      && FactAt(b, "charge_count") == Some(Count(|cs|))
      && FactAt(b, "quarantined_count") == Some(Count(|set i: nat | i < |cs| && cs[i].quarantined|))
      && FactAt(b, "has_fuel_category") == Some(Flag(exists c :: c in cs && c.category == Some(Ascii("FUEL"))))
      && FactAt(b, "suspicious_missing_data_count") == Some(Count(|Markers(a, cs)|))
  {
    NamesAre();
    ChargeFactsAre(a, inv, contract, |Markers(a, inv.charges)|);
    ChargesMeaning(inv.charges);
    hide *;
    var currencies := NamedFact(a, inv, contract, 2, "all_currencies_stated");
    var amounts := NamedFact(a, inv, contract, 3, "all_amounts_stated");
    var count := NamedFact(a, inv, contract, 4, "charge_count");
    var quarantined := NamedFact(a, inv, contract, 5, "quarantined_count");
    var fuel := NamedFact(a, inv, contract, 6, "has_fuel_category");
    var suspicious := NamedFact(a, inv, contract, 21, "suspicious_missing_data_count");
  }

  /** A charge that names a rate or a basis. */
  predicate Rated(c: Charge) { c.rate.Some? || c.basis.Some? }

  predicate FullyRated(c: Charge) { c.rate.Some? && c.basis.Some? && c.amount.Some? }

  /** Some charge names a rate or a basis, and all that do name both and an amount. */
  predicate RatesComparable(cs: seq<Charge>) {
    (exists c :: c in cs && Rated(c)) && forall c | c in cs && Rated(c) :: FullyRated(c)
  }

  lemma RateBasisMeaning(a: Arithmetic, cs: seq<Charge>)
    ensures RateBasisMatches(a, cs).Some? <==> RatesComparable(cs)
    ensures RatesComparable(cs) ==>
              (RateBasisMatches(a, cs).value
               <==> forall c | c in cs && FullyRated(c) :: a.withinCent(c.rate.value, c.basis.value, c.amount.value))
  {
    var using := Keep(cs, (c: Charge) => c.rate.Some? || c.basis.Some?);
    assert forall c :: c in using <==> c in cs && Rated(c);
    hide Keep;
    if exists c :: c in cs && Rated(c) {
      var c :| c in cs && Rated(c);
      assert c in using;
    } else if using != [] {
      var c := SomeIn(using);
      assert false;
    }
  }

  lemma SomeIn(using: seq<Charge>) returns (c: Charge)
    requires using != []
    ensures c in using
  {
    c := using[0];
  }

  /** Whether rate times basis gives the amounts is only said when it can be compared for all charges with either. */
  lemma RateBasisFact(a: Arithmetic, inv: Invoice, contract: ContractFacts)
    ensures var fact, cs := FactAt(Facts(a, inv, contract), "rate_basis_arithmetic_matches"), inv.charges;
      && (fact.Some? <==> RatesComparable(cs))
      && (fact.Some? ==> fact.value == Flag(forall c | c in cs && FullyRated(c) ::
                                              a.withinCent(c.rate.value, c.basis.value, c.amount.value)))
  {
    NamesAre();
    OptionalFactsAre(a, inv, contract, |Markers(a, inv.charges)|);
    RateBasisMeaning(a, inv.charges);
    FlagMeaning(RateBasisMatches(a, inv.charges));
    hide *;
    var fact := NamedFact(a, inv, contract, 9, "rate_basis_arithmetic_matches");
  }

  lemma FlagMeaning(b: Option<bool>)
    ensures FlagFact(b).Some? <==> b.Some?
    ensures b.Some? ==> FlagFact(b).value == Flag(b.value)
  {
  }

  lemma GivenMeaning(a: Arithmetic)
    ensures forall t :: Stated(a, t) <==> Given(t, a)
    ensures forall n :: CountOf(n) == Size(n)
  {
  }

  /** What an EDI 210 invoice must state; any other invoice passes. */
  lemma Required210(a: Arithmetic, inv: Invoice, contract: ContractFacts)
    ensures var b := Facts(a, inv, contract); var other := inv.transactionSet != Ascii("210");
      && FactAt(b, "required_210_invoice_number") == Some(Flag(other || Given(inv.invoiceNumber, a)))
      && FactAt(b, "required_210_shipment_id") == Some(Flag(other || Size(inv.shipmentReferences) >= 1))
      && FactAt(b, "required_210_scac") == Some(Flag(other || Given(inv.carrierCode, a)))
  {
    NamesAre();
    RequiredFactsAre(a, inv, contract, |Markers(a, inv.charges)|);
    GivenMeaning(a);
    hide *;
    var number := NamedFact(a, inv, contract, 10, "required_210_invoice_number");
    var shipment := NamedFact(a, inv, contract, 11, "required_210_shipment_id");
    var scac := NamedFact(a, inv, contract, 12, "required_210_scac");
  }

  /** What an EDI 310 invoice must state. */
  lemma Required310(a: Arithmetic, inv: Invoice, contract: ContractFacts)
    ensures var b := Facts(a, inv, contract); var other := inv.transactionSet != Ascii("310");
      && FactAt(b, "required_310_invoice_number") == Some(Flag(other || Given(inv.invoiceNumber, a)))
      && FactAt(b, "required_310_reference") == Some(Flag(other || Size(inv.shipmentReferences) >= 1))
      && FactAt(b, "required_310_container") == Some(Flag(other || Size(inv.containerNumbers) >= 1))
      && FactAt(b, "required_310_vessel_voyage") == Some(Flag(other || Given(inv.vesselVoyage, a)))
      && FactAt(b, "required_310_ports") == Some(Flag(other || Size(inv.portCodes) >= 2))
  {
    NamesAre();
    RequiredFactsAre(a, inv, contract, |Markers(a, inv.charges)|);
    GivenMeaning(a);
    hide *;
    var number := NamedFact(a, inv, contract, 13, "required_310_invoice_number");
    var reference := NamedFact(a, inv, contract, 14, "required_310_reference");
    var container := NamedFact(a, inv, contract, 15, "required_310_container");
    var vessel := NamedFact(a, inv, contract, 16, "required_310_vessel_voyage");
    var ports := NamedFact(a, inv, contract, 17, "required_310_ports");
  }

  /** Three letters from A to Z. */
  predicate IsoCode(t: Text) { |t| == 3 && forall x | x in t :: 65 <= x <= 90 }

  lemma IsoCodes()
    ensures forall t :: CurrencyCode(t) <==> IsoCode(t)
  {
    forall t: Text ensures CurrencyCode(t) <==> IsoCode(t) {
      if IsoCode(t) { assert t[0] in t && t[1] in t && t[2] in t; }
    }
  }

  lemma Charges310Meaning(a: Arithmetic, cs: seq<Charge>)
    ensures IdentitiesStated(a, cs) <==> forall c | c in cs :: Given(c.code, a) || Given(c.rawDescription, a)
    ensures CurrencyCodes(cs) <==> forall c | c in cs :: IsoCode(c.currency)
    ensures CurrenciesAlike(cs) <==> forall c | c in cs :: c.currency == cs[0].currency
  {
    GivenMeaning(a);
    IsoCodes();
    hide CurrencyCode;
    hide IsoCode;
    if cs != [] { assert cs[0] in cs; }
  }

  /** What the charges of an EDI 310 invoice must state; whether they share a currency is not said of other invoices. */
  lemma Charges310(a: Arithmetic, inv: Invoice, contract: ContractFacts)
    ensures var b := Facts(a, inv, contract);
            var cs, other := inv.charges, inv.transactionSet != Ascii("310");
      && FactAt(b, "required_310_charge_identity")
         == Some(Flag(other || forall c | c in cs :: Given(c.code, a) || Given(c.rawDescription, a)))
      && FactAt(b, "valid_310_currency_codes") == Some(Flag(other || forall c | c in cs :: IsoCode(c.currency)))
      && FactAt(b, "consistent_310_charge_currencies")
         == (if other then None else Some(Flag(forall c | c in cs :: c.currency == cs[0].currency)))
  {
    NamesAre();
    CurrencyFactsAre(a, inv, contract, |Markers(a, inv.charges)|);
    Charges310Meaning(a, inv.charges);
    hide *;
    var identity := NamedFact(a, inv, contract, 18, "required_310_charge_identity");
    var codes := NamedFact(a, inv, contract, 19, "valid_310_currency_codes");
    var alike := NamedFact(a, inv, contract, 20, "consistent_310_charge_currencies");
  }

  // ---- the linehaul facts --------------------------------------------------------------------

  predicate Billable(c: Charge) { c.category == Some(Ascii("LINEHAUL")) && !c.quarantined && c.amount.Some? }

  predicate Ascends(at: seq<nat>) { forall i, j | 0 <= i < j < |at| :: at[i] < at[j] }

  /** The positions a filter keeps. */
  lemma {:induction false} KeptPositions<T(!new)>(s: seq<T>, p: T -> bool) returns (at: seq<nat>)
    ensures Ascends(at) && forall i: nat :: i in at <==> i < |s| && p(s[i])
    ensures |Keep(s, p)| == |at| && forall k | 0 <= k < |at| :: at[k] in at && Keep(s, p)[k] == s[at[k]]
    decreases |s|
  {
    if s == [] {
      at := [];
    } else {
      var n := |s| - 1;
      var before := KeptPositions(s[..n], p);
      KeepLast(s[..n], s[n], p);
      assert s == s[..n] + [s[n]];
      hide Keep;
      at := before + if p(s[n]) then [n] else [];
      assert forall i: nat | i < n :: s[..n][i] == s[i];
    }
  }

  ghost predicate PositionsOf(at: seq<nat>, cs: seq<Charge>) {
    Ascends(at) && forall i: nat :: i in at <==> i < |cs| && Billable(cs[i])
  }

  /** Some charges, all in the currency of the first. */
  predicate SameCurrency(cs: seq<Charge>, at: seq<nat>)
    requires forall k | 0 <= k < |at| :: at[k] < |cs|
  {
    at != [] && forall k | 0 <= k < |at| :: cs[at[k]].currency == cs[at[0]].currency
  }

  lemma BilledCharges(inv: Invoice) returns (at: seq<nat>, amounts: seq<Text>)
    ensures PositionsOf(at, inv.charges) && |amounts| == |at|
    ensures forall k | 0 <= k < |at| ::
              at[k] < |inv.charges| && inv.charges[at[k]].amount == Some(amounts[k])
    ensures var charges := LinehaulCharges(inv);
      && amounts == Amounts(charges) && (OneCurrency(charges) <==> SameCurrency(inv.charges, at))
      && (at != [] ==> charges != [] && charges[0].currency == inv.charges[at[0]].currency)
  {
    at := KeptPositions(inv.charges, (c: Charge) => c.category == Some(Ascii("LINEHAUL")) && !c.quarantined
        && c.amount.Some?);
    var charges := LinehaulCharges(inv);
    hide Keep;
    hide Ascii;
    amounts := Amounts(charges);
    forall k | 0 <= k < |at| ensures at[k] < |inv.charges| && charges[k] == inv.charges[at[k]] { assert at[k] in at; }
    forall k | 0 <= k < |at| ensures charges[k].amount.Some? { assert Billable(inv.charges[at[k]]); }
    OneCurrencyAt(charges);
    hide OneCurrency;
  }

  /** The billed linehaul: all billable linehaul charges, if there are some and all are in one currency; the contracted
      one as the contract gives it. Neither is there unless the contract was asked for a rate. */
  lemma LinehaulFacts(a: Arithmetic, inv: Invoice, contract: ContractFacts)
    returns (at: seq<nat>, amounts: seq<Text>)
    ensures PositionsOf(at, inv.charges) && |amounts| == |at|
    ensures forall k | 0 <= k < |at| ::
              at[k] < |inv.charges| && inv.charges[at[k]].amount == Some(amounts[k])
    ensures var b, rate := Facts(a, inv, contract), contract.linehaulRate;
      && FactAt(b, "contract_linehaul_rate")
         == (match rate case Rate(amount, currency) => Some(Money(amount, currency)) case _ => None)
      && FactAt(b, "billed_linehaul")
         == if !rate.Omitted? && SameCurrency(inv.charges, at)
            then Some(Money(a.total(amounts), inv.charges[at[0]].currency)) else None
  {
    at, amounts := BilledCharges(inv);
    BeforeRate(a, inv, contract);
    RateFactsAre(a, BeforeRateBundle(a, inv, contract), inv, contract.linehaulRate);
    assert !SameCurrency(inv.charges, at) || at != [];
    hide *;
  }

  lemma OneCurrencyAt(charges: seq<Charge>)
    ensures OneCurrency(charges)
       <==> charges != [] && forall k | 0 <= k < |charges| :: charges[k].currency == charges[0].currency
  {
  }

  /** The bundle before the rate facts. */
  function BeforeRateBundle(a: Arithmetic, inv: Invoice, contract: ContractFacts): Bundle {
    WithExternals(a, BaseFacts(a, inv, contract, |Markers(a, inv.charges)|), contract.externals)
  }

  /** None of the rate names is a name of a base fact, nor can an external value have it. */
  lemma BeforeRate(a: Arithmetic, inv: Invoice, contract: ContractFacts)
    ensures Ascii("billed_linehaul") !in BeforeRateBundle(a, inv, contract)
    ensures Ascii("contract_linehaul_rate") !in BeforeRateBundle(a, inv, contract)
    ensures Facts(a, inv, contract)
         == WithRate(a, BeforeRateBundle(a, inv, contract), inv, contract.linehaulRate)
  {
    RateNameIsNew(a, inv, contract, 0);
    RateNameIsNew(a, inv, contract, 1);
    assert RATE_NAMES[0] == "billed_linehaul" && RATE_NAMES[1] == "contract_linehaul_rate";
    hide BaseFacts;
    hide WithExternals;
    hide WithRate;
    hide Ascii;
  }

  lemma RateNameIsNew(a: Arithmetic, inv: Invoice, contract: ContractFacts, k: nat)
    requires k < |RATE_NAMES|
    ensures Ascii(RATE_NAMES[k]) !in BeforeRateBundle(a, inv, contract)
  {
    var n, key := |Markers(a, inv.charges)|, Ascii(RATE_NAMES[k]);
    var facts := NamedFacts(a, inv, contract, n);
    NamedByNames(a, inv, contract, n);
    assert Own(key);
    forall i | 0 <= i < |NAMES| ensures Ascii(NAMES[i]) != key { NamesOwn(i); }
    hide NAMES;
    hide NamedFacts;
    hide Ascii;
    hide Own;
    PutAllLeaves(map[], facts, key);
    ExternalsLeaveOwnFacts(a, BaseFacts(a, inv, contract, n), contract.externals, key);
    hide PutAll;
    hide WithExternals;
  }

  lemma RateFactsAre(a: Arithmetic, before: Bundle, inv: Invoice, rate: LinehaulRate)
    requires Ascii("billed_linehaul") !in before && Ascii("contract_linehaul_rate") !in before
    ensures var b, charges := WithRate(a, before, inv, rate), LinehaulCharges(inv);
      && FactAt(b, "contract_linehaul_rate")
         == (match rate case Rate(amount, currency) => Some(Money(amount, currency)) case _ => None)
      && FactAt(b, "billed_linehaul")
         == if !rate.Omitted? && OneCurrency(charges) then Some(Money(a.total(Amounts(charges)), charges[0].currency))
            else None
  {
    RateNamesApart();
    hide Ascii;
    hide LinehaulCharges;
    hide OneCurrency;
    hide Amounts;
  }

  lemma RateNamesApart()
    ensures Ascii("billed_linehaul") != Ascii("contract_linehaul_rate")
    ensures Ascii("linehaul_currencies_match") != Ascii("contract_linehaul_rate")
    ensures Ascii("linehaul_currencies_match") != Ascii("billed_linehaul")
  {
    assert |Ascii("billed_linehaul")| == 15 && |Ascii("contract_linehaul_rate")| == 22
        && |Ascii("linehaul_currencies_match")| == 25;
  }

  // ---- the facts of external values ----------------------------------------------------------

  function ExternalKey(a: Arithmetic, code: Text, suffix: string): Text {
    Ascii("external_") + a.slug(code) + Ascii(suffix)
  }

  /** What one external value writes: a found one its value, its resolver and its id; another one the reason and its
      resolver. */
  predicate Writes(a: Arithmetic, code: Text, resolution: Resolution, key: Text, v: FactValue) {
    match resolution
    case Found(value, resolver, id) =>
      || (key == ExternalKey(a, code, "") && v == DecimalOf(value))
      || (key == ExternalKey(a, code, "_resolver_version") && v == Words(resolver))
      || (key == ExternalKey(a, code, "_external_value_id") && v == Words(id))
    case Unavailable(reason, resolver) =>
      || (key == ExternalKey(a, code, "_unavailable_reason") && v == Words(reason))
      || (key == ExternalKey(a, code, "_resolver_version") && v == Words(resolver))
  }

  ghost predicate WritesKey(a: Arithmetic, code: Text, resolution: Resolution, key: Text) {
    exists v :: Writes(a, code, resolution, key, v)
  }

  lemma SuffixesApart(a: Arithmetic, code: Text)
    ensures ExternalKey(a, code, "") != ExternalKey(a, code, "_resolver_version")
    ensures ExternalKey(a, code, "") != ExternalKey(a, code, "_external_value_id")
    ensures ExternalKey(a, code, "_resolver_version") != ExternalKey(a, code, "_external_value_id")
    ensures ExternalKey(a, code, "_unavailable_reason") != ExternalKey(a, code, "_resolver_version")
  {
    var n := 9 + |a.slug(code)|;
    assert |ExternalKey(a, code, "")| == n && |ExternalKey(a, code, "_resolver_version")| == n + 17;
    assert |ExternalKey(a, code, "_external_value_id")| == n + 18;
    assert |ExternalKey(a, code, "_unavailable_reason")| == n + 19;
  }

  lemma OneExternal(a: Arithmetic, bundle: Bundle, code: Text, resolution: Resolution, key: Text)
    ensures var b := WithExternal(a, bundle, (code, resolution));
      && (key in b <==> key in bundle || WritesKey(a, code, resolution, key))
      && (forall v | Writes(a, code, resolution, key, v) :: key in b && b[key] == v)
      && (!WritesKey(a, code, resolution, key) && key in b ==> b[key] == bundle[key])
  {
    SuffixesApart(a, code);
    KeysAgree(a, code);
    hide ExternalKey;
    hide FactKey;
    hide Ascii;
    match resolution
    case Found(value, resolver, id) =>
      assert Writes(a, code, resolution, ExternalKey(a, code, ""), DecimalOf(value));
      assert Writes(a, code, resolution, ExternalKey(a, code, "_resolver_version"), Words(resolver));
      assert Writes(a, code, resolution, ExternalKey(a, code, "_external_value_id"), Words(id));
    case Unavailable(reason, resolver) =>
      assert Writes(a, code, resolution, ExternalKey(a, code, "_unavailable_reason"), Words(reason));
      assert Writes(a, code, resolution, ExternalKey(a, code, "_resolver_version"), Words(resolver));
  }

  lemma KeysAgree(a: Arithmetic, code: Text)
    ensures forall suffix :: FactKey(a, code, suffix) == ExternalKey(a, code, suffix)
  {
  }

  /** Entry `j` is the last that writes the key. */
  ghost predicate LastWriter(a: Arithmetic, entries: seq<(Text, Resolution)>, key: Text, j: int) {
    && 0 <= j < |entries| && WritesKey(a, entries[j].0, entries[j].1, key)
    && forall k | j < k < |entries| :: !WritesKey(a, entries[k].0, entries[k].1, key)
  }

  lemma {:induction false} AllExternals(a: Arithmetic, bundle: Bundle, entries: seq<(Text, Resolution)>, key: Text)
    ensures var b := WithExternals(a, bundle, entries);
      && (key in b <==> key in bundle || exists j :: LastWriter(a, entries, key, j))
      && (forall j, v | LastWriter(a, entries, key, j) && Writes(a, entries[j].0, entries[j].1, key, v) ::
           key in b && b[key] == v)
      && ((forall j :: !LastWriter(a, entries, key, j)) && key in b ==> b[key] == bundle[key])
    decreases |entries|
  {
    if entries != [] {
      var n := |entries| - 1;
      var before, e := entries[..n], entries[n];
      AllExternals(a, bundle, before, key);
      OneExternal(a, WithExternals(a, bundle, before), e.0, e.1, key);
      LastOfMore(a, before, e, key);
      assert entries == before + [e];
      assert WithExternals(a, bundle, entries) == WithExternal(a, WithExternals(a, bundle, before), e);
      hide *;
      if WritesKey(a, e.0, e.1, key) { assert LastWriter(a, entries, key, n); }
    }
  }

  lemma LastOfMore(a: Arithmetic, entries: seq<(Text, Resolution)>, e: (Text, Resolution), key: Text)
    ensures WritesKey(a, e.0, e.1, key)
        ==> forall j :: LastWriter(a, entries + [e], key, j) <==> j == |entries|
    ensures !WritesKey(a, e.0, e.1, key)
        ==> forall j :: LastWriter(a, entries + [e], key, j) <==> LastWriter(a, entries, key, j)
    ensures forall j | LastWriter(a, entries, key, j) :: (entries + [e])[j] == entries[j]
  {
    hide WritesKey;
    var more := entries + [e];
    assert forall j | 0 <= j < |entries| :: more[j] == entries[j];
    assert more[|entries|] == e;
  }

  predicate IsExternal(key: Text) { |key| >= 9 && key[..9] == Ascii("external_") }

  lemma WrittenIsExternal(a: Arithmetic, code: Text, resolution: Resolution, key: Text)
    ensures WritesKey(a, code, resolution, key) ==> IsExternal(key)
  {
    forall suffix ensures ExternalKey(a, code, suffix)[..9] == Ascii("external_") {}
    hide Ascii;
  }

  lemma ExternalIsNotNamed(key: Text)
    requires IsExternal(key)
    ensures forall i | 0 <= i < |NAMES| :: key != Ascii(NAMES[i])
    ensures forall k | 0 <= k < |RATE_NAMES| :: key != Ascii(RATE_NAMES[k])
  {
    assert key[0] == key[..9][0] == 101 && key[1] == key[..9][1] == 120;
    forall i | 0 <= i < |NAMES| ensures key != Ascii(NAMES[i]) { NamesOwn(i); }
    forall k | 0 <= k < |RATE_NAMES| ensures key != Ascii(RATE_NAMES[k]) { assert Ascii(RATE_NAMES[k])[0] != 101; }
  }

  /** An external key is there exactly when some entry writes it, with what the last such entry writes. */
  lemma ExternalFacts(a: Arithmetic, inv: Invoice, contract: ContractFacts, key: Text)
    requires IsExternal(key)
    ensures var b, entries := Facts(a, inv, contract), contract.externals;
      && (key in b <==> exists j :: LastWriter(a, entries, key, j))
      && forall j, v | LastWriter(a, entries, key, j) && Writes(a, entries[j].0, entries[j].1, key, v) ::
           key in b && b[key] == v
  {
    var n := |Markers(a, inv.charges)|;
    var facts, base := NamedFacts(a, inv, contract, n), BaseFacts(a, inv, contract, n);
    ExternalIsNotNamed(key);
    NamedByNames(a, inv, contract, n);
    hide NAMES;
    hide NamedFacts;
    hide IsExternal;
    PutAllLeaves(map[], facts, key);
    AllExternals(a, base, contract.externals, key);
    RateLeaves(a, BeforeRateBundle(a, inv, contract), inv, contract.linehaulRate, key);
    hide LastWriter;
    hide Writes;
    hide WithExternals;
    hide WithRate;
    hide PutAll;
  }

  /** Nothing else is in a bundle. */
  lemma NothingElse(a: Arithmetic, inv: Invoice, contract: ContractFacts, key: Text)
    requires key in Facts(a, inv, contract)
    ensures (exists i :: 0 <= i < |NAMES| && key == Ascii(NAMES[i]))
        || (exists k :: 0 <= k < |RATE_NAMES| && key == Ascii(RATE_NAMES[k])) || IsExternal(key)
  {
    var n := |Markers(a, inv.charges)|;
    var facts, base := NamedFacts(a, inv, contract, n), BaseFacts(a, inv, contract, n);
    NamedByNames(a, inv, contract, n);
    AllExternals(a, base, contract.externals, key);
    forall j | LastWriter(a, contract.externals, key, j) ensures IsExternal(key) {
      WrittenIsExternal(a, contract.externals[j].0, contract.externals[j].1, key);
    }
    hide NAMES;
    hide NamedFacts;
    hide IsExternal;
    hide LastWriter;
    hide Writes;
    hide Ascii;
    if !(exists i :: 0 <= i < |NAMES| && key == Ascii(NAMES[i])) { PutAllLeaves(map[], facts, key); }
    if !(exists k :: 0 <= k < |RATE_NAMES| && key == Ascii(RATE_NAMES[k])) {
      RateLeaves(a, BeforeRateBundle(a, inv, contract), inv, contract.linehaulRate, key);
    }
    hide WithExternals;
    hide WithRate;
    hide PutAll;
  }
}
