/** What evaluation reads from an invoice and from contract facts, property by property:
    src/modules/evaluator/fact-bundle.ts, over JSON values as ingestion builds them and as the manifest stores them.
    Reading does not see the order of keys, nor members that are undefined, so that a value and what
    `JSON.parse(JSON.stringify(v))` makes of it are one invoice to the evaluator. */
module FactViews {
  import opened CanonicalJson
  import opened Sorting
  import opened Sums
  import opened Texts

  // ---- reading JSON --------------------------------------------------------------------------

  function TextAt(v: Value, key: string): Option<Text> {
    var x := Get(v, Ascii(key));
    if x.Str? then Some(x.s) else None
  }

  function BoolAt(v: Value, key: string): Option<bool> {
    var x := Get(v, Ascii(key));
    if x.Bool? then Some(x.b) else None
  }

  function CountAt(v: Value, key: string): Option<nat> {
    var x := Get(v, Ascii(key));
    if x.Arr? then Some(|x.items|) else None
  }

  function ItemsAt(v: Value, key: string): seq<Value> {
    var x := Get(v, Ascii(key));
    if x.Arr? then x.items else []
  }

  datatype Charge = Charge(code: Option<Text>, category: Option<Text>, quarantined: bool, amount: Option<Text>,
                           currency: Text,
                           basis: Option<Text>, rate: Option<Text>, rawDescription: Option<Text>)

  datatype Footing = Footing(declaredTotal: Option<Text>, lineSum: Text)

  datatype Invoice = Invoice(transactionSet: Text, parserVersion: Text, invoiceNumber: Option<Text>,
                             shipmentReferences: Option<nat>,
                             carrierCode: Option<Text>, containerNumbers: Option<nat>, vesselVoyage: Option<Text>,
                                 portCodes: Option<nat>,
                             headerCurrency: Option<Text>, footing: Option<Footing>, charges: seq<Charge>)

  datatype Resolution = Found(value: Text, resolverVersion: Text, externalValueId: Text)
      | Unavailable(reason: Text, resolverVersion: Text)

  /** `linehaulRate`: not asked for, asked for and not found, or a rate. */
  datatype LinehaulRate = Omitted | NoRate | Rate(amount: Text, currency: Text)

  datatype ContractFacts = ContractFacts(linehaulRate: LinehaulRate, duplicateInvoice: Option<bool>,
                                         shipmentReferenceMatch: Option<bool>,
                                         externals: seq<(Text, Resolution)>)

  function OrEmpty(t: Option<Text>): Text { if t == None then [] else t.value }

  function ReadCharge(v: Value): Charge {
    Charge(TextAt(v, "code"), TextAt(v, "category"), BoolAt(v, "quarantined") == Some(true), TextAt(v, "amount"),
           OrEmpty(TextAt(v, "currency")),
           TextAt(v, "basis"), TextAt(v, "rate"), TextAt(v, "rawDescription"))
  }

  function ReadFooting(v: Value): Option<Footing> {
    if v.Obj? then Some(Footing(TextAt(v, "declaredTotal"), OrEmpty(TextAt(v, "lineSum")))) else None
  }

  function ReadCharges(items: seq<Value>): seq<Charge> {
    seq(|items|, i requires 0 <= i < |items| => ReadCharge(items[i]))
  }

  function ReadInvoice(v: Value): Invoice {
    Invoice(OrEmpty(TextAt(v, "transactionSet")), OrEmpty(TextAt(v, "parserVersion")), TextAt(v, "invoiceNumber"),
            CountAt(v, "shipmentReferences"),
            TextAt(v, "carrierCode"), CountAt(v, "containerNumbers"), TextAt(v, "vesselVoyage"),
                CountAt(v, "portCodes"),
            TextAt(v, "headerCurrency"), ReadFooting(Get(v, Ascii("footing"))), ReadCharges(ItemsAt(v, "charges")))
  }

  function ReadResolution(v: Value): Resolution {
    if TextAt(v, "status") == Some(Ascii("FOUND"))
    then Found(OrEmpty(TextAt(v, "value")), OrEmpty(TextAt(v, "resolverVersion")),
               OrEmpty(TextAt(Get(v, Ascii("pin")), "externalValueId")))
    else Unavailable(OrEmpty(TextAt(v, "reason")), OrEmpty(TextAt(v, "resolverVersion")))
  }

  function ReadRate(v: Value): LinehaulRate {
    match v
    case Undefined => Omitted
    case Obj(_) => Rate(OrEmpty(TextAt(v, "amount")), OrEmpty(TextAt(v, "currency")))
    case _ => NoRate
  }

  /** The keys of the entries, in the order of `localeCompare`. */
  function EntryKeys(keyOrder: (Text, Text) -> bool, v: Value): seq<Text> {
    if v.Obj? then SortBy(keyOrder, KeysOf(DropUndefined(v.members))) else []
  }

  function ReadExternals(keyOrder: (Text, Text) -> bool, v: Value): seq<(Text, Resolution)> {
    var keys := EntryKeys(keyOrder, v);
    seq(|keys|, i requires 0 <= i < |keys| => (keys[i], ReadResolution(Get(v, keys[i]))))
  }

  /** Facts that are missing altogether are `undefined`. */
  function ReadContract(keyOrder: (Text, Text) -> bool, v: Value): ContractFacts {
    ContractFacts(ReadRate(Get(v, Ascii("linehaulRate"))), BoolAt(v, "duplicateInvoice"),
                  BoolAt(v, "shipmentReferenceMatch"),
                  ReadExternals(keyOrder, Get(v, Ascii("externalResolutions"))))
  }

  // ---- reading does not see key order or undefined members -----------------------------------

  /** A key is found exactly when it has a defined member, and then that member is the one found. */
  lemma {:induction false} FindMeaning(ms: seq<Member>, key: Text)
    requires CanonicalJson.DistinctKeys(ms)
    ensures Find(ms, key) != Undefined <==> key in KeySet(ms)
    ensures Find(ms, key) != Undefined ==> Member(key, Find(ms, key)) in ms
    decreases |ms|
  {
    if ms != [] {
      var rest := ms[1..];
      FindMeaning(rest, key);
      assert ms == [ms[0]] + rest;
      KeySetCons(ms[0], rest);
      HeadKeyIsFresh(ms);
    }
  }

  lemma HeadKeyIsFresh(ms: seq<Member>)
    requires CanonicalJson.DistinctKeys(ms) && ms != []
    ensures ms[0].key !in KeySet(ms[1..])
  {
    forall m | m in ms[1..] ensures m.key != ms[0].key {
      var i :| 0 <= i < |ms[1..]| && ms[1..][i] == m;
      assert ms[i + 1] == m;
    }
  }

  predicate Readable(v: Value) { v == Undefined || JsonShaped(v) }

  /** Two readable values, the same up to key order, answer every property access alike. */
  lemma GetSame(a: Value, b: Value, key: Text)
    requires Readable(a) && Readable(b) && SameUpToKeyOrder(a, b)
    ensures Readable(Get(a, key)) && Readable(Get(b, key)) && SameUpToKeyOrder(Get(a, key), Get(b, key))
  {
    if a.Obj? {
      FindMeaning(a.members, key);
      FindMeaning(b.members, key);
    }
  }

  lemma ScalarsSame(a: Value, b: Value, key: string)
    requires Readable(a) && Readable(b) && SameUpToKeyOrder(a, b)
    ensures TextAt(a, key) == TextAt(b, key) && BoolAt(a, key) == BoolAt(b, key) && CountAt(a, key) == CountAt(b, key)
  {
    GetSame(a, b, Ascii(key));
    hide Get;
  }

  lemma ChargeSame(a: Value, b: Value)
    requires Readable(a) && Readable(b) && SameUpToKeyOrder(a, b)
    ensures ReadCharge(a) == ReadCharge(b)
  {
    ScalarsSame(a, b, "code");
    ScalarsSame(a, b, "category");
    ScalarsSame(a, b, "quarantined");
    ScalarsSame(a, b, "amount");
    ScalarsSame(a, b, "currency");
    ScalarsSame(a, b, "basis");
    ScalarsSame(a, b, "rate");
    ScalarsSame(a, b, "rawDescription");
    hide TextAt;
    hide BoolAt;
    hide SameUpToKeyOrder;
  }

  lemma ChargesSame(a: Value, b: Value)
    requires Readable(a) && Readable(b) && SameUpToKeyOrder(a, b)
    ensures ReadCharges(ItemsAt(a, "charges")) == ReadCharges(ItemsAt(b, "charges"))
  {
    GetSame(a, b, Ascii("charges"));
    var x, y := Get(a, Ascii("charges")), Get(b, Ascii("charges"));
    if x.Arr? {
      forall i | 0 <= i < |x.items| ensures ReadCharge(x.items[i]) == ReadCharge(y.items[i]) {
        assert x.items[i] in x.items && y.items[i] in y.items;
        ChargeSame(x.items[i], y.items[i]);
      }
    }
    hide ReadCharge;
    hide Get;
  }

  lemma FootingSame(a: Value, b: Value)
    requires Readable(a) && Readable(b) && SameUpToKeyOrder(a, b)
    ensures ReadFooting(a) == ReadFooting(b)
  {
    ScalarsSame(a, b, "declaredTotal");
    ScalarsSame(a, b, "lineSum");
    hide TextAt;
  }

  /** The invoice evaluation sees: the same for any two readable values that are the same up to key order. */
  lemma InvoiceSame(a: Value, b: Value)
    requires Readable(a) && Readable(b) && SameUpToKeyOrder(a, b)
    ensures ReadInvoice(a) == ReadInvoice(b)
  {
    ScalarsSame(a, b, "transactionSet");
    ScalarsSame(a, b, "parserVersion");
    ScalarsSame(a, b, "invoiceNumber");
    ScalarsSame(a, b, "shipmentReferences");
    ScalarsSame(a, b, "carrierCode");
    ScalarsSame(a, b, "containerNumbers");
    ScalarsSame(a, b, "vesselVoyage");
    ScalarsSame(a, b, "portCodes");
    ScalarsSame(a, b, "headerCurrency");
    ChargesSame(a, b);
    GetSame(a, b, Ascii("footing"));
    FootingSame(Get(a, Ascii("footing")), Get(b, Ascii("footing")));
    hide TextAt;
    hide CountAt;
    hide ItemsAt;
    hide Get;
    hide ReadFooting;
    hide ReadCharges;
    hide SameUpToKeyOrder;
  }

  lemma ResolutionSame(a: Value, b: Value)
    requires Readable(a) && Readable(b) && SameUpToKeyOrder(a, b)
    ensures ReadResolution(a) == ReadResolution(b)
  {
    hide Readable;
    hide SameUpToKeyOrder;
    hide Ascii;
    hide TextAt;
    hide Get;
    ScalarsSame(a, b, "status");
    ScalarsSame(a, b, "value");
    ScalarsSame(a, b, "resolverVersion");
    ScalarsSame(a, b, "reason");
    GetSame(a, b, Ascii("pin"));
    ScalarsSame(Get(a, Ascii("pin")), Get(b, Ascii("pin")), "externalValueId");
  }

  /** Objects with one key set list their keys alike, in any total order. */
  lemma EntryKeysSame(keyOrder: (Text, Text) -> bool, a: Value, b: Value)
    requires TotalOrder(keyOrder) && Readable(a) && Readable(b) && SameUpToKeyOrder(a, b)
    ensures EntryKeys(keyOrder, a) == EntryKeys(keyOrder, b)
  {
    if a.Obj? {
      var p, q := KeysOf(DropUndefined(a.members)), KeysOf(DropUndefined(b.members));
      DroppingKeepsDistinct(a.members);
      DroppingKeepsDistinct(b.members);
      DefinedKeys(a.members);
      DefinedKeys(b.members);
      forall k ensures multiset(p)[k] == multiset(q)[k] {
        DistinctTextsAsMultiset(p, k);
        DistinctTextsAsMultiset(q, k);
      }
      assert multiset(p) == multiset(q);
      SortIsCanonical(keyOrder, p, q);
    }
  }

  lemma DefinedKeys(ms: seq<Member>)
    ensures forall k :: k in KeysOf(DropUndefined(ms)) <==> k in KeySet(ms)
  {
    var d := DropUndefined(ms);
    forall k | k in KeySet(ms) ensures k in KeysOf(d) {
      var m :| m in ms && !m.value.Undefined? && m.key == k;
      var i :| 0 <= i < |d| && d[i] == m;
      assert KeysOf(d)[i] == k;
    }
    forall k | k in KeysOf(d) ensures k in KeySet(ms) {
      var i :| 0 <= i < |d| && KeysOf(d)[i] == k;
      assert d[i] in ms;
    }
  }

  lemma ExternalsSame(keyOrder: (Text, Text) -> bool, a: Value, b: Value)
    requires TotalOrder(keyOrder) && Readable(a) && Readable(b) && SameUpToKeyOrder(a, b)
    ensures ReadExternals(keyOrder, a) == ReadExternals(keyOrder, b)
  {
    EntryKeysSame(keyOrder, a, b);
    var keys := EntryKeys(keyOrder, a);
    forall i | 0 <= i < |keys| ensures ReadResolution(Get(a, keys[i])) == ReadResolution(Get(b, keys[i])) {
      GetSame(a, b, keys[i]);
      ResolutionSame(Get(a, keys[i]), Get(b, keys[i]));
    }
    hide EntryKeys;
    hide ReadResolution;
    hide Get;
    hide SameUpToKeyOrder;
  }

  lemma RateSame(a: Value, b: Value)
    requires Readable(a) && Readable(b) && SameUpToKeyOrder(a, b)
    ensures ReadRate(a) == ReadRate(b)
  {
    ScalarsSame(a, b, "amount");
    ScalarsSame(a, b, "currency");
    hide TextAt;
  }

  /** The contract facts evaluation sees, likewise. */
  lemma ContractSame(keyOrder: (Text, Text) -> bool, a: Value, b: Value)
    requires TotalOrder(keyOrder) && Readable(a) && Readable(b) && SameUpToKeyOrder(a, b)
    ensures ReadContract(keyOrder, a) == ReadContract(keyOrder, b)
  {
    GetSame(a, b, Ascii("linehaulRate"));
    RateSame(Get(a, Ascii("linehaulRate")), Get(b, Ascii("linehaulRate")));
    ScalarsSame(a, b, "duplicateInvoice");
    ScalarsSame(a, b, "shipmentReferenceMatch");
    GetSame(a, b, Ascii("externalResolutions"));
    ExternalsSame(keyOrder, Get(a, Ascii("externalResolutions")), Get(b, Ascii("externalResolutions")));
    hide BoolAt;
    hide Get;
    hide ReadRate;
    hide ReadExternals;
    hide SameUpToKeyOrder;
  }

  /** Facts that are not an object read like `{}`. */
  lemma MissingFactsAreNone(keyOrder: (Text, Text) -> bool, facts: Value)
    requires !facts.Obj?
    ensures ReadContract(keyOrder, facts) == ReadContract(keyOrder, Obj([]))
  {
    assert forall key :: Get(Obj([]), key) == Undefined == Get(facts, key);
  }

  // ---- JSON.parse(JSON.stringify(v)) ---------------------------------------------------------

  /** `undefined` members are dropped, `undefined` elements become `null`. */
  function RoundTrip(v: Value): (r: Value)
    decreases v, 1, 0
  {
    match v
    case Arr(items) => Arr(RoundTripItems(v, items))
    case Obj(ms) =>
      assert forall i | 0 <= i < |ms| :: ms[i].value < v;
      Obj(RoundTripMembers(v, ms))
    case _ => v
  }

  function RoundTripItems(ghost whole: Value, items: seq<Value>): (r: seq<Value>)
    requires PartsOf(whole, items)
    ensures |r| == |items|
    decreases whole, 0, |items|
  {
    if items == [] then []
        else [if items[0].Undefined? then Null else RoundTrip(items[0])] + RoundTripItems(whole, items[1..])
  }

  function RoundTripMembers(ghost whole: Value, ms: seq<Member>): seq<Member>
    requires MembersOf(whole, ms)
    decreases whole, 0, |ms|
  {
    if ms == [] then []
    else
      (if ms[0].value.Undefined? then [] else [Member(ms[0].key, RoundTrip(ms[0].value))])
      + RoundTripMembers(whole, ms[1..])
  }

  lemma {:induction false} RoundTripSame(v: Value)
    requires JsonShaped(v)
    ensures JsonShaped(RoundTrip(v)) && SameUpToKeyOrder(v, RoundTrip(v))
    decreases v, 1, 0
  {
    match v
    case Arr(items) =>
      RoundTripItemsSame(v, items);
      var r := RoundTripItems(v, items);
      forall x | x in r ensures JsonShaped(x) { var i :| 0 <= i < |r| && r[i] == x; }
    case Obj(ms) =>
      assert forall i | 0 <= i < |ms| :: ms[i].value < v;
      RoundTripMembersSame(v, ms);
    case _ =>
  }

  lemma {:induction false} RoundTripItemsSame(whole: Value, items: seq<Value>)
    requires PartsOf(whole, items) && forall x | x in items :: JsonShaped(x)
    ensures var r := RoundTripItems(whole, items);
            |r| == |items| && forall i | 0 <= i < |r| :: JsonShaped(r[i]) && SameUpToKeyOrder(items[i], r[i])
    decreases whole, 0, |items|
  {
    if items != [] {
      RoundTripSame(items[0]);
      RoundTripItemsSame(whole, items[1..]);
    }
  }

  /** The listings define the same keys, with the same values. */
  ghost predicate AgreeingMembers(ms: seq<Member>, ns: seq<Member>) {
    && KeySet(ms) == KeySet(ns)
    && forall m, n | m in ms && n in ns && m.key == n.key && !m.value.Undefined? && !n.value.Undefined? ::
        SameUpToKeyOrder(m.value, n.value)
  }

  lemma AgreeWithHead(m: Member, ms: seq<Member>, n: Member, ns: seq<Member>)
    requires AgreeingMembers(ms, ns) && m.key == n.key && !m.value.Undefined? && !n.value.Undefined?
        && SameUpToKeyOrder(m.value, n.value)
    requires m.key !in KeySet(ms)
    ensures AgreeingMembers([m] + ms, [n] + ns)
  {
    hide SameUpToKeyOrder;
    KeySetCons(m, ms);
    KeySetCons(n, ns);
    forall x, y | x in [m] + ms && y in [n] + ns && x.key == y.key && !x.value.Undefined? && !y.value.Undefined?
      ensures SameUpToKeyOrder(x.value, y.value)
    {
      if x in ms { assert x.key in KeySet(ms); }
      if y in ns { assert y.key in KeySet(ns); }
    }
  }

  lemma AgreeWithout(m: Member, ms: seq<Member>, ns: seq<Member>)
    requires AgreeingMembers(ms, ns) && m.value.Undefined?
    ensures AgreeingMembers([m] + ms, ns)
  {
    hide SameUpToKeyOrder;
    KeySetCons(m, ms);
  }

  /** The members that stay are those that are defined, each with its value round-tripped. */
  lemma {:induction false} RoundTripMembersSame(whole: Value, ms: seq<Member>)
    requires MembersOf(whole, ms) && CanonicalJson.DistinctKeys(ms) && forall m | m in ms ::
        m.value.Undefined? || JsonShaped(m.value)
    ensures var r := RoundTripMembers(whole, ms);
            CanonicalJson.DistinctKeys(r) && AgreeingMembers(ms, r) && forall n | n in r :: JsonShaped(n.value)
    decreases whole, 0, |ms|
  {
    if ms != [] {
      var rest := ms[1..];
      RoundTripMembersSame(whole, rest);
      HeadKeyIsFresh(ms);
      var tail := RoundTripMembers(whole, rest);
      assert ms == [ms[0]] + rest;
      assert ms[0] in ms;
      if ms[0].value.Undefined? {
        AgreeWithout(ms[0], rest, tail);
      } else {
        RoundTripSame(ms[0].value);
        var head := Member(ms[0].key, RoundTrip(ms[0].value));
        AgreeWithHead(ms[0], rest, head, tail);
        FreshHeadKeepsDistinct(head, tail);
      }
    }
  }

  lemma FreshHeadKeepsDistinct(m: Member, ms: seq<Member>)
    requires CanonicalJson.DistinctKeys(ms) && m.key !in KeySet(ms) && forall n | n in ms :: JsonShaped(n.value)
    ensures CanonicalJson.DistinctKeys([m] + ms)
  {
    forall i | 0 <= i < |ms| ensures ms[i].key != m.key { assert ms[i] in ms; }
  }

  lemma KeySetCons(m: Member, ms: seq<Member>)
    ensures KeySet([m] + ms) == KeySet(ms) + if m.value.Undefined? then {} else {m.key}
  {
    var all := [m] + ms;
    forall k | k in KeySet(ms) ensures k in KeySet(all) {
      var x :| x in ms && !x.value.Undefined? && x.key == k;
      assert x in all;
    }
    if !m.value.Undefined? { assert m in all; }
  }
}
