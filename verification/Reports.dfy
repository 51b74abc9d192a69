/** The three recovery reports and what they share: src/modules/claims/reconcile-claim-buckets.ts,
    aggregate-carrier-recovery.ts, aggregate-cross-account-portfolio.ts, reconcile-portfolio-totals.ts. */
module Reports {
  import opened Ledger
  import opened LedgerRuns
  import opened Sorting
  import opened Sums

  /** A claim of a report; `group` is its carrier, its account, or nothing. Any status that is not terminal counts as
      open. */
  datatype ClaimRow<G> = ClaimRow(group: G, claim: Id, amount: Money, currency: Option<Currency>, status: ClaimStatus)

  datatype EventRow = EventRow(claim: Id, amount: Money, currency: Option<Currency>)

  datatype Totals = Totals(claimed: Money, recovered: Money, outstanding: Money, writtenOff: Money, denied: Money,
                           nullCurrency: Money, mismatchedCurrency: Money)

  const ZERO := Totals(0, 0, 0, 0, 0, 0, 0)

  function Plus(a: Totals, b: Totals): Totals {
    Totals(a.claimed + b.claimed, a.recovered + b.recovered, a.outstanding + b.outstanding, a.writtenOff + b.writtenOff,
           a.denied + b.denied,
           a.nullCurrency + b.nullCurrency, a.mismatchedCurrency + b.mismatchedCurrency)
  }

  /** `claimed` less its four parts. */
  function Gap(t: Totals): Money { t.claimed - (t.recovered + t.outstanding + t.writtenOff + t.denied) }

  predicate Reconciles(t: Totals) { t.claimed == t.recovered + t.outstanding + t.writtenOff + t.denied }

  // ---- one claim -----------------------------------------------------------------------------

  datatype Kind = Same | Null | Mismatched

  function KindOf(claimCurrency: Option<Currency>, e: EventRow): Kind {
    if e.currency == None then Null
    else if claimCurrency.Some? && e.currency != claimCurrency then Mismatched
    else Same
  }

  function SumOf(claimCurrency: Option<Currency>, events: seq<EventRow>, kind: Kind): Money {
    if events == [] then 0
    else
      var e := events[|events| - 1];
      SumOf(claimCurrency, events[..|events| - 1], kind) + if KindOf(claimCurrency, e) == kind then e.amount else 0
  }

  /** What one claim adds to its bucket. */
  function Contribution<G>(c: ClaimRow<G>, events: seq<EventRow>): Totals {
    var same := SumOf(c.currency, events, Same);
    var rest := c.amount - same;
    Totals(c.amount, same, if c.status == ClaimOpen then rest else 0, if c.status == WrittenOff then rest else 0,
           if c.status == Denied then rest else 0, SumOf(c.currency, events, Null),
               SumOf(c.currency, events, Mismatched))
  }

  /** What a claim marked recovered lacks: nothing, if the mark is right. */
  function Shortfall<G>(c: ClaimRow<G>, events: seq<EventRow>): Money {
    if c.status == Recovered then c.amount - SumOf(c.currency, events, Same) else 0
  }

  function EventsOf(events: seq<EventRow>, claim: Id): seq<EventRow> { Keep(events, (e: EventRow) => e.claim == claim) }

  // ---- buckets -------------------------------------------------------------------------------

  datatype BucketRow<G> = BucketRow(key: string, group: G, currency: Option<Currency>, totals: Totals)

  /** A key builder: the string under which a report files a group and a currency. */
  type Keyed<!G> = (G, Option<Currency>) -> string

  function CurrencyText(currency: Option<Currency>): string { if currency == None then " " else currency.value }

  function CarrierKey(carrier: Option<string>, currency: Option<Currency>): string {
    (if carrier == None then " " else carrier.value) + "::" + CurrencyText(currency)
  }

  /** The account name travels with the account id. */
  function AccountKey(account: (string, Option<string>), currency: Option<Currency>): string {
    account.0 + "::" + CurrencyText(currency)
  }

  function PortfolioKey(group: (), currency: Option<Currency>): string { CurrencyText(currency) }

  function Filed<G>(buckets: seq<BucketRow<G>>, key: string): int {
    if buckets == [] then -1
    else if buckets[|buckets| - 1].key == key then |buckets| - 1
    else Filed(buckets[..|buckets| - 1], key)
  }

  lemma {:induction false} FiledMeaning<G>(buckets: seq<BucketRow<G>>, key: string)
    ensures -1 <= Filed(buckets, key) < |buckets|
    ensures Filed(buckets, key) >= 0 ==> buckets[Filed(buckets, key)].key == key
    ensures Filed(buckets, key) == -1 ==> forall i | 0 <= i < |buckets| :: buckets[i].key != key
    decreases |buckets|
  {
    if buckets != [] && buckets[|buckets| - 1].key != key {
      FiledMeaning(buckets[..|buckets| - 1], key);
      assert forall i | 0 <= i < |buckets| - 1 :: buckets[..|buckets| - 1][i] == buckets[i];
    }
  }

  function AddClaim<G>(key: Keyed<G>, buckets: seq<BucketRow<G>>, c: ClaimRow<G>,
                       events: seq<EventRow>): seq<BucketRow<G>> {
    FiledMeaning(buckets, key(c.group, c.currency));
    var k := key(c.group, c.currency);
    var i := Filed(buckets, k);
    var more := Contribution(c, EventsOf(events, c.claim));
    if i >= 0 then buckets[i := buckets[i].(totals := Plus(buckets[i].totals, more))]
    else buckets + [BucketRow(k, c.group, c.currency, Plus(ZERO, more))]
  }

  /** A report: the claims in order, each added to the bucket of its key. */
  function Report<G>(key: Keyed<G>, claims: seq<ClaimRow<G>>, events: seq<EventRow>): seq<BucketRow<G>> {
    if claims == [] then []
    else AddClaim(key, Report(key, claims[..|claims| - 1], events), claims[|claims| - 1], events)
  }

  // ---- the loops -----------------------------------------------------------------------------

  class Bucket<G> {
    const group: G
    const currency: Option<Currency>
    var claimed: Money
    var recovered: Money
    var outstanding: Money
    var writtenOff: Money
    var denied: Money
    var nullCurrencyRecovered: Money
    var mismatchedCurrencyRecovered: Money

    function View(): Totals
      reads this
    {
      Totals(claimed, recovered, outstanding, writtenOff, denied, nullCurrencyRecovered, mismatchedCurrencyRecovered)
    }

    constructor (group: G, currency: Option<Currency>)
      ensures View() == ZERO && this.group == group && this.currency == currency
    {
      this.group, this.currency := group, currency;
      claimed, recovered, outstanding, writtenOff, denied := 0, 0, 0, 0, 0;
      nullCurrencyRecovered, mismatchedCurrencyRecovered := 0, 0;
    }

    /** `accumulateClaimReconciliation` */
    method Accumulate(c: ClaimRow<G>, events: seq<EventRow>)
      modifies this
      ensures View() == Plus(old(View()), Contribution(c, events))
    {
      claimed := claimed + c.amount;
      var same := 0;
      for i := 0 to |events|
        invariant same == SumOf(c.currency, events[..i], Same)
        invariant nullCurrencyRecovered == old(nullCurrencyRecovered) + SumOf(c.currency, events[..i], Null)
        invariant mismatchedCurrencyRecovered == old(mismatchedCurrencyRecovered) + SumOf(c.currency, events[..i],
            Mismatched)
        invariant claimed == old(claimed) + c.amount && recovered == old(recovered) && outstanding == old(outstanding)
        invariant writtenOff == old(writtenOff) && denied == old(denied)
      {
        var e := events[i];
        assert events[..i + 1][..i] == events[..i];
        if e.currency == None { nullCurrencyRecovered := nullCurrencyRecovered + e.amount; }
        else if c.currency.Some? && e.currency != c.currency {
          mismatchedCurrencyRecovered := mismatchedCurrencyRecovered + e.amount;
        }
        else { same := same + e.amount; }
      }
      assert events[..|events|] == events;
      recovered := recovered + same;
      match c.status
      case Recovered =>
      case Denied => denied := denied + c.amount - same;
      case WrittenOff => writtenOff := writtenOff + c.amount - same;
      case ClaimOpen => outstanding := outstanding + c.amount - same;
    }
  }

  function ListedAt(m: map<Id, seq<EventRow>>, claim: Id): seq<EventRow> { if claim in m then m[claim] else [] }

  /** `eventsByClaim` */
  method GroupEvents(events: seq<EventRow>) returns (m: map<Id, seq<EventRow>>)
    ensures forall c: Id :: ListedAt(m, c) == EventsOf(events, c)
  {
    m := map[];
    for i := 0 to |events|
      invariant forall c: Id :: ListedAt(m, c) == EventsOf(events[..i], c)
    {
      var e := events[i];
      ghost var upTo := events[..i + 1];
      assert upTo == events[..i] + [e];
      forall c: Id ensures EventsOf(upTo, c) == EventsOf(events[..i], c) + if e.claim == c then [e] else [] {
        KeepLast(events[..i], e, (x: EventRow) => x.claim == c);
      }
      m := m[e.claim := ListedAt(m, e.claim) + [e]];
      forall c: Id ensures ListedAt(m, c) == EventsOf(upTo, c) {}
    }
    assert events[..|events|] == events;
  }

  function Rows<G>(keys: seq<string>, buckets: seq<Bucket<G>>): (r: seq<BucketRow<G>>)
    requires |keys| == |buckets|
    reads buckets
    ensures |r| == |keys|
    ensures forall i | 0 <= i < |r| ::
        r[i] == BucketRow(keys[i], buckets[i].group, buckets[i].currency, buckets[i].View())
  {
    seq(|keys|, i requires 0 <= i < |keys| reads buckets => BucketRow(keys[i], buckets[i].group, buckets[i].currency,
        buckets[i].View()))
  }

  /** The `buckets` Map, in insertion order: keys and their accumulators. */
  method BucketFor<G>(keys: seq<string>, buckets: seq<Bucket<G>>, key: string) returns (i: int)
    requires |keys| == |buckets|
    ensures i == Filed(Rows(keys, buckets), key)
  {
    i := |keys| - 1;
    var rows := Rows(keys, buckets);
    assert rows[..|keys|] == rows;
    while i >= 0 && keys[i] != key
      invariant -1 <= i < |keys|
      invariant Filed(rows, key) == Filed(rows[..i + 1], key)
    {
      assert rows[..i + 1][..i] == rows[..i];
      i := i - 1;
    }
    assert i >= 0 ==> rows[..i + 1][i].key == key;
  }

  method Aggregate<G>(key: Keyed<G>, claims: seq<ClaimRow<G>>, events: seq<EventRow>)
    returns (report: seq<BucketRow<G>>)
    ensures report == Report(key, claims, events)
  {
    var eventsByClaim := GroupEvents(events);
    var keys: seq<string> := [];
    var buckets: seq<Bucket<G>> := [];
    for n := 0 to |claims|
      invariant |keys| == |buckets| && fresh(buckets)
      invariant forall i, j | 0 <= i < j < |buckets| :: buckets[i] != buckets[j]
      invariant Rows(keys, buckets) == Report(key, claims[..n], events)
    {
      var c := claims[n];
      ReportStep(key, claims, n, events);
      assert ListedAt(eventsByClaim, c.claim) == EventsOf(events, c.claim);
      hide *;
      keys, buckets := AddToBucket(key, keys, buckets, c, ListedAt(eventsByClaim, c.claim), events);
    }
    assert claims[..|claims|] == claims;
    hide *;
    report := Rows(keys, buckets);
  }

  lemma ReportStep<G>(key: Keyed<G>, claims: seq<ClaimRow<G>>, n: nat, events: seq<EventRow>)
    requires n < |claims|
    ensures Report(key, claims[..n + 1], events) == AddClaim(key, Report(key, claims[..n], events), claims[n], events)
  {
    assert claims[..n + 1][..n] == claims[..n];
    hide AddClaim;
  }

  method AddToBucket<G>(key: Keyed<G>, keys: seq<string>, buckets: seq<Bucket<G>>, c: ClaimRow<G>, own: seq<EventRow>,
                        ghost events: seq<EventRow>)
    returns (moreKeys: seq<string>, more: seq<Bucket<G>>)
    requires |keys| == |buckets| && own == EventsOf(events, c.claim)
    requires forall i, j | 0 <= i < j < |buckets| :: buckets[i] != buckets[j]
    modifies buckets
    ensures |moreKeys| == |more| && forall j | 0 <= j < |more| :: more[j] in buckets || fresh(more[j])
    ensures forall i, j | 0 <= i < j < |more| :: more[i] != more[j]
    ensures Rows(moreKeys, more) == AddClaim(key, old(Rows(keys, buckets)), c, events)
  {
    var k := key(c.group, c.currency);
    hide *;
    var i := BucketFor(keys, buckets, k);
    AddClaimCases(key, Rows(keys, buckets), c, events);
    if i >= 0 {
      AddInPlace(keys, buckets, i, c, own);
      moreKeys, more := keys, buckets;
    } else {
      moreKeys, more := AddNew(keys, buckets, k, c, own);
    }
  }

  method AddNew<G>(keys: seq<string>, buckets: seq<Bucket<G>>, k: string, c: ClaimRow<G>, own: seq<EventRow>)
    returns (moreKeys: seq<string>, more: seq<Bucket<G>>)
    requires |keys| == |buckets|
    ensures |moreKeys| == |more| == |buckets| + 1 && more[..|buckets|] == buckets && fresh(more[|buckets|])
    ensures Rows(moreKeys, more)
         == old(Rows(keys, buckets)) + [BucketRow(k, c.group, c.currency, Plus(ZERO, Contribution(c, own)))]
  {
    hide Contribution;
    hide Plus;
    var b := new Bucket(c.group, c.currency);
    b.Accumulate(c, own);
    moreKeys, more := keys + [k], buckets + [b];
    ghost var now := Rows(moreKeys, more);
    forall j | 0 <= j < |buckets| ensures now[j] == old(Rows(keys, buckets))[j] { assert more[j] == buckets[j]; }
  }

  method AddInPlace<G>(ghost keys: seq<string>, buckets: seq<Bucket<G>>, i: nat, c: ClaimRow<G>, own: seq<EventRow>)
    requires |keys| == |buckets| && i < |buckets|
    requires forall j, k | 0 <= j < k < |buckets| :: buckets[j] != buckets[k]
    modifies buckets
    ensures var before := old(Rows(keys, buckets));
            Rows(keys, buckets) == before[i := before[i].(totals := Plus(before[i].totals, Contribution(c, own)))]
  {
    hide Contribution;
    hide Plus;
    ghost var before := Rows(keys, buckets);
    buckets[i].Accumulate(c, own);
    ghost var now := Rows(keys, buckets);
    forall j | 0 <= j < |buckets| && j != i ensures now[j] == before[j] { assert buckets[j] != buckets[i]; }
    assert now[i] == before[i].(totals := Plus(before[i].totals, Contribution(c, own)));
  }

  lemma AddClaimCases<G>(key: Keyed<G>, buckets: seq<BucketRow<G>>, c: ClaimRow<G>, events: seq<EventRow>)
    ensures var k := key(c.group, c.currency);
            var i := Filed(buckets, k);
            var added := Contribution(c, EventsOf(events, c.claim));
            && -1 <= i < |buckets|
            && AddClaim(key, buckets, c, events)
               == if i >= 0 then buckets[i := buckets[i].(totals := Plus(buckets[i].totals, added))]
                  else buckets + [BucketRow(k, c.group, c.currency, Plus(ZERO, added))]
  {
    FiledMeaning(buckets, key(c.group, c.currency));
    hide Contribution;
    hide EventsOf;
    hide Plus;
    hide Filed;
  }
}
