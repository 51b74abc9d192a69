/** What the reports say: gaps, sums across reports, and reports on reachable tables. */
module ReportLaws {
  import opened Ledger
  import opened LedgerRuns
  import opened Reports
  import opened Sorting
  import opened Sums

  /** The claims of `p` together. */
  ghost function SumClaims<G>(claims: seq<ClaimRow<G>>, events: seq<EventRow>, p: ClaimRow<G> -> bool): Totals {
    if claims == [] then ZERO
    else
      var c := claims[|claims| - 1];
      Plus(SumClaims(claims[..|claims| - 1], events, p), if p(c) then Contribution(c, EventsOf(events, c.claim))
          else ZERO)
  }

  /** The shortfall of the claims of `p` together. */
  ghost function SumShortfalls<G>(claims: seq<ClaimRow<G>>, events: seq<EventRow>, p: ClaimRow<G> -> bool): Money {
    if claims == [] then 0
    else
      var c := claims[|claims| - 1];
      SumShortfalls(claims[..|claims| - 1], events, p) + if p(c) then Shortfall(c, EventsOf(events, c.claim)) else 0
  }

  function KeyOf<G>(key: Keyed<G>, c: ClaimRow<G>): string { key(c.group, c.currency) }

  // ---- one bucket ----------------------------------------------------------------------------

  ghost function HasKey<G>(key: Keyed<G>, k: string): ClaimRow<G> -> bool { (c: ClaimRow<G>) => KeyOf(key, c) == k }

  /** Which claim a bucket is labelled after. */
  predicate LabelledBy<G(==)>(key: Keyed<G>, b: BucketRow<G>, c: ClaimRow<G>) {
    KeyOf(key, c) == b.key && c.group == b.group && c.currency == b.currency
  }

  predicate Labelled<G(==)>(key: Keyed<G>, claims: seq<ClaimRow<G>>, b: BucketRow<G>) {
    exists c | c in claims :: LabelledBy(key, b, c)
  }

  predicate DistinctBuckets<G>(buckets: seq<BucketRow<G>>) {
    forall i, j | 0 <= i < j < |buckets| :: buckets[i].key != buckets[j].key
  }

  predicate HasBucket<G>(buckets: seq<BucketRow<G>>, k: string) {
    exists i :: 0 <= i < |buckets| && buckets[i].key == k
  }

  /** The bucket holds exactly the claims of its key, and its label is that of a claim in it. */
  ghost predicate BucketRight<G>(key: Keyed<G>, claims: seq<ClaimRow<G>>, events: seq<EventRow>, b: BucketRow<G>) {
    b.totals == SumClaims(claims, events, HasKey(key, b.key)) && Labelled(key, claims, b)
  }

  /** One bucket per key, each right, and one for every claim. */
  ghost predicate Filing<G>(key: Keyed<G>, claims: seq<ClaimRow<G>>, events: seq<EventRow>,
                            buckets: seq<BucketRow<G>>) {
    && DistinctBuckets(buckets)
    && (forall i | 0 <= i < |buckets| :: BucketRight(key, claims, events, buckets[i]))
    && forall c | c in claims :: HasBucket(buckets, KeyOf(key, c))
  }

  lemma SumClaimsStep<G>(claims: seq<ClaimRow<G>>, c: ClaimRow<G>, events: seq<EventRow>, p: ClaimRow<G> -> bool)
    ensures SumClaims(claims + [c], events, p)
         == Plus(SumClaims(claims, events, p), if p(c) then Contribution(c, EventsOf(events, c.claim)) else ZERO)
    ensures SumShortfalls(claims + [c], events, p)
         == SumShortfalls(claims, events, p) + if p(c) then Shortfall(c, EventsOf(events, c.claim)) else 0
  {
    assert (claims + [c])[..|claims|] == claims;
  }

  lemma {:induction false} SumClaimsNone<G>(claims: seq<ClaimRow<G>>, events: seq<EventRow>, p: ClaimRow<G> -> bool)
    requires forall c | c in claims :: !p(c)
    ensures SumClaims(claims, events, p) == ZERO
    decreases |claims|
  {
    hide Contribution;
    if claims != [] { SumClaimsNone(claims[..|claims| - 1], events, p); }
  }

  lemma {:induction false} SumClaimsSame<G>(claims: seq<ClaimRow<G>>, events: seq<EventRow>, p: ClaimRow<G> -> bool,
                                            q: ClaimRow<G> -> bool)
    requires forall c | c in claims :: p(c) == q(c)
    ensures SumClaims(claims, events, p) == SumClaims(claims, events, q)
    decreases |claims|
  {
    hide Contribution;
    if claims != [] { SumClaimsSame(claims[..|claims| - 1], events, p, q); }
  }

  lemma GapOfClaim<G>(c: ClaimRow<G>, events: seq<EventRow>)
    ensures Gap(Contribution(c, events)) == Shortfall(c, events)
  {
    hide SumOf;
  }

  /** Every gap is the shortfall of the claims marked recovered. */
  lemma {:induction false} GapIsShortfall<G>(claims: seq<ClaimRow<G>>, events: seq<EventRow>, p: ClaimRow<G> -> bool)
    ensures Gap(SumClaims(claims, events, p)) == SumShortfalls(claims, events, p)
    decreases |claims|
  {
    hide Contribution;
    hide Shortfall;
    hide EventsOf;
    if claims != [] {
      var before, c := claims[..|claims| - 1], claims[|claims| - 1];
      assert claims == before + [c];
      GapIsShortfall(before, events, p);
      GapOfClaim(c, EventsOf(events, c.claim));
      SumClaimsStep(before, c, events, p);
    }
  }

  /** A bucket the new claim does not go into. */
  lemma OtherBucket<G>(key: Keyed<G>, claims: seq<ClaimRow<G>>, events: seq<EventRow>, c: ClaimRow<G>, b: BucketRow<G>)
    requires BucketRight(key, claims, events, b) && b.key != KeyOf(key, c)
    ensures BucketRight(key, claims + [c], events, b)
  {
    hide Contribution;
    hide SumClaims;
    hide EventsOf;
    SumClaimsStep(claims, c, events, HasKey(key, b.key));
    var d :| d in claims && LabelledBy(key, b, d);
    assert d in claims + [c];
  }

  /** The bucket it does go into. */
  lemma OwnBucket<G>(key: Keyed<G>, claims: seq<ClaimRow<G>>, events: seq<EventRow>, c: ClaimRow<G>, b: BucketRow<G>)
    requires BucketRight(key, claims, events, b) && b.key == KeyOf(key, c)
    ensures BucketRight(key, claims + [c], events,
                        b.(totals := Plus(b.totals, Contribution(c, EventsOf(events, c.claim)))))
  {
    hide Contribution;
    hide SumClaims;
    hide EventsOf;
    SumClaimsStep(claims, c, events, HasKey(key, b.key));
    var d :| d in claims && LabelledBy(key, b, d);
    var u := b.(totals := Plus(b.totals, Contribution(c, EventsOf(events, c.claim))));
    assert d in claims + [c] && LabelledBy(key, u, d);
  }

  /** The bucket it opens. */
  lemma NewBucket<G>(key: Keyed<G>, claims: seq<ClaimRow<G>>, events: seq<EventRow>, c: ClaimRow<G>)
    requires forall d | d in claims :: KeyOf(key, d) != KeyOf(key, c)
    ensures BucketRight(key, claims + [c], events,
                        BucketRow(KeyOf(key, c), c.group, c.currency,
                                  Plus(ZERO, Contribution(c, EventsOf(events, c.claim)))))
  {
    SumClaimsNone(claims, events, HasKey(key, KeyOf(key, c)));
    SumClaimsStep(claims, c, events, HasKey(key, KeyOf(key, c)));
    var u := BucketRow(KeyOf(key, c), c.group, c.currency, Plus(ZERO, Contribution(c, EventsOf(events, c.claim))));
    assert c in claims + [c] && LabelledBy(key, u, c);
    hide Contribution;
    hide SumClaims;
  }

  /** A claim filed into a bucket that is there. */
  lemma FilesInPlace<G>(key: Keyed<G>, claims: seq<ClaimRow<G>>, events: seq<EventRow>, buckets: seq<BucketRow<G>>,
                        c: ClaimRow<G>, i: nat, more: seq<BucketRow<G>>)
    requires Filing(key, claims, events, buckets) && i < |buckets| && buckets[i].key == KeyOf(key, c)
    requires more == buckets[i := buckets[i].(totals := Plus(buckets[i].totals,
                                                             Contribution(c, EventsOf(events, c.claim))))]
    ensures Filing(key, claims + [c], events, more)
  {
    hide Contribution;
    hide BucketRight;
    forall j | 0 <= j < |more| ensures BucketRight(key, claims + [c], events, more[j]) {
      if j == i { OwnBucket(key, claims, events, c, buckets[i]); } else {
        assert buckets[j].key != buckets[i].key;
        OtherBucket(key, claims, events, c, buckets[j]);
      }
    }
    forall d | d in claims + [c] ensures HasBucket(more, KeyOf(key, d)) {
      var k :| 0 <= k < |buckets| && buckets[k].key == KeyOf(key, d);
      assert more[k].key == buckets[k].key;
    }
  }

  /** A claim that opens a bucket. */
  lemma FilesAnew<G>(key: Keyed<G>, claims: seq<ClaimRow<G>>, events: seq<EventRow>, buckets: seq<BucketRow<G>>,
                     c: ClaimRow<G>, more: seq<BucketRow<G>>)
    requires Filing(key, claims, events, buckets) && forall i | 0 <= i < |buckets| :: buckets[i].key != KeyOf(key, c)
    requires more == buckets
        + [BucketRow(KeyOf(key, c), c.group, c.currency, Plus(ZERO, Contribution(c, EventsOf(events, c.claim))))]
    ensures Filing(key, claims + [c], events, more)
  {
    hide Contribution;
    hide BucketRight;
    forall d | d in claims ensures KeyOf(key, d) != KeyOf(key, c) { assert HasBucket(buckets, KeyOf(key, d)); }
    forall j | 0 <= j < |more| ensures BucketRight(key, claims + [c], events, more[j]) {
      if j == |buckets| { NewBucket(key, claims, events, c); } else { OtherBucket(key, claims, events, c, buckets[j]); }
    }
    forall d | d in claims + [c] ensures HasBucket(more, KeyOf(key, d)) {
      if d in claims {
        var k :| 0 <= k < |buckets| && buckets[k].key == KeyOf(key, d);
        assert more[k].key == buckets[k].key;
      } else {
        assert more[|buckets|].key == KeyOf(key, d);
      }
    }
  }

  /** What a report holds: one bucket per key, with exactly the claims of that key. */
  lemma {:induction false} ReportFiles<G>(key: Keyed<G>, claims: seq<ClaimRow<G>>, events: seq<EventRow>)
    ensures Filing(key, claims, events, Report(key, claims, events))
    decreases |claims|
  {
    if claims != [] {
      var before, c := claims[..|claims| - 1], claims[|claims| - 1];
      ReportFiles(key, before, events);
      assert claims == before + [c];
      var buckets := Report(key, before, events);
      FiledMeaning(buckets, KeyOf(key, c));
      AddClaimCases(key, buckets, c, events);
      assert Report(key, claims, events) == AddClaim(key, buckets, c, events);
      hide Contribution;
      hide Filing;
      hide Report;
      hide AddClaim;
      if Filed(buckets, KeyOf(key, c)) >= 0 {
        FilesInPlace(key, before, events, buckets, c, Filed(buckets, KeyOf(key, c)), AddClaim(key, buckets, c, events));
      } else {
        FilesAnew(key, before, events, buckets, c, AddClaim(key, buckets, c, events));
      }
    }
  }

  /** For arbitrary rows: the gap of a bucket is what its claims marked recovered lack; it reconciles exactly
      when they lack nothing together. */
  lemma BucketGap<G>(key: Keyed<G>, claims: seq<ClaimRow<G>>, events: seq<EventRow>, i: nat)
    requires i < |Report(key, claims, events)|
    ensures var b := Report(key, claims, events)[i];
            && Gap(b.totals) == SumShortfalls(claims, events, HasKey(key, b.key))
            && (Reconciles(b.totals) <==> SumShortfalls(claims, events, HasKey(key, b.key)) == 0)
  {
    hide Report;
    hide SumClaims;
    hide SumShortfalls;
    hide AddClaim;
    hide Filed;
    ReportFiles(key, claims, events);
    assert BucketRight(key, claims, events, Report(key, claims, events)[i]);
    GapIsShortfall(claims, events, HasKey(key, Report(key, claims, events)[i].key));
  }

  // ---- sums across buckets -------------------------------------------------------------------

  ghost function InCurrency<G>(currency: Option<Currency>): ClaimRow<G> -> bool {
    (c: ClaimRow<G>) => c.currency == currency
  }

  /** The buckets of one currency together. */
  ghost function SumBuckets<G>(buckets: seq<BucketRow<G>>, currency: Option<Currency>): Totals {
    if buckets == [] then ZERO
    else
      var b := buckets[|buckets| - 1];
      Plus(SumBuckets(buckets[..|buckets| - 1], currency), if b.currency == currency then b.totals else ZERO)
  }

  /** Claims filed under one key have one currency. */
  predicate KeysTellCurrency<G(==)>(key: Keyed<G>, claims: seq<ClaimRow<G>>) {
    forall c, d | c in claims && d in claims && KeyOf(key, c) == KeyOf(key, d) :: c.currency == d.currency
  }

  lemma SumBucketsAppend<G>(buckets: seq<BucketRow<G>>, b: BucketRow<G>, currency: Option<Currency>)
    ensures SumBuckets(buckets + [b], currency) == Plus(SumBuckets(buckets, currency),
                                                        if b.currency == currency then b.totals else ZERO)
  {
    assert (buckets + [b])[..|buckets|] == buckets;
  }

  lemma {:induction false} SumBucketsConcat<G>(a: seq<BucketRow<G>>, b: seq<BucketRow<G>>, currency: Option<Currency>)
    ensures SumBuckets(a + b, currency) == Plus(SumBuckets(a, currency), SumBuckets(b, currency))
    decreases |b|
  {
    if b == [] {
      assert a + b == a;
    } else {
      var front, last := b[..|b| - 1], b[|b| - 1];
      assert a + b == (a + front) + [last] && b == front + [last];
      SumBucketsConcat(a, front, currency);
      SumBucketsAppend(a + front, last, currency);
      SumBucketsAppend(front, last, currency);
    }
  }

  lemma SumBucketsUpdate<G>(buckets: seq<BucketRow<G>>, i: nat, more: Totals, currency: Option<Currency>)
    requires i < |buckets|
    ensures SumBuckets(buckets[i := buckets[i].(totals := Plus(buckets[i].totals, more))], currency)
         == Plus(SumBuckets(buckets, currency), if buckets[i].currency == currency then more else ZERO)
  {
    hide SumBuckets;
    var b := buckets[i];
    var u := b.(totals := Plus(b.totals, more));
    var front, back := buckets[..i], buckets[i + 1..];
    assert buckets == (front + [b]) + back;
    assert buckets[i := u] == (front + [u]) + back;
    SumBucketsConcat(front + [b], back, currency);
    SumBucketsConcat(front + [u], back, currency);
    SumBucketsAppend(front, b, currency);
    SumBucketsAppend(front, u, currency);
  }

  /** Summed per currency, the buckets of a report give the claims of that currency: for every figure. */
  lemma {:induction false} BucketsSumToCurrency<G>(key: Keyed<G>, claims: seq<ClaimRow<G>>, events: seq<EventRow>,
                                                   currency: Option<Currency>)
    requires KeysTellCurrency(key, claims)
    ensures SumBuckets(Report(key, claims, events), currency) == SumClaims(claims, events, InCurrency(currency))
    decreases |claims|
  {
    if claims != [] {
      var before, c := claims[..|claims| - 1], claims[|claims| - 1];
      assert claims == before + [c];
      assert KeysTellCurrency(key, before);
      BucketsSumToCurrency(key, before, events, currency);
      ReportFiles(key, before, events);
      var buckets := Report(key, before, events);
      assert Report(key, claims, events) == AddClaim(key, buckets, c, events);
      SumClaimsStep(before, c, events, InCurrency(currency));
      hide Report;
      BucketsSumStep(key, before, c, events, buckets, currency);
      hide Contribution;
      hide AddClaim;
    }
  }

  lemma BucketsSumStep<G>(key: Keyed<G>, before: seq<ClaimRow<G>>, c: ClaimRow<G>, events: seq<EventRow>,
                          buckets: seq<BucketRow<G>>, currency: Option<Currency>)
    requires KeysTellCurrency(key, before + [c]) && Filing(key, before, events, buckets)
    ensures SumBuckets(AddClaim(key, buckets, c, events), currency)
         == Plus(SumBuckets(buckets, currency),
                 if c.currency == currency then Contribution(c, EventsOf(events, c.claim)) else ZERO)
  {
    hide Contribution;
    hide SumClaims;
    hide EventsOf;
    hide SumBuckets;
    hide AddClaim;
    var added := Contribution(c, EventsOf(events, c.claim));
    var i := Filed(buckets, KeyOf(key, c));
    FiledMeaning(buckets, KeyOf(key, c));
    AddClaimCases(key, buckets, c, events);
    hide Filed;
    if i >= 0 {
      assert BucketRight(key, before, events, buckets[i]);
      var d :| d in before && LabelledBy(key, buckets[i], d);
      assert d in before + [c] && c in before + [c];
      assert buckets[i].currency == c.currency;
      hide Filing;
      SumBucketsUpdate(buckets, i, added, currency);
    } else {
      hide Filing;
      SumBucketsAppend(buckets, BucketRow(KeyOf(key, c), c.group, c.currency, Plus(ZERO, added)), currency);
    }
  }

  // ---- the three reports agree ---------------------------------------------------------------

  /** A claim without its group, as the portfolio report reads it. */
  function Bare<G>(c: ClaimRow<G>): ClaimRow<()> { ClaimRow((), c.claim, c.amount, c.currency, c.status) }

  function AllBare<G>(claims: seq<ClaimRow<G>>): seq<ClaimRow<()>> {
    seq(|claims|, i requires 0 <= i < |claims| => Bare(claims[i]))
  }

  /** What the database stores as a currency: nothing, or three upper-case letters. */
  predicate Proper(currency: Option<Currency>) {
    currency == None || (|currency.value| == 3 && forall i | 0 <= i < 3 :: 'A' <= currency.value[i] <= 'Z')
  }

  predicate AllProper<G(==)>(claims: seq<ClaimRow<G>>) { forall c | c in claims :: Proper(c.currency) }

  /** Whatever stands before it, a proper currency can be read off the end of a key. */
  lemma SuffixTellsCurrency(a: string, b: string, c: Option<Currency>, d: Option<Currency>)
    requires Proper(c) && Proper(d) && a + CurrencyText(c) == b + CurrencyText(d)
    ensures c == d
  {
    var s, t := a + CurrencyText(c), b + CurrencyText(d);
    assert s[|s| - 1] == CurrencyText(c)[|CurrencyText(c)| - 1] && t[|t| - 1] == CurrencyText(d)[|CurrencyText(d)| - 1];
    if c.Some? && d.Some? {
      assert c.value == s[|s| - 3..] && d.value == t[|t| - 3..];
    }
  }

  lemma {:induction false} BareSums<G>(claims: seq<ClaimRow<G>>, events: seq<EventRow>, currency: Option<Currency>)
    ensures SumClaims(AllBare(claims), events, InCurrency(currency)) == SumClaims(claims, events, InCurrency(currency))
    decreases |claims|
  {
    if claims != [] {
      var n := |claims| - 1;
      BareSums(claims[..n], events, currency);
      assert AllBare(claims)[..n] == AllBare(claims[..n]);
      hide SumOf;
      hide EventsOf;
    }
  }

  lemma PortfolioBuckets(claims: seq<ClaimRow<()>>, events: seq<EventRow>, i: nat)
    requires AllProper(claims) && i < |Report(PortfolioKey, claims, events)|
    ensures var b := Report(PortfolioKey, claims, events)[i];
            b.totals == SumClaims(claims, events, InCurrency(b.currency))
  {
    var b := Report(PortfolioKey, claims, events)[i];
    ReportFiles(PortfolioKey, claims, events);
    assert BucketRight(PortfolioKey, claims, events, b);
    hide Report;
    hide Filing;
    var d :| d in claims && LabelledBy(PortfolioKey, b, d);
    forall c | c in claims ensures HasKey(PortfolioKey, b.key)(c) == InCurrency<()>(b.currency)(c) {
      if KeyOf(PortfolioKey, c) == b.key { SameKeySameCurrency("", "", c.currency, d.currency); }
    }
    SumClaimsSame(claims, events, HasKey(PortfolioKey, b.key), InCurrency(b.currency));
  }

  lemma SameKeySameCurrency(a: string, b: string, c: Option<Currency>, d: Option<Currency>)
    requires Proper(c) && Proper(d) && CurrencyText(c) == CurrencyText(d)
    ensures c == d
  {
    assert "" + CurrencyText(c) == "" + CurrencyText(d);
    SuffixTellsCurrency("", "", c, d);
  }

  /** Any report that ends its keys with the currency, on any rows with proper currencies: its buckets summed per
      currency are the portfolio's figures, field by field; and every currency in it has a portfolio bucket. */
  lemma ReportsAgree<G>(key: Keyed<G>, prefix: G -> string, claims: seq<ClaimRow<G>>, events: seq<EventRow>)
    requires AllProper(claims) && forall c | c in claims ::
        key(c.group, c.currency) == prefix(c.group) + CurrencyText(c.currency)
    ensures var portfolio := Report(PortfolioKey, AllBare(claims), events);
            && (forall i | 0 <= i < |portfolio| ::
                SumBuckets(Report(key, claims, events), portfolio[i].currency) == portfolio[i].totals)
            && forall c | c in claims :: exists i :: 0 <= i < |portfolio| && portfolio[i].currency == c.currency
  {
    var bare := AllBare(claims);
    var portfolio := Report(PortfolioKey, bare, events);
    assert KeysTellCurrency(key, claims) by {
      forall c, d | c in claims && d in claims && KeyOf(key, c) == KeyOf(key, d) ensures c.currency == d.currency {
        SuffixTellsCurrency(prefix(c.group), prefix(d.group), c.currency, d.currency);
      }
    }
    BareMembers(claims);
    ReportFiles(PortfolioKey, bare, events);
    hide Report;
    hide Proper;
    forall i | 0 <= i < |portfolio|
        ensures SumBuckets(Report(key, claims, events), portfolio[i].currency) == portfolio[i].totals {
      PortfolioBuckets(bare, events, i);
      BucketsSumToCurrency(key, claims, events, portfolio[i].currency);
      BareSums(claims, events, portfolio[i].currency);
    }
    hide AllBare;
    forall c | c in claims ensures exists i :: 0 <= i < |portfolio| && portfolio[i].currency == c.currency {
      assert Bare(c) in bare && HasBucket(portfolio, KeyOf(PortfolioKey, Bare(c)));
      var i :| 0 <= i < |portfolio| && portfolio[i].key == KeyOf(PortfolioKey, Bare(c));
      assert BucketRight(PortfolioKey, bare, events, portfolio[i]);
      var d :| d in bare && LabelledBy(PortfolioKey, portfolio[i], d);
      SameKeySameCurrency("", "", d.currency, c.currency);
    }
  }

  lemma BareMembers<G>(claims: seq<ClaimRow<G>>)
    requires AllProper(claims)
    ensures AllProper(AllBare(claims)) && forall c | c in claims :: Bare(c) in AllBare(claims)
  {
    var bare := AllBare(claims);
    hide Proper;
    forall b | b in bare ensures Proper(b.currency) {
      var i :| 0 <= i < |bare| && bare[i] == b;
      assert claims[i] in claims;
    }
    forall c | c in claims ensures Bare(c) in bare {
      var i :| 0 <= i < |claims| && claims[i] == c;
      assert bare[i] == Bare(c);
    }
  }

  lemma CarrierReportAgrees(claims: seq<ClaimRow<Option<string>>>, events: seq<EventRow>, i: nat)
    requires AllProper(claims) && i < |Report(PortfolioKey, AllBare(claims), events)|
    ensures SumBuckets(Report(CarrierKey, claims, events), Report(PortfolioKey, AllBare(claims), events)[i].currency)
         == Report(PortfolioKey, AllBare(claims), events)[i].totals
  {
    ReportsAgree(CarrierKey, (carrier: Option<string>) => (if carrier == None then " " else carrier.value) + "::",
                 claims, events);
  }

  lemma CrossAccountReportAgrees(claims: seq<ClaimRow<(string, Option<string>)>>, events: seq<EventRow>, i: nat)
    requires AllProper(claims) && i < |Report(PortfolioKey, AllBare(claims), events)|
    ensures SumBuckets(Report(AccountKey, claims, events), Report(PortfolioKey, AllBare(claims), events)[i].currency)
         == Report(PortfolioKey, AllBare(claims), events)[i].totals
  {
    ReportsAgree(AccountKey, (account: (string, Option<string>)) => account.0 + "::", claims, events);
  }

  /** Without the check on stored currencies a single space would be filed with the missing currency, and nothing else.
      */
  lemma PortfolioKeysCollide(c: Option<Currency>, d: Option<Currency>)
    ensures PortfolioKey((), c) == PortfolioKey((), d)
        <==> c == d || (c == None && d == Some(" ")) || (c == Some(" ") && d == None)
  {
    var space: Currency := " ";
    match (c, d)
    case (None, Some(x)) => assert PortfolioKey((), c) == PortfolioKey((), d) <==> x == space;
    case (Some(x), None) => assert PortfolioKey((), c) == PortfolioKey((), d) <==> x == space;
    case _ =>
  }

  // ---- reachable tables ----------------------------------------------------------------------

  /** The recovery rows a report reads. */
  function EventRows(events: seq<RecoveryEvent>): seq<EventRow> {
    seq(|events|, i requires 0 <= i < |events| => EventRow(events[i].claim, events[i].amount, events[i].currency))
  }

  /** The rows are claims of the tables, in any order and under any groups. */
  predicate RowsOfTables<G(==)>(t: Tables, claims: seq<ClaimRow<G>>) {
    forall c | c in claims ::
      && c.claim in t.claims && c.amount == t.claims[c.claim].amountClaimed
      && c.currency == t.claims[c.claim].currency && c.status == t.claims[c.claim].status
  }

  lemma OneMoreEvent(events: seq<EventRow>, e: EventRow, c: Id, currency: Option<Currency>)
    ensures SumOf(currency, EventsOf(events + [e], c), Same)
         == SumOf(currency, EventsOf(events, c), Same) + if e.claim == c && KindOf(currency, e) == Same then e.amount
             else 0
  {
    KeepLast(events, e, (x: EventRow) => x.claim == c);
    var own := EventsOf(events, c);
    assert EventsOf(events + [e], c) == own + if e.claim == c then [e] else [];
    assert (own + [e])[..|own|] == own;
    assert own + [] == own;
    hide EventsOf;
    hide KindOf;
  }

  lemma {:induction false} RecoveredSame(t: Tables, c: Id, n: nat)
    requires RecoveriesSound(t) && c in t.claims && t.claims[c].currency.Some? && n <= |t.recoveries|
    ensures SumOf(t.claims[c].currency, EventsOf(EventRows(t.recoveries[..n]), c), Same)
        == RecoveredOn(t.recoveries[..n], t.claims[c].account, c)
    decreases n
  {
    if n == 0 {
      assert EventRows(t.recoveries[..n]) == [] && t.recoveries[..n] == [];
    } else {
      var before, e := t.recoveries[..n - 1], t.recoveries[n - 1];
      RecoveredSame(t, c, n - 1);
      assert RecoverySound(t, e);
      assert t.recoveries[..n] == before + [e];
      var row := EventRow(e.claim, e.amount, e.currency);
      assert EventRows(before + [e]) == EventRows(before) + [row];
      OneMoreEvent(EventRows(before), row, c, t.claims[c].currency);
      OneMoreRecovery(before, e, t.claims[c].account, c);
      hide RecoveriesSound;
      hide EventsOf;
      hide EventRows;
      hide SumOf;
      hide RecoveredOn;
    }
  }

  lemma {:induction false} NoShortfall<G>(t: Tables, claims: seq<ClaimRow<G>>, p: ClaimRow<G> -> bool)
    requires ClaimsSound(t) && RecoveriesSound(t) && RowsOfTables(t, claims)
    ensures SumShortfalls(claims, EventRows(t.recoveries), p) == 0
    decreases |claims|
  {
    if claims != [] {
      var n := |claims| - 1;
      assert RowsOfTables(t, claims[..n]);
      NoShortfall(t, claims[..n], p);
      var c := claims[n].claim;
      assert ClaimSound(t, t.claims[c]);
      RecoveredSame(t, c, |t.recoveries|);
      assert t.recoveries[..|t.recoveries|] == t.recoveries;
      assert Total(t, c) == RecoveredOn(t.recoveries, t.claims[c].account, c);
    }
  }

  /** In every state of every run, every bucket of every report reconciles. */
  lemma ReachableReportsReconcile<G>(states: seq<Tables>, ops: seq<Op>, k: nat, key: Keyed<G>, claims: seq<ClaimRow<G>>,
                                     i: nat)
    requires Run(states, ops) && k < |states| && RowsOfTables(states[k], claims)
    requires i < |Report(key, claims, EventRows(states[k].recoveries))|
    ensures Reconciles(Report(key, claims, EventRows(states[k].recoveries))[i].totals)
  {
    RunKeepsInvariant(states, ops, k);
    var t := states[k];
    InvariantParts(t);
    ClaimsAreSound(t);
    var events := EventRows(t.recoveries);
    BucketGap(key, claims, events, i);
    NoShortfall(t, claims, HasKey(key, Report(key, claims, events)[i].key));
    hide Run;
    hide Report;
    hide SumShortfalls;
    hide Reconciles;
  }
}
