/** What each figure of a report is the sum of. */
module ReportFigures {
  import opened Ledger
  import opened Reports
  import opened ReportLaws
  import opened Sorting
  import opened Sums

  // What src/modules/claims/reconcile-claim-buckets.ts, lines 65-118, promises of a bucket, said of the claim rows and
  // the event rows of the report.

  // ---- sums over rows ------------------------------------------------------------------------

  ghost function Added<T>(rows: seq<T>, amount: T -> Money): Money {
    if rows == [] then 0 else amount(rows[0]) + Added(rows[1..], amount)
  }

  lemma {:induction false} AddedLast<T>(rows: seq<T>, x: T, amount: T -> Money)
    ensures Added(rows + [x], amount) == Added(rows, amount) + amount(x)
    decreases |rows|
  {
    if rows == [] {
      assert [] + [x] == [x];
    } else {
      assert (rows + [x])[1..] == rows[1..] + [x];
      AddedLast(rows[1..], x, amount);
    }
  }

  /** What a claim recovered in its own currency; in any, if it has none. */
  ghost function Recouped<G>(c: ClaimRow<G>, events: seq<EventRow>): Money {
    Added(events, (e: EventRow) =>
      if e.claim == c.claim && e.currency.Some? && (c.currency.None? || e.currency == c.currency) then e.amount else 0)
  }

  /** What it recovered without a currency, and in another one. */
  ghost function RecoupedWithout<G>(c: ClaimRow<G>, events: seq<EventRow>): Money {
    Added(events, (e: EventRow) => if e.claim == c.claim && e.currency.None? then e.amount else 0)
  }

  ghost function RecoupedElsewhere<G>(c: ClaimRow<G>, events: seq<EventRow>): Money {
    Added(events, (e: EventRow) =>
      if e.claim == c.claim && e.currency.Some? && c.currency.Some? && e.currency != c.currency then e.amount else 0)
  }


  ghost function KindAmount<G>(c: ClaimRow<G>, kind: Kind): EventRow -> Money {
    (e: EventRow) => if e.claim == c.claim && KindOf(c.currency, e) == kind then e.amount else 0
  }

  lemma EventsOfLast(events: seq<EventRow>, e: EventRow, claim: Id)
    ensures EventsOf(events + [e], claim) == EventsOf(events, claim) + if e.claim == claim then [e] else []
  {
    KeepLast(events, e, (x: EventRow) => x.claim == claim);
  }

  lemma SumOfLast(currency: Option<Currency>, events: seq<EventRow>, e: EventRow, kind: Kind)
    ensures SumOf(currency, events + [e], kind)
         == SumOf(currency, events, kind) + if KindOf(currency, e) == kind then e.amount else 0
  {
    assert (events + [e])[..|events|] == events;
    hide KindOf;
  }

  lemma {:induction false} SumOfOwnEvents<G>(c: ClaimRow<G>, events: seq<EventRow>, kind: Kind)
    ensures SumOf(c.currency, EventsOf(events, c.claim), kind) == Added(events, KindAmount(c, kind))
    decreases |events|
  {
    if events == [] {
      assert EventsOf(events, c.claim) == [];
    } else {
      var before, e := events[..|events| - 1], events[|events| - 1];
      assert events == before + [e];
      SumOfOwnEvents(c, before, kind);
      EventsOfLast(before, e, c.claim);
      AddedLast(before, e, KindAmount(c, kind));
      SumOfLast(c.currency, EventsOf(before, c.claim), e, kind);
      assert EventsOf(before, c.claim) + [] == EventsOf(before, c.claim);
      hide EventsOf;
      hide SumOf;
      hide KindOf;
      hide Added;
    }
  }

  lemma {:induction false} AddedSame<T>(rows: seq<T>, f: T -> Money, g: T -> Money)
    requires forall x | x in rows :: f(x) == g(x)
    ensures Added(rows, f) == Added(rows, g)
    decreases |rows|
  {
    if rows != [] { AddedSame(rows[1..], f, g); }
  }

  lemma OwnSums<G>(c: ClaimRow<G>, events: seq<EventRow>)
    ensures SumOf(c.currency, EventsOf(events, c.claim), Same) == Recouped(c, events)
    ensures SumOf(c.currency, EventsOf(events, c.claim), Null) == RecoupedWithout(c, events)
    ensures SumOf(c.currency, EventsOf(events, c.claim), Mismatched) == RecoupedElsewhere(c, events)
  {
    SumOfOwnEvents(c, events, Same);
    SumOfOwnEvents(c, events, Null);
    SumOfOwnEvents(c, events, Mismatched);
    hide SumOf;
    hide EventsOf;
    AddedSame(events, KindAmount(c, Same), (e: EventRow) =>
      if e.claim == c.claim && e.currency.Some? && (c.currency.None? || e.currency == c.currency) then e.amount else 0);
    AddedSame(events, KindAmount(c, Null), (e: EventRow) =>
      if e.claim == c.claim && e.currency.None? then e.amount else 0);
    AddedSame(events, KindAmount(c, Mismatched), (e: EventRow) =>
      if e.claim == c.claim && e.currency.Some? && c.currency.Some? && e.currency != c.currency then e.amount else 0);
  }

  // ---- the figures ---------------------------------------------------------------------------

  /** An amount of the claims filed under one key. */
  ghost function Under<G>(key: Keyed<G>, k: string, amount: ClaimRow<G> -> Money): ClaimRow<G> -> Money {
    (c: ClaimRow<G>) => if key(c.group, c.currency) == k then amount(c) else 0
  }

  /** What is left of the claims of one status. */
  ghost function LeftAs<G>(events: seq<EventRow>, status: ClaimStatus): ClaimRow<G> -> Money {
    (c: ClaimRow<G>) => if c.status == status then c.amount - Recouped(c, events) else 0
  }

  /** Every figure, over the claims filed under `k`. */
  ghost predicate FiguresOf<G>(key: Keyed<G>, k: string, claims: seq<ClaimRow<G>>, events: seq<EventRow>, t: Totals) {
    && t.claimed == Added(claims, Under(key, k, (c: ClaimRow<G>) => c.amount))
    && t.recovered == Added(claims, Under(key, k, (c: ClaimRow<G>) => Recouped(c, events)))
    && t.outstanding == Added(claims, Under(key, k, LeftAs(events, ClaimOpen)))
    && t.writtenOff == Added(claims, Under(key, k, LeftAs(events, WrittenOff)))
    && t.denied == Added(claims, Under(key, k, LeftAs(events, Denied)))
    && t.nullCurrency == Added(claims, Under(key, k, (c: ClaimRow<G>) => RecoupedWithout(c, events)))
    && t.mismatchedCurrency == Added(claims, Under(key, k, (c: ClaimRow<G>) => RecoupedElsewhere(c, events)))
  }

  lemma ClaimFigures<G>(c: ClaimRow<G>, events: seq<EventRow>)
    ensures Contribution(c, EventsOf(events, c.claim))
         == Totals(c.amount, Recouped(c, events), LeftAs(events, ClaimOpen)(c), LeftAs(events, WrittenOff)(c),
                   LeftAs(events, Denied)(c), RecoupedWithout(c, events), RecoupedElsewhere(c, events))
  {
    OwnSums(c, events);
    hide SumOf;
    hide EventsOf;
    hide Recouped;
    hide RecoupedWithout;
    hide RecoupedElsewhere;
  }

  lemma FiguresLast<G>(key: Keyed<G>, k: string, claims: seq<ClaimRow<G>>, c: ClaimRow<G>, events: seq<EventRow>,
                       t: Totals)
    requires FiguresOf(key, k, claims, events, t)
    ensures FiguresOf(key, k, claims + [c], events,
                      if key(c.group, c.currency) == k then Plus(t, Contribution(c, EventsOf(events, c.claim))) else t)
  {
    ClaimFigures(c, events);
    AddedLast(claims, c, Under(key, k, (d: ClaimRow<G>) => d.amount));
    AddedLast(claims, c, Under(key, k, (d: ClaimRow<G>) => Recouped(d, events)));
    AddedLast(claims, c, Under(key, k, LeftAs(events, ClaimOpen)));
    AddedLast(claims, c, Under(key, k, LeftAs(events, WrittenOff)));
    AddedLast(claims, c, Under(key, k, LeftAs(events, Denied)));
    AddedLast(claims, c, Under(key, k, (d: ClaimRow<G>) => RecoupedWithout(d, events)));
    AddedLast(claims, c, Under(key, k, (d: ClaimRow<G>) => RecoupedElsewhere(d, events)));
    hide Added;
    hide Contribution;
    hide EventsOf;
    hide LeftAs;
    hide Recouped;
    hide RecoupedWithout;
    hide RecoupedElsewhere;
  }

  lemma {:induction false} SumClaimsFigures<G>(key: Keyed<G>, k: string, claims: seq<ClaimRow<G>>,
                                               events: seq<EventRow>)
    ensures FiguresOf(key, k, claims, events, SumClaims(claims, events, HasKey(key, k)))
    decreases |claims|
  {
    if claims != [] {
      var before, c := claims[..|claims| - 1], claims[|claims| - 1];
      assert claims == before + [c];
      SumClaimsFigures(key, k, before, events);
      SumClaimsStep(before, c, events, HasKey(key, k));
      FiguresLast(key, k, before, c, events, SumClaims(before, events, HasKey(key, k)));
      hide SumClaims;
      hide FiguresOf;
      hide Contribution;
      hide EventsOf;
    }
  }

  /** A report: one bucket per key, one for the key of every claim, labelled after a claim in it, and each figure the
      sum of what it names over the claims filed there. */
  lemma ReportSays<G>(key: Keyed<G>, claims: seq<ClaimRow<G>>, events: seq<EventRow>)
    ensures var report := Report(key, claims, events);
      && (forall i, j | 0 <= i < j < |report| :: report[i].key != report[j].key)
      && (forall c | c in claims :: exists i :: 0 <= i < |report| && report[i].key == key(c.group, c.currency))
      && forall i | 0 <= i < |report| ::
           && (exists c :: c in claims && c.group == report[i].group && c.currency == report[i].currency
                           && key(c.group, c.currency) == report[i].key)
           && FiguresOf(key, report[i].key, claims, events, report[i].totals)
  {
    ReportFiles(key, claims, events);
    hide Report;
    hide FiguresOf;
    hide SumClaims;
    var report := Report(key, claims, events);
    forall i | 0 <= i < |report|
      ensures exists c :: c in claims && c.group == report[i].group && c.currency == report[i].currency
                          && key(c.group, c.currency) == report[i].key
      ensures FiguresOf(key, report[i].key, claims, events, report[i].totals)
    {
      assert BucketRight(key, claims, events, report[i]);
      SumClaimsFigures(key, report[i].key, claims, events);
      var c :| c in claims && LabelledBy(key, report[i], c);
    }
    forall c | c in claims ensures exists i :: 0 <= i < |report| && report[i].key == key(c.group, c.currency) {
      assert HasBucket(report, KeyOf(key, c));
    }
  }

  // ---- which claims share a bucket -----------------------------------------------------------

  /** Carrier buckets: with proper currencies, two claims share one exactly when they agree in currency and in carrier,
      a missing carrier being filed with one named by a space. */
  lemma CarrierKeysTell(a: Option<string>, b: Option<string>, c: Option<Currency>, d: Option<Currency>)
    requires Proper(c) && Proper(d)
    ensures CarrierKey(a, c) == CarrierKey(b, d)
        <==> c == d && (a == b || (a == None && b == Some(" ")) || (a == Some(" ") && b == None))
  {
    var x, y := if a == None then " " else a.value, if b == None then " " else b.value;
    if CarrierKey(a, c) == CarrierKey(b, d) {
      SuffixTellsCurrency(x + "::", y + "::", c, d);
      assert x + "::" + CurrencyText(c) == y + "::" + CurrencyText(d);
      SamePrefix(x + "::", y + "::", CurrencyText(c));
      SamePrefix(x, y, "::");
    }
  }

  lemma SamePrefix(x: string, y: string, suffix: string)
    requires x + suffix == y + suffix
    ensures x == y
  {
    assert |x + suffix| == |y + suffix|;
    assert x == (x + suffix)[..|x|] && y == (y + suffix)[..|y|];
  }

  /** Account buckets: with proper currencies, exactly when they agree in currency and account id. */
  lemma AccountKeysTell(a: (string, Option<string>), b: (string, Option<string>), c: Option<Currency>,
                        d: Option<Currency>)
    requires Proper(c) && Proper(d)
    ensures AccountKey(a, c) == AccountKey(b, d) <==> c == d && a.0 == b.0
  {
    if AccountKey(a, c) == AccountKey(b, d) {
      SuffixTellsCurrency(a.0 + "::", b.0 + "::", c, d);
      SamePrefix(a.0 + "::", b.0 + "::", CurrencyText(c));
      SamePrefix(a.0, b.0, "::");
    }
  }
}
