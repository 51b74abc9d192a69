/** What replay answers, and what a manifest records. */
module ReplayAnswers {
  import opened CanonicalJson
  import FactBundles
  import opened FactViews
  import InvoiceEvaluation
  import opened Numerals
  import opened Replay
  import opened Sorting
  import opened Sums
  import opened Texts

  // ---- the answer of a replay ----------------------------------------------------------------

  /** Every pinned row is there with the digest it was pinned with; a pin without a digest asks only for the row, and
      for a contract nothing. */
  predicate Pinned(t: Tables, m: Manifest) {
    && (forall pin | pin in m.sources :: pin.id in t.sources && t.sources[pin.id] == pin.sha256)
    && (forall pin | pin in m.rules ::
         pin.id in t.rules && (pin.contentHash.Some? ==> t.rules[pin.id] == pin.contentHash.value))
    && forall pin | pin in m.contracts && pin.contentHash.Some? ::
         pin.id in t.contracts && t.contracts[pin.id].Some? && t.contracts[pin.id].value == pin.contentHash.value
  }

  /** What evaluating the stored inputs again gives, with the contract rubric if a contract is pinned. */
  function Again<A(!new)>(p: Platform<A>, m: Manifest): Value {
    ResultOf(p, m.invoice, if m.contracts == [] then p.standardRubric else p.contractRubric, m.resolvedInputs)
  }

  lemma ComparedAnswer<A(!new)>(p: Platform<A>, m: Manifest)
    requires Faithful(p) && JsonManifest(m)
    ensures Compared(p, m) == if SameUpToKeyOrder(Again(p, m), m.result)
                              then ByteIdentical(Again(p, m), p.sha(Canonical(Again(p, m)))) else IntegrityFailed
  {
    ResultIsJson(p, m.invoice, Selected(p, m), m.resolvedInputs);
    CanonicalTextIsIdentity(Again(p, m), m.result);
    hide Faithful;
    hide ResultOf;
    hide SameUpToKeyOrder;
    hide Canonical;
    hide JsonShaped;
  }

  /** Replay, exactly: not found without a row; an integrity failure if the manifest is invalid, is another run's,
      misses its digest, or has a pin that does not hold; unavailable for another engine or a snapshot; and otherwise
      the result again if it is the stored one up to the order of keys, else an integrity failure. */
  lemma ReplayAnswer<A(!new)>(p: Platform<A>, t: Tables, row: Option<ManifestRow>, auditRunId: Text)
    requires Faithful(p) && (row.Some? && row.value.manifest.Some? ==> JsonManifest(row.value.manifest.value))
    ensures var r := Replayed(p, t, row, auditRunId);
      if row.None? then r == NotFound
      else if row.value.manifest.None? then r == IntegrityFailed
      else
        var m := row.value.manifest.value;
        if m.auditRunId != auditRunId || p.sha(Canonical(ManifestValue(m))) != row.value.contentHash || !Pinned(t, m)
        then r == IntegrityFailed
        else if m.engineVersion != p.engineVersion || m.snapshotId.Some? then r == VersionUnavailable
        else if SameUpToKeyOrder(Again(p, m), m.result)
        then r == ByteIdentical(Again(p, m), p.sha(Canonical(Again(p, m))))
        else r == IntegrityFailed
  {
    if row.Some? && row.value.manifest.Some? {
      ComparedAnswer(p, row.value.manifest.value);
      PinnedMeaning(t, row.value.manifest.value);
    }
    hide Faithful;
    hide JsonManifest;
    hide Compared;
    hide Again;
    hide Pinned;
    hide PinsHold;
    hide SameUpToKeyOrder;
    hide Canonical;
    hide ManifestValue;
  }

  lemma PinnedMeaning(t: Tables, m: Manifest)
    ensures Pinned(t, m) <==> PinsHold(t, m)
  {
  }

  // ---- what is recorded ----------------------------------------------------------------------

  /** The known ids among those asked for, each once, in ascending order. */
  ghost predicate ListsKnown(pins: seq<Pin>, ids: seq<Text>, known: set<Text>) {
    && (forall id :: (exists pin :: pin in pins && pin.id == id) <==> id in ids && id in known)
    && forall i, j | 0 <= i < j < |pins| :: pins[i].id != pins[j].id && TextLeq(pins[i].id, pins[j].id)
  }

  lemma {:induction false} ListedDistinct(ids: seq<Text>, known: set<Text>)
    ensures var rows := Rows(ids, known);
            forall i, j | 0 <= i < j < |rows| :: rows[i] != rows[j] && TextLeq(rows[i], rows[j])
  {
    var listed := Listed(ids, known);
    var rows := SortBy(TextLeq, listed);
    TextLeqIsTotalOrder();
    SortSorts(TextLeq, listed);
    SortKeepsMultiset(TextLeq, listed);
    forall i, j | 0 <= i < j < |rows| ensures rows[i] != rows[j] {
      if rows[i] == rows[j] {
        DistinctTextsAsMultiset(listed, rows[i]);
        TwiceIn(rows, i, j);
      }
    }
    hide SortBy;
    hide TextLeq;
  }

  lemma TwiceIn(s: seq<Text>, i: nat, j: nat)
    requires i < j < |s| && s[i] == s[j]
    ensures multiset(s)[s[i]] >= 2
  {
    assert s == s[..j] + s[j..];
    assert s[i] in s[..j] && s[j] in s[j..];
  }

  /** The manifest of a run: its ids, engine, sources and snapshot as given, the rule and contract rows asked for with
      their digests, and the inputs and the result as they are stored. */
  lemma RecordedSays(t: Tables, run: RunInput)
    ensures var m := Recorded(t, run);
      && m.auditRunId == run.auditRunId && m.clientId == run.clientId && m.engineVersion == run.engineVersion
      && m.sources == run.sources && m.snapshotId == run.snapshotId
      && ListsKnown(m.rules, run.ruleIds, t.rules.Keys)
      && (forall pin | pin in m.rules :: pin.id in t.rules && pin.contentHash == Some(t.rules[pin.id]))
      && ListsKnown(m.contracts, run.contractIds, t.contracts.Keys)
      && (forall pin | pin in m.contracts :: pin.id in t.contracts && pin.contentHash == t.contracts[pin.id])
      && (match run.snapshotId
          case None => m.rubricHash == None && m.resolverVersion == None
          case Some(id) => if id in t.snapshots
                           then m.rubricHash == Some(t.snapshots[id].0) && m.resolverVersion == Some(t.snapshots[id].1)
                           else m.rubricHash == None && m.resolverVersion == None)
      && m.invoice == RoundTrip(run.invoice) && m.result == RoundTrip(run.result)
      && m.resolvedInputs == (if run.facts == Undefined || run.facts == Null then Obj([]) else RoundTrip(run.facts))
  {
    RulesListed(t, run.ruleIds);
    ContractsListed(t, run.contractIds);
    hide RoundTrip;
    hide RulePins;
    hide ContractPins;
    hide ListsKnown;
    hide ReadInvoice;
  }

  lemma RulesListed(t: Tables, ids: seq<Text>)
    ensures ListsKnown(RulePins(t, ids), ids, t.rules.Keys)
    ensures forall pin | pin in RulePins(t, ids) :: pin.id in t.rules && pin.contentHash == Some(t.rules[pin.id])
  {
    var rows, pins := Rows(ids, t.rules.Keys), RulePins(t, ids);
    ListedDistinct(ids, t.rules.Keys);
    hide Rows;
    forall id | id in rows ensures exists pin :: pin in pins && pin.id == id {
      var i :| 0 <= i < |rows| && rows[i] == id;
      assert pins[i] in pins;
    }
    forall pin | pin in pins
      ensures pin.id in rows && pin.id in t.rules && pin.contentHash == Some(t.rules[pin.id])
    {
      var i :| 0 <= i < |pins| && pins[i] == pin;
      assert rows[i] in rows;
    }
  }

  lemma ContractsListed(t: Tables, ids: seq<Text>)
    ensures ListsKnown(ContractPins(t, ids), ids, t.contracts.Keys)
    ensures forall pin | pin in ContractPins(t, ids) :: pin.id in t.contracts && pin.contentHash == t.contracts[pin.id]
  {
    var rows, pins := Rows(ids, t.contracts.Keys), ContractPins(t, ids);
    ListedDistinct(ids, t.contracts.Keys);
    hide Rows;
    forall id | id in rows ensures exists pin :: pin in pins && pin.id == id {
      var i :| 0 <= i < |rows| && rows[i] == id;
      assert pins[i] in pins;
    }
    forall pin | pin in pins
      ensures pin.id in rows && pin.id in t.contracts && pin.contentHash == t.contracts[pin.id]
    {
      var i :| 0 <= i < |pins| && pins[i] == pin;
      assert rows[i] in rows;
    }
  }

  // ---- what the digest binds -----------------------------------------------------------------

  lemma PinTells(p: Pin, q: Pin)
    requires SameUpToKeyOrder(PinValue(p), PinValue(q))
    ensures p == q
  {
    var ms, ns := PinValue(p).members, PinValue(q).members;
    assert |Ascii("id")| == 2 && |Ascii("contentHash")| == 11;
    assert ms[0] in ms && ns[0] in ns && ms[1] in ms && ns[1] in ns;
    hide Ascii;
    assert SameUpToKeyOrder(ms[0].value, ns[0].value);
    assert p.contentHash.Some? <==> ms[1].key in KeySet(ms);
    assert q.contentHash.Some? <==> ns[1].key in KeySet(ns);
  }

  lemma PinsTell(ps: seq<Pin>, qs: seq<Pin>)
    requires SameUpToKeyOrder(PinValues(ps), PinValues(qs))
    ensures ps == qs
  {
    var xs, ys := PinValues(ps).items, PinValues(qs).items;
    forall i | 0 <= i < |ps| ensures ps[i] == qs[i] {
      assert SameUpToKeyOrder(xs[i], ys[i]);
      PinTells(ps[i], qs[i]);
    }
    hide PinValue;
  }

  lemma TwoTextsTell(a: Text, b: Text, x: Text, y: Text, u: Text, v: Text)
    requires a != b && SameUpToKeyOrder(Obj([Member(a, Str(x)), Member(b, Str(y))]),
                                        Obj([Member(a, Str(u)), Member(b, Str(v))]))
    ensures x == u && y == v
  {
    var ms, ns := [Member(a, Str(x)), Member(b, Str(y))], [Member(a, Str(u)), Member(b, Str(v))];
    assert ms[0] in ms && ns[0] in ns && ms[1] in ms && ns[1] in ns;
    assert SameUpToKeyOrder(ms[0].value, ns[0].value) && SameUpToKeyOrder(ms[1].value, ns[1].value);
  }

  lemma SourcesTell(ps: seq<SourcePin>, qs: seq<SourcePin>)
    requires SameUpToKeyOrder(SourceValues(ps), SourceValues(qs))
    ensures ps == qs
  {
    var xs, ys := SourceValues(ps).items, SourceValues(qs).items;
    assert |Ascii("id")| == 2 && |Ascii("sha256")| == 6;
    hide Ascii;
    forall i | 0 <= i < |ps| ensures ps[i] == qs[i] {
      assert SameUpToKeyOrder(xs[i], ys[i]);
      TwoTextsTell(Ascii("id"), Ascii("sha256"), ps[i].id, ps[i].sha256, qs[i].id, qs[i].sha256);
    }
  }

  lemma HeaderTells(m: Manifest, n: Manifest)
    requires SameUpToKeyOrder(ParserValue(m), ParserValue(n)) && SameUpToKeyOrder(RubricValue(m), RubricValue(n))
    ensures m.transactionSet == n.transactionSet && m.parserVersion == n.parserVersion
    ensures m.snapshotId == n.snapshotId && m.rubricHash == n.rubricHash && m.resolverVersion == n.resolverVersion
  {
    assert |Ascii("transactionSet")| == 14 && |Ascii("version")| == 7;
    assert |Ascii("snapshotId")| == 10 && |Ascii("contentHash")| == 11 && |Ascii("resolverVersion")| == 15;
    hide Ascii;
    TwoTextsTell(Ascii("transactionSet"), Ascii("version"), m.transactionSet, m.parserVersion, n.transactionSet,
                 n.parserVersion);
    ThreeTell(Ascii("snapshotId"), Ascii("contentHash"), Ascii("resolverVersion"),
              TextOrNull(m.snapshotId), TextOrNull(m.rubricHash), TextOrNull(m.resolverVersion),
              TextOrNull(n.snapshotId), TextOrNull(n.rubricHash), TextOrNull(n.resolverVersion));
    hide SameUpToKeyOrder;
    TextOrNullTells(m.snapshotId, n.snapshotId);
    TextOrNullTells(m.rubricHash, n.rubricHash);
    TextOrNullTells(m.resolverVersion, n.resolverVersion);
  }

  lemma TextOrNullTells(a: Option<Text>, b: Option<Text>)
    requires SameUpToKeyOrder(TextOrNull(a), TextOrNull(b))
    ensures a == b
  {
  }

  lemma ThreeTell(a: Text, b: Text, c: Text, x: Value, y: Value, z: Value, u: Value, v: Value, w: Value)
    requires x != Undefined && y != Undefined && z != Undefined && u != Undefined && v != Undefined && w != Undefined
    requires SameUpToKeyOrder(Obj([Member(a, x), Member(b, y), Member(c, z)]),
                              Obj([Member(a, u), Member(b, v), Member(c, w)]))
    ensures SameUpToKeyOrder(x, u) && SameUpToKeyOrder(y, v) && SameUpToKeyOrder(z, w)
  {
    var ms, ns := [Member(a, x), Member(b, y), Member(c, z)], [Member(a, u), Member(b, v), Member(c, w)];
    hide SameUpToKeyOrder;
    MemberTells(ms, ns, 0);
    MemberTells(ms, ns, 1);
    MemberTells(ms, ns, 2);
  }

  lemma MemberTells(ms: seq<Member>, ns: seq<Member>, i: nat)
    requires SameUpToKeyOrder(Obj(ms), Obj(ns)) && i < |ms| && i < |ns| && ms[i].key == ns[i].key
    requires ms[i].value != Undefined && ns[i].value != Undefined
    ensures SameUpToKeyOrder(ms[i].value, ns[i].value)
  {
    assert ms[i] in ms && ns[i] in ns;
  }

  /** With an injective digest, two manifests have one digest exactly when they are the same, every field of them, up to
      the order of keys in what they store as JSON. */
  lemma DigestIsIdentity(sha: Text -> Text, m: Manifest, n: Manifest)
    requires Injective(sha) && JsonManifest(m) && JsonManifest(n)
    ensures ManifestHash(sha, m) == ManifestHash(sha, n) <==> SameManifest(m, n)
  {
    if SameManifest(m, n) { SameManifestSameHash(sha, m, n); }
    if ManifestHash(sha, m) == ManifestHash(sha, n) {
      ManifestIsJson(m);
      ManifestIsJson(n);
      CanonicalTextIsIdentity(ManifestValue(m), ManifestValue(n));
      PartsAgree(m, n);
      hide SameUpToKeyOrder;
      EveryPartTells(m, n);
    }
  }

  lemma EveryPartTells(m: Manifest, n: Manifest)
    requires forall i | 0 <= i < |MEMBER_NAMES| :: SameUpToKeyOrder(PartsOfManifest(m)[i], PartsOfManifest(n)[i])
    ensures SameManifest(m, n)
  {
    PartsTell(m, n);
    var xs, ys := PartsOfManifest(m), PartsOfManifest(n);
    assert |MEMBER_NAMES| == 15;
    assert SameUpToKeyOrder(xs[4], ys[4]) && SameUpToKeyOrder(xs[5], ys[5]) && SameUpToKeyOrder(xs[6], ys[6]);
    assert SameUpToKeyOrder(xs[7], ys[7]) && SameUpToKeyOrder(xs[8], ys[8]);
    hide SameUpToKeyOrder;
    HeaderTells(m, n);
    SourcesTell(m.sources, n.sources);
    PinsTell(m.rules, n.rules);
    PinsTell(m.contracts, n.contracts);
    hide PartsOfManifest;
    hide ParserValue;
    hide RubricValue;
    hide PinValues;
    hide SourceValues;
  }

  /** The evaluated result names the parser of the invoice, the installed engine and the rubric it was given, and
      carries the coverage markers of the charges. */
  lemma ResultSays<A(!new)>(p: Platform<A>, invoice: Value, rubric: seq<InvoiceEvaluation.Criterion<A>>, facts: Value)
    returns (r: InvoiceEvaluation.AuditResult<MarkerList>)
    ensures ResultOf(p, invoice, rubric, facts) == p.encode(r)
    ensures var inv := ReadInvoice(invoice);
      && r.pins == InvoiceEvaluation.Pins(inv.parserVersion, p.engineVersion, p.engine.rubricHash(rubric))
      && r.markers == FactBundles.Markers(p.arithmetic, inv.charges)
      && r == InvoiceEvaluation.Evaluated(p.engine, rubric,
                                          FactBundles.Facts(p.arithmetic, inv, ReadContract(p.engine.keyOrder, facts)),
                                          r.markers, r.pins.parserVersion, r.pins.engineVersion)
  {
    var inv := ReadInvoice(invoice);
    r := InvoiceEvaluation.Evaluated(p.engine, rubric,
                                     FactBundles.Facts(p.arithmetic, inv, ReadContract(p.engine.keyOrder, facts)),
                                     FactBundles.Markers(p.arithmetic, inv.charges), inv.parserVersion,
                                     p.engineVersion);
  }
}
