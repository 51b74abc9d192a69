/** Storing what a run was made of, and replaying it. */
module Replay {
  import opened CanonicalJson
  import opened FactBundles
  import opened FactViews
  import opened InvoiceEvaluation
  import opened Numerals
  import opened Sorting
  import opened Sums
  import opened Texts

  // The manifest of src/modules/evaluator/persist.ts and src/modules/audit-ledger/replay-manifest.ts, and
  // src/modules/audit-ledger/replay-audit-run.ts.

  type MarkerList = seq<CoverageMarker>

  /** What is installed: the interpreter and its rubrics, decimal arithmetic, results as JSON, SHA-256, and what a
      `jsonb` column gives back for a value. */
  datatype Platform<!A> = Platform(engine: Engine<A, Bundle>, arithmetic: Arithmetic,
                                   encode: AuditResult<MarkerList> -> Value, engineVersion: Text,
                                   standardRubric: seq<Criterion<A>>, contractRubric: seq<Criterion<A>>,
                                       sha: Text -> Text, jsonb: Value -> Value)

  /** Results are JSON, and `jsonb` keeps a value up to the order of keys. */
  ghost predicate Faithful<A(!new)>(p: Platform<A>) {
    && TotalOrder(p.engine.keyOrder)
    && (forall r :: JsonShaped(p.encode(r)))
    && forall v {:trigger p.jsonb(v)} | JsonShaped(v) :: JsonShaped(p.jsonb(v)) && SameUpToKeyOrder(v, p.jsonb(v))
  }

  datatype SourcePin = SourcePin(id: Text, sha256: Text)

  datatype Pin = Pin(id: Text, contentHash: Option<Text>)

  datatype Manifest = Manifest(auditRunId: Text, clientId: Text, engineVersion: Text, transactionSet: Text,
                               parserVersion: Text,
                               sources: seq<SourcePin>, snapshotId: Option<Text>, rubricHash: Option<Text>,
                                   resolverVersion: Option<Text>,
                               rules: seq<Pin>, contracts: seq<Pin>, resolvedInputs: Value, invoice: Value,
                                   result: Value)

  /** Source documents, rules and contracts (the digest of its document, if it has one) with their digests; rubric
      snapshots. */
  datatype Tables = Tables(sources: map<Text, Text>, rules: map<Text, Text>, contracts: map<Text, Option<Text>>,
                           snapshots: map<Text, (Text, Text)>)

  // ---- evaluation over JSON ------------------------------------------------------------------

  function ResultOf<A(!new)>(p: Platform<A>, invoice: Value, rubric: seq<Criterion<A>>, facts: Value): Value {
    var inv := ReadInvoice(invoice);
    p.encode(Evaluated(p.engine, rubric, Facts(p.arithmetic, inv, ReadContract(p.engine.keyOrder, facts)),
                       FactBundles.Markers(p.arithmetic, inv.charges), inv.parserVersion, p.engineVersion))
  }

  lemma ResultIsJson<A(!new)>(p: Platform<A>, invoice: Value, rubric: seq<Criterion<A>>, facts: Value)
    requires Faithful(p)
    ensures JsonShaped(ResultOf(p, invoice, rubric, facts))
  {
  }

  method Evaluate<A(!new)>(p: Platform<A>, invoice: Value, rubric: seq<Criterion<A>>, facts: Value)
    returns (result: Value)
    ensures result == ResultOf(p, invoice, rubric, facts)
  {
    var inv := ReadInvoice(invoice);
    var bundle := BuildFactBundle(p.arithmetic, inv, ReadContract(p.engine.keyOrder, facts));
    var markers := FindCoverageMarkers(p.arithmetic, inv.charges);
    var r := EvaluateInvoice(p.engine, rubric, bundle, markers, inv.parserVersion, p.engineVersion);
    result := p.encode(r);
  }

  /** Evaluation sees a JSON value up to key order, and missing facts as none. */
  lemma EvaluationSees<A(!new)>(p: Platform<A>, a: Value, b: Value, rubric: seq<Criterion<A>>, f: Value, g: Value)
    requires Faithful(p) && Readable(a) && Readable(b) && SameUpToKeyOrder(a, b)
    requires Readable(f) && Readable(g) && SameUpToKeyOrder(f, g)
    ensures ResultOf(p, a, rubric, f) == ResultOf(p, b, rubric, g)
  {
    hide SameUpToKeyOrder;
    hide Readable;
    InvoiceSame(a, b);
    ContractSame(p.engine.keyOrder, f, g);
    hide ReadInvoice;
    hide ReadContract;
    hide Evaluated;
    hide Facts;
  }

  // ---- the manifest and its digest -----------------------------------------------------------

  function TextOrNull(t: Option<Text>): Value { if t.Some? then Str(t.value) else Null }

  function PinValue(p: Pin): Value {
    Obj([Member(Ascii("id"), Str(p.id)),
         Member(Ascii("contentHash"), if p.contentHash.Some? then Str(p.contentHash.value) else Undefined)])
  }

  function PinValues(pins: seq<Pin>): Value { Arr(seq(|pins|, i requires 0 <= i < |pins| => PinValue(pins[i]))) }

  function SourceValues(pins: seq<SourcePin>): Value {
    Arr(seq(|pins|, i requires 0
        <= i < |pins| => Obj([Member(Ascii("id"), Str(pins[i].id)), Member(Ascii("sha256"), Str(pins[i].sha256))])))
  }

  function ParserValue(m: Manifest): Value {
    Obj([Member(Ascii("transactionSet"), Str(m.transactionSet)), Member(Ascii("version"), Str(m.parserVersion))])
  }

  function RubricValue(m: Manifest): Value {
    Obj([Member(Ascii("snapshotId"), TextOrNull(m.snapshotId)), Member(Ascii("contentHash"), TextOrNull(m.rubricHash)),
         Member(Ascii("resolverVersion"), TextOrNull(m.resolverVersion))])
  }

  /** The values of the manifest's members, in the order the members are declared. */
  function PartsOfManifest(m: Manifest): (r: seq<Value>)
    ensures |r| == |MEMBER_NAMES|
  {
    [Num(Decimal(false, [49], 1)), Str(m.auditRunId), Str(m.clientId), Str(m.engineVersion),
     ParserValue(m), SourceValues(m.sources), RubricValue(m), PinValues(m.rules), PinValues(m.contracts), Arr([]),
         Arr([]), Arr([]), m.resolvedInputs, m.invoice, m.result]
  }

  const MEMBER_NAMES: seq<string> := ["schemaVersion", "auditRunId", "clientId", "engineSpecVersion", "parser",
                                      "sourceDocuments", "rubric",
    "ruleVersions", "contractVersions", "externalValues", "crosswalkRows", "ai", "resolvedInputs", "invoice", "result"]

  function ManifestValue(m: Manifest): Value { Obj(Named(MEMBER_NAMES, PartsOfManifest(m))) }

  function Named(names: seq<string>, values: seq<Value>): seq<Member>
    requires |names| == |values|
  {
    seq(|names|, i requires 0 <= i < |names| => Member(Ascii(names[i]), values[i]))
  }

  function ManifestHash(sha: Text -> Text, m: Manifest): Text { sha(Canonical(ManifestValue(m))) }

  /** The same header, and JSON parts that are the same up to key order. */
  ghost predicate SameManifest(m: Manifest, n: Manifest) {
    && n == m.(resolvedInputs := n.resolvedInputs, invoice := n.invoice, result := n.result)
    && SameUpToKeyOrder(m.resolvedInputs, n.resolvedInputs) && SameUpToKeyOrder(m.invoice, n.invoice)
        && SameUpToKeyOrder(m.result, n.result)
  }

  predicate JsonManifest(m: Manifest) { JsonShaped(m.resolvedInputs) && JsonShaped(m.invoice) && JsonShaped(m.result) }

  lemma NamesAreDistinct()
    ensures forall i, j | 0 <= i < j < |MEMBER_NAMES| :: Ascii(MEMBER_NAMES[i]) != Ascii(MEMBER_NAMES[j])
  {
    forall i, j | 0 <= i < j < |MEMBER_NAMES| ensures Ascii(MEMBER_NAMES[i]) != Ascii(MEMBER_NAMES[j]) {
      var a, b := Ascii(MEMBER_NAMES[i]), Ascii(MEMBER_NAMES[j]);
      assert |a| != |b| || a[0] != b[0] || a[1] != b[1];
    }
  }

  lemma PinsAreJson(pins: seq<Pin>)
    ensures JsonShaped(PinValues(pins))
  {
    assert |Ascii("id")| != |Ascii("contentHash")|;
    forall p: Pin ensures JsonShaped(PinValue(p)) {}
    forall v | v in PinValues(pins).items ensures JsonShaped(v) {
      var i :| 0 <= i < |pins| && PinValues(pins).items[i] == v;
      assert v == PinValue(pins[i]);
    }
    hide PinValue;
  }

  lemma SourcesAreJson(pins: seq<SourcePin>)
    ensures JsonShaped(SourceValues(pins))
  {
    assert |Ascii("id")| != |Ascii("sha256")|;
    forall v | v in SourceValues(pins).items ensures JsonShaped(v) {}
  }

  lemma HeaderIsJson(m: Manifest)
    ensures JsonShaped(ParserValue(m)) && JsonShaped(RubricValue(m))
  {
    assert |Ascii("transactionSet")| != |Ascii("version")|;
    assert |Ascii("snapshotId")| == 10 && |Ascii("contentHash")| == 11 && |Ascii("resolverVersion")| == 15;
  }

  lemma PartsAreJson(m: Manifest)
    requires JsonManifest(m)
    ensures forall v | v in PartsOfManifest(m) :: JsonShaped(v)
  {
    PinsAreJson(m.rules);
    PinsAreJson(m.contracts);
    SourcesAreJson(m.sources);
    HeaderIsJson(m);
    assert JsonShaped(Arr([]));
    hide PinValues;
    hide SourceValues;
    hide ParserValue;
    hide RubricValue;
  }

  lemma ManifestIsJson(m: Manifest)
    requires JsonManifest(m)
    ensures JsonShaped(ManifestValue(m))
  {
    NamesAreDistinct();
    PartsAreJson(m);
    var values := PartsOfManifest(m);
    hide PartsOfManifest;
    var ms := Named(MEMBER_NAMES, values);
    forall x | x in ms ensures JsonShaped(x.value) {
      var i :| 0 <= i < |ms| && ms[i] == x;
      assert values[i] in values;
    }
  }

  /** Lists with the same distinct names and the same values are the same object. */
  lemma SameNamedValues(names: seq<string>, xs: seq<Value>, ys: seq<Value>)
    requires |names| == |xs| == |ys|
    requires forall i, j | 0 <= i < j < |names| :: Ascii(names[i]) != Ascii(names[j])
    requires forall i | 0 <= i < |xs| :: xs[i] != Undefined && ys[i] != Undefined && SameUpToKeyOrder(xs[i], ys[i])
    ensures SameUpToKeyOrder(Obj(Named(names, xs)), Obj(Named(names, ys)))
  {
    var ms, ns := Named(names, xs), Named(names, ys);
    hide Ascii;
    forall k ensures k in KeySet(ms) <==> k in KeySet(ns) {
      if k in KeySet(ms) { var i :| 0 <= i < |ms| && ms[i].key == k; assert ns[i] in ns; }
      if k in KeySet(ns) { var i :| 0 <= i < |ns| && ns[i].key == k; assert ms[i] in ms; }
    }
    forall m, n | m in ms && n in ns && m.key == n.key ensures SameUpToKeyOrder(m.value, n.value) {
      var i :| 0 <= i < |ms| && ms[i] == m;
      var j :| 0 <= j < |ns| && ns[j] == n;
      assert i == j;
    }
  }

  lemma NamedValuesSame(names: seq<string>, xs: seq<Value>, ys: seq<Value>)
    requires |names| == |xs| == |ys| && forall i | 0 <= i < |xs| :: xs[i] != Undefined && ys[i] != Undefined
    requires SameUpToKeyOrder(Obj(Named(names, xs)), Obj(Named(names, ys)))
    ensures forall i | 0 <= i < |xs| :: SameUpToKeyOrder(xs[i], ys[i])
  {
    hide Ascii;
    var ms, ns := Named(names, xs), Named(names, ys);
    forall i | 0 <= i < |xs| ensures SameUpToKeyOrder(xs[i], ys[i]) { assert ms[i] in ms && ns[i] in ns; }
  }

  /** Reading a manifest back with reordered keys keeps its digest. */
  lemma SameManifestSameHash(sha: Text -> Text, m: Manifest, n: Manifest)
    requires JsonManifest(m) && JsonManifest(n) && SameManifest(m, n)
    ensures ManifestHash(sha, m) == ManifestHash(sha, n)
  {
    ManifestIsJson(m);
    ManifestIsJson(n);
    NamesAreDistinct();
    PartsAreJson(m);
    PartsAreJson(n);
    var xs, ys := PartsOfManifest(m), PartsOfManifest(n);
    forall i | 0 <= i < |xs| ensures xs[i] != Undefined && ys[i] != Undefined && SameUpToKeyOrder(xs[i], ys[i]) {
      assert xs[i] in xs && ys[i] in ys;
      if i < 12 { SameAsItself(xs[i]); }
    }
    hide PartsOfManifest;
    hide Ascii;
    SameNamedValues(MEMBER_NAMES, xs, ys);
    SameValueSameText(ManifestValue(m), ManifestValue(n));
  }

  ghost predicate Injective(sha: Text -> Text) { forall x, y :: sha(x) == sha(y) ==> x == y }

  lemma PartsAgree(m: Manifest, n: Manifest)
    requires JsonManifest(m) && JsonManifest(n) && SameUpToKeyOrder(ManifestValue(m), ManifestValue(n))
    ensures forall i | 0 <= i < |MEMBER_NAMES| :: SameUpToKeyOrder(PartsOfManifest(m)[i], PartsOfManifest(n)[i])
  {
    hide SameUpToKeyOrder;
    PartsAreJson(m);
    PartsAreJson(n);
    var xs, ys := PartsOfManifest(m), PartsOfManifest(n);
    hide PartsOfManifest;
    forall i | 0 <= i < |xs| ensures xs[i] != Undefined && ys[i] != Undefined { assert xs[i] in xs && ys[i] in ys; }
    NamedValuesSame(MEMBER_NAMES, xs, ys);
  }

  lemma PartsTell(m: Manifest, n: Manifest)
    requires forall i | 0 <= i < |MEMBER_NAMES| :: SameUpToKeyOrder(PartsOfManifest(m)[i], PartsOfManifest(n)[i])
    ensures SameUpToKeyOrder(m.resolvedInputs, n.resolvedInputs) && SameUpToKeyOrder(m.invoice, n.invoice)
        && SameUpToKeyOrder(m.result, n.result)
    ensures m.auditRunId == n.auditRunId && m.clientId == n.clientId && m.engineVersion == n.engineVersion
  {
    var xs, ys := PartsOfManifest(m), PartsOfManifest(n);
    assert |MEMBER_NAMES| == 15;
    assert SameUpToKeyOrder(xs[12], ys[12]) && SameUpToKeyOrder(xs[13], ys[13]) && SameUpToKeyOrder(xs[14], ys[14]);
    assert SameUpToKeyOrder(xs[1], ys[1]) && SameUpToKeyOrder(xs[2], ys[2]) && SameUpToKeyOrder(xs[3], ys[3]);
    hide ParserValue;
    hide RubricValue;
    hide PinValues;
    hide SourceValues;
  }

  /** A manifest that meets the recorded digest says what the recorded one said. */
  lemma DigestBindsManifest(sha: Text -> Text, m: Manifest, n: Manifest)
    requires Injective(sha) && JsonManifest(m) && JsonManifest(n) && ManifestHash(sha, m) == ManifestHash(sha, n)
    ensures SameUpToKeyOrder(m.resolvedInputs, n.resolvedInputs) && SameUpToKeyOrder(m.invoice, n.invoice)
        && SameUpToKeyOrder(m.result, n.result)
    ensures m.auditRunId == n.auditRunId && m.clientId == n.clientId && m.engineVersion == n.engineVersion
  {
    hide SameUpToKeyOrder;
    ManifestIsJson(m);
    ManifestIsJson(n);
    CanonicalTextIsIdentity(ManifestValue(m), ManifestValue(n));
    PartsAgree(m, n);
    PartsTell(m, n);
  }

  // ---- what a run records --------------------------------------------------------------------

  datatype RunInput = RunInput(auditRunId: Text, clientId: Text, invoice: Value, facts: Value, result: Value,
                               engineVersion: Text,
                               snapshotId: Option<Text>, sources: seq<SourcePin>, contractIds: seq<Text>,
                                   ruleIds: seq<Text>)

  /** The known ids among those asked for, once each. */
  function Listed(ids: seq<Text>, known: set<Text>): (r: seq<Text>)
    ensures forall id :: id in r <==> id in ids && id in known
    ensures forall i, j | 0 <= i < j < |r| :: r[i] != r[j]
    decreases |ids|
  {
    if ids == [] then []
    else
      assert ids == [ids[0]] + ids[1..];
      if ids[0] in known then [ids[0]] + Listed(ids[1..], known - {ids[0]}) else Listed(ids[1..], known)
  }

  /** `SELECT ... WHERE id = ANY(ids) ORDER BY id`. */
  function Rows(ids: seq<Text>, known: set<Text>): (r: seq<Text>)
    ensures forall id :: id in r <==> id in ids && id in known
  {
    SortKeepsMembers(TextLeq, Listed(ids, known));
    SortBy(TextLeq, Listed(ids, known))
  }

  function RulePins(t: Tables, ids: seq<Text>): seq<Pin> {
    var rows := Rows(ids, t.rules.Keys);
    seq(|rows|, i requires 0 <= i < |rows| => assert rows[i] in rows; Pin(rows[i], Some(t.rules[rows[i]])))
  }

  function ContractPins(t: Tables, ids: seq<Text>): seq<Pin> {
    var rows := Rows(ids, t.contracts.Keys);
    seq(|rows|, i requires 0 <= i < |rows| => assert rows[i] in rows; Pin(rows[i], t.contracts[rows[i]]))
  }

  /** `resolvedInputs ?? {}`, round-tripped. */
  function StoredInputs(facts: Value): Value {
    if facts == Undefined || facts == Null then Obj([]) else RoundTrip(facts)
  }

  function Recorded(t: Tables, run: RunInput): Manifest {
    var inv := ReadInvoice(run.invoice);
    var rubric := if run.snapshotId.Some? && run.snapshotId.value in t.snapshots
        then Some(t.snapshots[run.snapshotId.value]) else None;
    Manifest(run.auditRunId, run.clientId, run.engineVersion, inv.transactionSet, inv.parserVersion, run.sources,
             run.snapshotId, if rubric.Some? then Some(rubric.value.0) else None,
                 if rubric.Some? then Some(rubric.value.1) else None,
             RulePins(t, run.ruleIds), ContractPins(t, run.contractIds),
             StoredInputs(run.facts), RoundTrip(run.invoice), RoundTrip(run.result))
  }

  /** The manifest column read back: `jsonb` may reorder the keys of its JSON parts. */
  function ReadBack(jsonb: Value -> Value, m: Manifest): Manifest {
    m.(resolvedInputs := jsonb(m.resolvedInputs), invoice := jsonb(m.invoice), result := jsonb(m.result))
  }

  /** A row of `audit_replay_manifest`; a manifest that does not meet its schema is `None`. */
  datatype ManifestRow = ManifestRow(contentHash: Text, manifest: Option<Manifest>)

  // ---- replay --------------------------------------------------------------------------------

  predicate PinsHold(t: Tables, m: Manifest) {
    && (forall pin | pin in m.sources :: SourceHolds(t, pin))
    && (forall pin | pin in m.rules :: RuleHolds(t, pin))
    && (forall pin | pin in m.contracts :: ContractHolds(t, pin))
  }

  predicate SourceHolds(t: Tables, pin: SourcePin) { pin.id in t.sources && t.sources[pin.id] == pin.sha256 }

  predicate RuleHolds(t: Tables, pin: Pin) {
    pin.id in t.rules && (pin.contentHash.None? || t.rules[pin.id] == pin.contentHash.value)
  }

  /** A contract pinned without a digest is not checked. */
  predicate ContractHolds(t: Tables, pin: Pin) {
    pin.contentHash.None? || (pin.id in t.contracts && t.contracts[pin.id] == pin.contentHash)
  }

  datatype Outcome = NotFound | IntegrityFailed | VersionUnavailable | ByteIdentical(result: Value, resultHash: Text)
      | EventConflict

  function Selected<A(!new)>(p: Platform<A>, m: Manifest): seq<Criterion<A>> {
    if m.contracts != [] then p.contractRubric else p.standardRubric
  }

  /** Evaluating again and comparing canonical bytes. */
  function Compared<A(!new)>(p: Platform<A>, m: Manifest): Outcome {
    var result := ResultOf(p, m.invoice, Selected(p, m), m.resolvedInputs);
    if Canonical(result) == Canonical(m.result) then ByteIdentical(result, p.sha(Canonical(result)))
        else IntegrityFailed
  }

  function Replayed<A(!new)>(p: Platform<A>, t: Tables, row: Option<ManifestRow>, auditRunId: Text): Outcome {
    if row.None? then NotFound
    else if row.value.manifest.None? then IntegrityFailed
    else
      var m := row.value.manifest.value;
      if m.auditRunId != auditRunId || ManifestHash(p.sha, m) != row.value.contentHash || !PinsHold(t, m)
          then IntegrityFailed
      else if m.engineVersion != p.engineVersion || m.snapshotId.Some? then VersionUnavailable
      else Compared(p, m)
  }

  /** A row that passes every check before evaluation. */
  predicate Replayable<A(!new)>(p: Platform<A>, t: Tables, row: ManifestRow) {
    && row.manifest.Some?
    && var m := row.manifest.value;
       ManifestHash(p.sha, m) == row.contentHash && PinsHold(t, m) && m.engineVersion == p.engineVersion
           && m.snapshotId.None?
  }

  lemma ReplayableIsCompared<A(!new)>(p: Platform<A>, t: Tables, row: ManifestRow)
    requires Replayable(p, t, row)
    ensures Replayed(p, t, Some(row), row.manifest.value.auditRunId) == Compared(p, row.manifest.value)
  {
    hide ManifestHash;
    hide PinsHold;
    hide Compared;
  }

  lemma ComparisonMeaning<A(!new)>(p: Platform<A>, m: Manifest, result: Value)
    requires result == ResultOf(p, m.invoice, Selected(p, m), m.resolvedInputs) && JsonShaped(result)
        && JsonShaped(m.result)
    ensures Compared(p, m).ByteIdentical? <==> SameUpToKeyOrder(result, m.result)
  {
    hide SameUpToKeyOrder;
    hide ResultOf;
    CanonicalTextIsIdentity(result, m.result);
    hide Canonical;
    hide JsonShaped;
  }

  /** Once a row has passed its checks, replay succeeds exactly when evaluating the stored inputs gives the stored
      result up to key order. */
  lemma ReplayDecidesEquality<A(!new)>(p: Platform<A>, t: Tables, row: ManifestRow)
    requires Faithful(p) && Replayable(p, t, row) && JsonManifest(row.manifest.value)
    ensures var m := row.manifest.value;
            Replayed(p, t, Some(row), m.auditRunId).ByteIdentical?
            <==> SameUpToKeyOrder(ResultOf(p, m.invoice, Selected(p, m), m.resolvedInputs), m.result)
  {
    hide SameUpToKeyOrder;
    hide Compared;
    var m := row.manifest.value;
    ReplayableIsCompared(p, t, row);
    hide Replayed;
    hide Replayable;
    var result := ResultOf(p, m.invoice, Selected(p, m), m.resolvedInputs);
    assert JsonShaped(result);
    ComparisonMeaning(p, m, result);
  }

  /** Rows are never changed once written. */
  predicate Extends(before: Tables, after: Tables) {
    && (forall id | id in before.rules :: id in after.rules && after.rules[id] == before.rules[id])
    && (forall id | id in before.contracts :: id in after.contracts && after.contracts[id] == before.contracts[id])
  }

  /** Rules and contracts are pinned as they are, so that their pins hold as long as rows are only added. */
  lemma RecordedPinsHold(before: Tables, after: Tables, run: RunInput)
    requires Extends(before, after)
    ensures var m := Recorded(before, run);
            (forall pin | pin in m.rules :: RuleHolds(after, pin))
                && (forall pin | pin in m.contracts :: ContractHolds(after, pin))
  {
  }

  predicate EvaluatedHere<A(!new)>(p: Platform<A>, before: Tables, run: RunInput) {
    && run.engineVersion == p.engineVersion && run.snapshotId.None?
    && run.result == ResultOf(p, run.invoice, Selected(p, Recorded(before, run)), run.facts)
  }

  /** What is read back is JSON, and the same as what was recorded. */
  lemma RecordedIsSame<A(!new)>(p: Platform<A>, before: Tables, run: RunInput)
    requires Faithful(p) && JsonShaped(run.invoice) && Readable(run.facts) && JsonShaped(run.result)
    ensures var m := Recorded(before, run);
            JsonManifest(m) && JsonManifest(ReadBack(p.jsonb, m)) && SameManifest(m, ReadBack(p.jsonb, m))
  {
    hide Faithful;
    hide SameUpToKeyOrder;
    hide JsonShaped;
    hide RoundTrip;
    hide StoredInputs;
    RoundTripSame(run.invoice);
    RoundTripSame(run.result);
    StoredInputsSame(run.facts);
    ReadBackSame(p, RoundTrip(run.invoice));
    ReadBackSame(p, RoundTrip(run.result));
    ReadBackSame(p, StoredInputs(run.facts));
  }

  lemma ReadBackSame<A(!new)>(p: Platform<A>, v: Value)
    requires Faithful(p) && JsonShaped(v)
    ensures JsonShaped(p.jsonb(v)) && SameUpToKeyOrder(v, p.jsonb(v))
  {
    hide JsonShaped;
    hide SameUpToKeyOrder;
  }

  lemma {:induction false} SameChains(a: Value, b: Value, c: Value)
    requires JsonShaped(a) && JsonShaped(b) && JsonShaped(c) && SameUpToKeyOrder(a, b) && SameUpToKeyOrder(b, c)
    ensures SameUpToKeyOrder(a, c)
  {
    CanonicalTextIsIdentity(a, b);
    CanonicalTextIsIdentity(b, c);
    CanonicalTextIsIdentity(a, c);
  }

  /** The facts as evaluation takes them. */
  function Present(facts: Value): Value { if facts == Undefined || facts == Null then Obj([]) else facts }

  lemma MissingFactsSeen(keyOrder: (Text, Text) -> bool, facts: Value)
    ensures ReadContract(keyOrder, facts) == ReadContract(keyOrder, Present(facts))
  {
    if facts == Undefined || facts == Null { MissingFactsAreNone(keyOrder, facts); }
  }

  lemma StoredInputsSame(facts: Value)
    requires Readable(facts)
    ensures JsonShaped(Present(facts)) && JsonShaped(StoredInputs(facts))
        && SameUpToKeyOrder(Present(facts), StoredInputs(facts))
  {
    if facts != Undefined && facts != Null { RoundTripSame(facts); }
  }

  /** Dropping undefined members of the invoice and the facts, or writing `{}` for missing facts, changes neither the
      fact bundle nor the result. */
  lemma NormalisedInputsEvaluateAlike<A(!new)>(p: Platform<A>, invoice: Value, rubric: seq<Criterion<A>>, facts: Value)
    requires Faithful(p) && JsonShaped(invoice) && Readable(facts)
    ensures var keyOrder := p.engine.keyOrder;
            Facts(p.arithmetic, ReadInvoice(RoundTrip(invoice)), ReadContract(keyOrder, StoredInputs(facts)))
            == Facts(p.arithmetic, ReadInvoice(invoice), ReadContract(keyOrder, facts))
    ensures ResultOf(p, RoundTrip(invoice), rubric, StoredInputs(facts)) == ResultOf(p, invoice, rubric, facts)
  {
    ReadsAlike(p.engine.keyOrder, invoice, facts);
    hide *;
    SameViewsSameResult(p, invoice, RoundTrip(invoice), rubric, facts, StoredInputs(facts));
  }

  lemma ReadsAlike(keyOrder: (Text, Text) -> bool, invoice: Value, facts: Value)
    requires TotalOrder(keyOrder) && JsonShaped(invoice) && Readable(facts)
    ensures ReadInvoice(RoundTrip(invoice)) == ReadInvoice(invoice)
        && ReadContract(keyOrder, StoredInputs(facts)) == ReadContract(keyOrder, facts)
  {
    hide SameUpToKeyOrder;
    hide StoredInputs;
    hide ReadInvoice;
    hide ReadContract;
    hide RoundTrip;
    hide Present;
    hide JsonShaped;
    RoundTripSame(invoice);
    StoredInputsSame(facts);
    MissingFactsSeen(keyOrder, facts);
    InvoiceSame(invoice, RoundTrip(invoice));
    ContractSame(keyOrder, Present(facts), StoredInputs(facts));
  }

  lemma SameViewsSameResult<A(!new)>(p: Platform<A>, a: Value, b: Value, rubric: seq<Criterion<A>>, f: Value, g: Value)
    requires ReadInvoice(a) == ReadInvoice(b)
        && ReadContract(p.engine.keyOrder, f) == ReadContract(p.engine.keyOrder, g)
    ensures ResultOf(p, a, rubric, f) == ResultOf(p, b, rubric, g)
  {
    hide ReadInvoice;
    hide ReadContract;
    hide Facts;
    hide Evaluated;
  }

  /** Evaluating what was read back gives the recorded result, and that is what was stored. */
  lemma ReplaySees<A(!new)>(p: Platform<A>, before: Tables, run: RunInput)
    requires Faithful(p) && JsonShaped(run.invoice) && Readable(run.facts) && EvaluatedHere(p, before, run)
    ensures var n := ReadBack(p.jsonb, Recorded(before, run));
            ResultOf(p, n.invoice, Selected(p, n), n.resolvedInputs) == run.result
                && Canonical(run.result) == Canonical(n.result)
  {
    var m := Recorded(before, run);
    var n := ReadBack(p.jsonb, m);
    var rubric := Selected(p, m);
    assert JsonShaped(run.result);
    NormalisedInputsEvaluateAlike(p, run.invoice, rubric, run.facts);
    RecordedIsSame(p, before, run);
    RoundTripSame(run.result);
    SameChains(run.result, m.result, n.result);
    SameValueSameText(run.result, n.result);
    hide SameUpToKeyOrder;
    hide RoundTrip;
    hide StoredInputs;
    hide ResultOf;
    hide JsonShaped;
    EvaluationSees(p, m.invoice, n.invoice, rubric, m.resolvedInputs, n.resolvedInputs);
  }

  lemma RecordedIsReplayable<A(!new)>(p: Platform<A>, before: Tables, after: Tables, run: RunInput)
    requires Faithful(p) && JsonShaped(run.invoice) && Readable(run.facts) && JsonShaped(run.result)
    requires run.engineVersion == p.engineVersion && run.snapshotId.None? && Extends(before, after)
        && forall pin | pin in run.sources :: SourceHolds(after, pin)
    ensures var m := Recorded(before, run); Replayable(p, after,
                                                       ManifestRow(ManifestHash(p.sha, m), Some(ReadBack(p.jsonb, m))))
  {
    hide SameUpToKeyOrder;
    hide JsonShaped;
    hide Faithful;
    hide ManifestHash;
    var m := Recorded(before, run);
    RecordedIsSame(p, before, run);
    SameManifestSameHash(p.sha, m, ReadBack(p.jsonb, m));
    RecordedPinsHold(before, after, run);
    hide SourceHolds;
    hide RuleHolds;
    hide ContractHolds;
  }

  /** A run persisted with the facts it was evaluated on, under the rubric replay selects and no custom snapshot,
      replays byte-identically for as long as its source documents keep their digests: dropping undefined members,
      writing `{}` for missing facts and `jsonb`'s reordering of keys change nothing. */
  lemma PersistedRunsReplay<A(!new)>(p: Platform<A>, before: Tables, after: Tables, run: RunInput)
    requires Faithful(p) && JsonShaped(run.invoice) && Readable(run.facts)
    requires EvaluatedHere(p, before, run) && Extends(before, after) && forall pin | pin in run.sources ::
        SourceHolds(after, pin)
    ensures var m := Recorded(before, run);
            var row := ManifestRow(ManifestHash(p.sha, m), Some(ReadBack(p.jsonb, m)));
            Replayed(p, after, Some(row), run.auditRunId) == ByteIdentical(run.result, p.sha(Canonical(run.result)))
  {
    hide SameUpToKeyOrder;
    hide ResultOf;
    hide ManifestHash;
    hide Canonical;
    hide JsonShaped;
    hide Faithful;
    var m := Recorded(before, run);
    var n := ReadBack(p.jsonb, m);
    ResultIsJson(p, run.invoice, Selected(p, m), run.facts);
    ReplaySees(p, before, run);
    RecordedIsReplayable(p, before, after, run);
    hide Replayable;
    hide EvaluatedHere;
    ReplayableIsCompared(p, after, ManifestRow(ManifestHash(p.sha, m), Some(n)));
    hide Replayed;
  }
}
