/** What an extraction holds, and what becomes of it. */
module ExtractionLaws {
  import opened Abstention
  import opened ExtractionPaths
  import opened Sorting
  import opened Sums
  import opened Texts

  // ---- the places of an extraction -----------------------------------------------------------

  /** A value of the extraction at its place: a field, a clause, the title or a cell of a table; and the orientation of
      a table that is ambiguous. */
  predicate IsEntry(x: Extraction, e: Entry) {
    || (exists f :: f in x.fields && e == Entry(FieldAt(f.path), Some(f.value)))
    || (exists c :: c in x.clauses && e == Entry(ClauseAt(c.reference), Some(c.text)))
    || exists t :: t in x.tables && IsTableEntry(t, e)
  }

  predicate IsTableEntry(t: Table, e: Entry) {
    || e == Entry(TitleAt(t.key), Some(t.title))
    || (exists c :: c in t.cells && e == Entry(CellAt(t.key, c.row, c.column), Some(c.value)))
    || (t.orientation.AmbiguousOrientation? && e == Entry(OrientationAt(t.key), None))
  }

  lemma TableEntriesSay(t: Table, e: Entry)
    ensures e in TableEntries(t) <==> IsTableEntry(t, e)
  {
    if exists c :: c in t.cells && e == Entry(CellAt(t.key, c.row, c.column), Some(c.value)) {
      var c :| c in t.cells && e == Entry(CellAt(t.key, c.row, c.column), Some(c.value));
      var i :| 0 <= i < |t.cells| && t.cells[i] == c;
      assert CellEntries(t.key, t.cells)[i] == e;
    }
    if e in CellEntries(t.key, t.cells) {
      var i :| 0 <= i < |t.cells| && CellEntries(t.key, t.cells)[i] == e;
      assert t.cells[i] in t.cells;
    }
  }

  lemma {:induction false} TablesEntriesSay(tables: seq<Table>, e: Entry)
    ensures e in TablesEntries(tables) <==> exists t :: t in tables && IsTableEntry(t, e)
    decreases |tables|
  {
    if tables != [] {
      var n := |tables| - 1;
      TablesEntriesSay(tables[..n], e);
      TableEntriesSay(tables[n], e);
      assert tables == tables[..n] + [tables[n]];
      hide TableEntries;
      hide IsTableEntry;
    }
  }

  lemma EntriesSay(x: Extraction, e: Entry)
    ensures e in Entries(x) <==> IsEntry(x, e)
  {
    TablesEntriesSay(x.tables, e);
    if exists f :: f in x.fields && e == Entry(FieldAt(f.path), Some(f.value)) {
      var f :| f in x.fields && e == Entry(FieldAt(f.path), Some(f.value));
      var i :| 0 <= i < |x.fields| && x.fields[i] == f;
      assert FieldEntries(x.fields)[i] == e;
    }
    if exists c :: c in x.clauses && e == Entry(ClauseAt(c.reference), Some(c.text)) {
      var c :| c in x.clauses && e == Entry(ClauseAt(c.reference), Some(c.text));
      var i :| 0 <= i < |x.clauses| && x.clauses[i] == c;
      assert ClauseEntries(x.clauses)[i] == e;
    }
    if e in FieldEntries(x.fields) {
      var i :| 0 <= i < |x.fields| && FieldEntries(x.fields)[i] == e;
      assert x.fields[i] in x.fields;
    }
    if e in ClauseEntries(x.clauses) {
      var i :| 0 <= i < |x.clauses| && ClauseEntries(x.clauses)[i] == e;
      assert x.clauses[i] in x.clauses;
    }
    hide TablesEntries;
    hide IsTableEntry;
  }

  // ---- what abstention makes of them ---------------------------------------------------------

  /** The question about a weak value: that of the policy for a required field, else the standing one. */
  predicate Asks(policy: Policy, place: Place, question: Text) {
    if place.FieldAt? && exists r :: r in policy.required && r.path == place.path
    then forall r | r in policy.required && r.path == place.path :: question == r.question
    else question == Ascii("Please verify ") + PathOf(place) + Ascii(" against the cited contract source.")
  }

  /** A value confident enough stays, without a notice. */
  predicate Stays(policy: Policy, x: Extraction, e: Entry, n: Option<Notice>) {
    n == None && IsEntry(x, e) && e.value.Some? && e.value.value.Found?
    && e.value.value.confidence >= policy.minimumConfidence
  }

  /** An abstention of the model stays and is noted. */
  predicate StaysOpen(x: Extraction, e: Entry, n: Option<Notice>) {
    && IsEntry(x, e) && e.value.Some? && e.value.value.Abstained?
    && n == Some(Notice(PathOf(e.place), e.value.value.status, ModelAbstention, e.value.value.question))
  }

  /** A value of too little confidence becomes ambiguous: its source text, confidence and citations are kept, the
      normalized value is not. */
  ghost predicate Weakens(policy: Policy, x: Extraction, e: Entry, n: Option<Notice>) {
    exists raw, normalized, confidence, citations, question ::
      && IsEntry(x, Entry(e.place, Some(Found(raw, normalized, confidence, citations))))
      && confidence < policy.minimumConfidence && Asks(policy, e.place, question)
      && e.value == Some(Abstained(Ambiguous, Some(raw), confidence, citations, question))
      && n == Some(Notice(PathOf(e.place), Ambiguous, LowConfidence, question))
  }

  /** A required field that was not extracted is added as not found. */
  predicate IsMissing(policy: Policy, x: Extraction, e: Entry, n: Option<Notice>) {
    exists r :: r in policy.required && (forall f | f in x.fields :: f.path != r.path)
                && e == Entry(FieldAt(r.path), Some(Abstained(NotFound, None, 0.0, [], r.question)))
                && n == Some(Notice(r.path, NotFound, MissingRequiredField, r.question))
  }

  /** An ambiguous orientation is asked about. */
  predicate IsUnoriented(x: Extraction, e: Entry, n: Option<Notice>) {
    && IsEntry(x, e) && e.value.None? && e.place.OrientationAt?
    && n == Some(Notice(PathOf(e.place), Ambiguous, AmbiguousTableOrientation,
                        Ascii("Is ") + e.place.key + Ascii(" organized with brackets in rows or columns?")))
  }

  ghost predicate Outcome(policy: Policy, x: Extraction, e: Entry, n: Option<Notice>) {
    Stays(policy, x, e, n) || StaysOpen(x, e, n) || Weakens(policy, x, e, n) || IsMissing(policy, x, e, n)
    || IsUnoriented(x, e, n)
  }

  lemma {:induction false} PreferredSays(required: seq<Requirement>, path: Text)
    ensures Preferred(required, path) == None <==> forall r | r in required :: r.path != path
    ensures Preferred(required, path).Some?
        ==> exists r :: r in required && r.path == path && r.question == Preferred(required, path).value
    decreases |required|
  {
    if required != [] {
      var n := |required| - 1;
      PreferredSays(required[..n], path);
      assert required == required[..n] + [required[n]];
    }
  }

  lemma AskedQuestion(policy: Policy, place: Place)
    requires ValidPolicy(policy)
    ensures Asks(policy, place, QuestionFor(PathOf(place), PreferredAt(policy, place)))
    ensures forall q | Asks(policy, place, q) :: q == QuestionFor(PathOf(place), PreferredAt(policy, place))
  {
    if place.FieldAt? {
      PreferredSays(policy.required, place.path);
      forall r, s | r in policy.required && s in policy.required && r.path == s.path ensures r == s {
        var i :| 0 <= i < |policy.required| && policy.required[i] == r;
        var j :| 0 <= j < |policy.required| && policy.required[j] == s;
      }
    }
    hide PathOf;
    hide Preferred;
  }

  lemma FieldIsExtracted(x: Extraction, o: Entry)
    requires IsEntry(x, o) && o.place.FieldAt?
    ensures o.place.path in PathsOf(x.fields)
  {
    var f :| f in x.fields && o == Entry(FieldAt(f.path), Some(f.value));
    var i :| 0 <= i < |x.fields| && x.fields[i] == f;
    assert PathsOf(x.fields)[i] == f.path;
  }

  lemma PathsMeaning(x: Extraction, path: Text)
    ensures path in PathsOf(x.fields) <==> exists f :: f in x.fields && f.path == path
  {
    if exists f :: f in x.fields && f.path == path {
      var f :| f in x.fields && f.path == path;
      var i :| 0 <= i < |x.fields| && x.fields[i] == f;
      assert PathsOf(x.fields)[i] == path;
    }
    if path in PathsOf(x.fields) {
      var i :| 0 <= i < |x.fields| && PathsOf(x.fields)[i] == path;
      assert x.fields[i] in x.fields;
    }
  }

  /** What the policy does at a place of the extraction. */
  lemma OldOutcome(policy: Policy, x: Extraction, o: Entry)
    requires ValidPolicy(policy) && IsEntry(x, o)
    ensures Outcome(policy, x, AppliedEntry(policy, o), NoticeAt(policy, PathsOf(x.fields))(o))
  {
    if o.place.FieldAt? { FieldIsExtracted(x, o); }
    AskedQuestion(policy, o.place);
    EntryShape(x, o);
    var e, n := AppliedEntry(policy, o), NoticeAt(policy, PathsOf(x.fields))(o);
    hide IsEntry;
    hide PathOf;
    hide PathsOf;
    hide ValidPolicy;
    hide Asks;
    hide QuestionFor;
    hide PreferredAt;
    if o.value.None? {
      assert IsUnoriented(x, e, n);
    } else {
      match o.value.value
      case Abstained(status, raw, confidence, citations, question) => assert StaysOpen(x, e, n);
      case Found(raw, normalized, confidence, citations) =>
        if confidence >= policy.minimumConfidence {
          assert Stays(policy, x, e, n);
        } else {
          assert o == Entry(e.place, Some(Found(raw, normalized, confidence, citations)));
          assert Weakens(policy, x, e, n);
        }
    }
  }

  /** Only an orientation has no value. */
  lemma EntryShape(x: Extraction, o: Entry)
    requires IsEntry(x, o)
    ensures o.value.None? <==> o.place.OrientationAt?
  {
  }

  /** What it does about a field that is missing. */
  lemma MissingOutcome(policy: Policy, x: Extraction, o: Entry)
    requires o in FieldEntries(MissingFields(policy.required, PathsOf(x.fields)))
    ensures IsMissing(policy, x, AppliedEntry(policy, o), NoticeAt(policy, PathsOf(x.fields))(o))
  {
    var missing := MissingFields(policy.required, PathsOf(x.fields));
    MissingMeaning(policy.required, PathsOf(x.fields));
    hide MissingFields;
    var i :| 0 <= i < |missing| && FieldEntries(missing)[i] == o;
    assert missing[i] in missing;
    var r :| r in policy.required && r.path !in PathsOf(x.fields) && missing[i] == MissingField(r);
    PathsMeaning(x, r.path);
    hide PathsOf;
  }

  lemma MissingThere(policy: Policy, x: Extraction, r: Requirement)
    requires r in policy.required && forall f | f in x.fields :: f.path != r.path
    ensures Entry(FieldAt(r.path), Some(MissingField(r).value))
         in FieldEntries(MissingFields(policy.required, PathsOf(x.fields)))
  {
    var missing := MissingFields(policy.required, PathsOf(x.fields));
    MissingMeaning(policy.required, PathsOf(x.fields));
    PathsMeaning(x, r.path);
    hide MissingFields;
    hide PathsOf;
    assert MissingField(r) in missing;
    var i :| 0 <= i < |missing| && missing[i] == MissingField(r);
    assert FieldEntries(missing)[i] == Entry(FieldAt(r.path), Some(MissingField(r).value));
  }

  lemma ExaminedSay(policy: Policy, x: Extraction, o: Entry)
    ensures o in Examined(policy, x)
       <==> IsEntry(x, o) || o in FieldEntries(MissingFields(policy.required, PathsOf(x.fields)))
  {
    EntriesSay(x, o);
    hide IsEntry;
    hide FieldEntries;
    hide ClauseEntries;
    hide TablesEntries;
    hide MissingFields;
  }

  /** The place a resulting entry and its notice come from. */
  lemma OutcomeFrom(policy: Policy, x: Extraction, e: Entry, n: Option<Notice>) returns (o: Entry)
    requires ValidPolicy(policy) && Outcome(policy, x, e, n)
    ensures o in Examined(policy, x)
    ensures AppliedEntry(policy, o) == e && NoticeAt(policy, PathsOf(x.fields))(o) == n
  {
    o := e;
    if IsMissing(policy, x, e, n) {
      var r :| r in policy.required && (forall f | f in x.fields :: f.path != r.path)
               && e == Entry(FieldAt(r.path), Some(Abstained(NotFound, None, 0.0, [], r.question)))
               && n == Some(Notice(r.path, NotFound, MissingRequiredField, r.question));
      MissingThere(policy, x, r);
      PathsMeaning(x, r.path);
    } else {
      if Weakens(policy, x, e, n) {
        var raw, normalized, confidence, citations, question :|
          && IsEntry(x, Entry(e.place, Some(Found(raw, normalized, confidence, citations))))
          && confidence < policy.minimumConfidence && Asks(policy, e.place, question)
          && e.value == Some(Abstained(Ambiguous, Some(raw), confidence, citations, question))
          && n == Some(Notice(PathOf(e.place), Ambiguous, LowConfidence, question));
        o := Entry(e.place, Some(Found(raw, normalized, confidence, citations)));
      }
      AskedQuestion(policy, e.place);
      if o.place.FieldAt? { FieldIsExtracted(x, o); }
      EntryShape(x, o);
    }
    ExaminedSay(policy, x, o);
    hide IsEntry;
    hide PathOf;
    hide PathsOf;
    hide ValidPolicy;
    hide Asks;
    hide QuestionFor;
    hide PreferredAt;
    hide Examined;
    hide MissingFields;
    hide FieldEntries;
  }

  /** The result of abstention, place by place, and its notices: nothing else is in either. */
  lemma AbstentionSays(pathOrder: (Text, Text) -> bool, policy: Policy, x: Extraction)
    requires ValidPolicy(policy)
    ensures forall e :: e in Entries(AppliedExtraction(pathOrder, policy, x)) <==> exists n :: Outcome(policy, x, e, n)
    ensures forall n :: n in Notices(pathOrder, policy, x) <==> exists e :: Outcome(policy, x, e, Some(n))
  {
    var paths, examined := PathsOf(x.fields), Examined(policy, x);
    AppliedPlaces(pathOrder, policy, x);
    CollectMeaning(examined, NoticeAt(policy, paths));
    SortKeepsMembers(NoticeLeq(pathOrder), Collect(examined, NoticeAt(policy, paths)));
    var after, notices := Entries(AppliedExtraction(pathOrder, policy, x)), Notices(pathOrder, policy, x);
    forall o | o in examined ensures Outcome(policy, x, AppliedEntry(policy, o), NoticeAt(policy, paths)(o)) {
      ExaminedSay(policy, x, o);
      if IsEntry(x, o) { OldOutcome(policy, x, o); } else { MissingOutcome(policy, x, o); }
    }
    AppliedMembers(policy, examined);
    hide Outcome;
    hide Examined;
    hide Entries;
    hide AppliedEntry;
    hide AppliedEntries;
    hide AppliedExtraction;
    hide Collect;
    hide SortBy;
    hide NoticeAt;
    forall e, n | Outcome(policy, x, e, n) ensures e in after && (n.Some? ==> n.value in notices) {
      var o := OutcomeFrom(policy, x, e, n);
    }
  }

  lemma AppliedMembers(policy: Policy, es: seq<Entry>)
    ensures forall e :: e in AppliedEntries(policy, es) <==> exists o :: o in es && AppliedEntry(policy, o) == e
  {
    forall o | o in es ensures AppliedEntry(policy, o) in AppliedEntries(policy, es) {
      var i :| 0 <= i < |es| && es[i] == o;
      assert AppliedEntries(policy, es)[i] == AppliedEntry(policy, o);
    }
    hide AppliedEntry;
    forall e | e in AppliedEntries(policy, es) ensures exists o :: o in es && AppliedEntry(policy, o) == e {
      var i :| 0 <= i < |es| && AppliedEntries(policy, es)[i] == e;
      assert es[i] in es;
    }
  }

  /** Everything but the values stays: clauses and tables in place, cells in place in their tables, and fields with
      their types; a field that is added has the type the policy requires. */
  lemma RestStays(pathOrder: (Text, Text) -> bool, policy: Policy, x: Extraction)
    ensures var after := AppliedExtraction(pathOrder, policy, x);
      && after == x.(fields := after.fields, clauses := after.clauses, tables := after.tables)
      && |after.clauses| == |x.clauses| && |after.tables| == |x.tables|
      && (forall i | 0 <= i < |x.clauses| :: after.clauses[i] == x.clauses[i].(text := after.clauses[i].text))
      && (forall i | 0 <= i < |x.tables| ::
           && after.tables[i] == x.tables[i].(title := after.tables[i].title, cells := after.tables[i].cells)
           && SameCells(x.tables[i].cells, after.tables[i].cells))
      && (forall f | f in after.fields ::
           || (exists g :: g in x.fields && f == g.(value := f.value))
           || (exists r :: r in policy.required && f.path == r.path && f.semanticType == r.semanticType))
  {
    var after := AppliedExtraction(pathOrder, policy, x);
    var missing := MissingFields(policy.required, PathsOf(x.fields));
    SortKeepsMembers(By(pathOrder, FieldPath()), AppliedFields(policy, x.fields) + missing);
    MissingMeaning(policy.required, PathsOf(x.fields));
    forall i | 0 <= i < |x.tables| ensures SameCells(x.tables[i].cells, after.tables[i].cells) {}
    hide SortBy;
    hide MissingFields;
    hide AppliedAt;
    forall f | f in after.fields
      ensures (exists g :: g in x.fields && f == g.(value := f.value))
              || (exists r :: r in policy.required && f.path == r.path && f.semanticType == r.semanticType)
    {
      if f in AppliedFields(policy, x.fields) {
        var i :| 0 <= i < |x.fields| && AppliedFields(policy, x.fields)[i] == f;
        assert x.fields[i] in x.fields;
      } else {
        assert f in missing;
        var r :| r in policy.required && r.path !in PathsOf(x.fields) && f == MissingField(r);
      }
    }
  }

  predicate SameCells(before: seq<Cell>, after: seq<Cell>) {
    |before| == |after| && forall j | 0 <= j < |before| :: after[j] == before[j].(value := after[j].value)
  }

  /** Rows are sorted by path. */
  lemma RowsInOrder(pathOrder: (Text, Text) -> bool, x: Extraction)
    requires TotalOrder(pathOrder)
    ensures var rows := Flattened(pathOrder, x);
            forall i, j | 0 <= i < j < |rows| :: pathOrder(rows[i].path, rows[j].path)
  {
    ByIsTotalPreorder(pathOrder, RowPath());
    SortSorts(By(pathOrder, RowPath()), Collect(Entries(x), AsRow()));
    hide SortBy;
    hide TotalOrder;
    hide TotalPreorder;
  }

  lemma ByIsTotalPreorder<A(!new), B(!new)>(leq: (B, B) -> bool, f: A -> B)
    requires TotalOrder(leq)
    ensures TotalPreorder(By(leq, f))
  {
  }
}
