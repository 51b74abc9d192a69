/** Fail-safe abstention over a contract extraction. */
module Abstention {
  import opened ExtractionPaths
  import opened JsonText
  import opened Sorting
  import opened Sums
  import opened Texts

  // src/modules/contracts/apply-contract-extraction-abstention.ts, and the clarifying questions it leads to,
  // src/modules/contracts/clarifying-questions.ts.

  datatype Requirement = Requirement(path: Text, semanticType: SemanticType, question: Text)

  datatype Policy = Policy(version: Text, minimumConfidence: real, required: seq<Requirement>)

  datatype Reason = MissingRequiredField | LowConfidence | ModelAbstention | AmbiguousTableOrientation

  datatype Notice = Notice(path: Text, status: Status, reason: Reason, question: Text)

  /** Paths are compared exactly, not folded. */
  predicate ValidPolicy(p: Policy) {
    && 0 < |p.version| <= 200 && 0.0 <= p.minimumConfidence <= 1.0 && |p.required| <= 10000
    && (forall r | r in p.required :: 0 < |r.path| <= 500 && 0 < |r.question| <= 2000)
    && forall i, j | 0 <= i < j < |p.required| :: p.required[i].path != p.required[j].path
  }

  // ---- one value -----------------------------------------------------------------------------

  function PleaseVerify(path: Text): Text {
    Ascii("Please verify ") + path + Ascii(" against the cited contract source.")
  }

  function QuestionFor(path: Text, preferred: Option<Text>): Text {
    if preferred.Some? then preferred.value else PleaseVerify(path)
  }

  /** The value after the policy: weak evidence becomes an abstention that keeps the source text and its citations. */
  function Applied(v: Extracted, path: Text, minimum: real, preferred: Option<Text>): Extracted {
    if v.Found? && v.confidence < minimum
        then Abstained(Ambiguous, Some(v.rawText), v.confidence, v.citations, QuestionFor(path, preferred)) else v
  }

  function NoticeOf(v: Extracted, path: Text, minimum: real, preferred: Option<Text>): Option<Notice> {
    match v
    case Abstained(status, _, _, _, question) => Some(Notice(path, status, ModelAbstention, question))
    case Found(_, _, confidence, _) =>
      if confidence >= minimum then None else Some(Notice(path, Ambiguous, LowConfidence, QuestionFor(path, preferred)))
  }

  function Noted(n: Option<Notice>): seq<Notice> { if n.Some? then [n.value] else [] }

  method ApplyToValue(v: Extracted, path: Text, minimum: real, preferred: Option<Text>, notices: seq<Notice>)
    returns (r: Extracted, after: seq<Notice>)
    ensures r == Applied(v, path, minimum, preferred)
    ensures after == notices + Noted(NoticeOf(v, path, minimum, preferred))
  {
    if v.Abstained? { return v, notices + [Notice(path, v.status, ModelAbstention, v.question)]; }
    if v.confidence >= minimum { return v, notices; }
    var question := QuestionFor(path, preferred);
    after := notices + [Notice(path, Ambiguous, LowConfidence, question)];
    r := Abstained(Ambiguous, Some(v.rawText), v.confidence, v.citations, question);
  }

  // ---- a whole extraction --------------------------------------------------------------------

  function Preferred(required: seq<Requirement>, path: Text): Option<Text> {
    if required == [] then None
    else if required[|required| - 1].path == path then Some(required[|required| - 1].question)
    else Preferred(required[..|required| - 1], path)
  }

  function PreferredAt(policy: Policy, place: Place): Option<Text> {
    if place.FieldAt? then Preferred(policy.required, place.path) else None
  }

  function AppliedAt(policy: Policy, place: Place, v: Extracted): Extracted {
    Applied(v, PathOf(place), policy.minimumConfidence, PreferredAt(policy, place))
  }

  function MissingField(r: Requirement): Field {
    Field(r.path, r.semanticType, Abstained(NotFound, None, 0.0, [], r.question))
  }

  function MissingFields(required: seq<Requirement>, paths: seq<Text>): seq<Field> {
    if required == [] then []
    else
      var last := required[|required| - 1];
      MissingFields(required[..|required| - 1], paths) + if last.path in paths then [] else [MissingField(last)]
  }

  predicate AllFieldPaths(fields: seq<Field>) { forall f | f in fields :: IsFieldPath(f.path) }

  predicate HasPath(fields: seq<Field>, path: Text) { exists f :: f in fields && f.path == path }

  function AppliedField(policy: Policy, f: Field): Field { f.(value := AppliedAt(policy, FieldAt(f.path), f.value)) }

  function AppliedFields(policy: Policy, fields: seq<Field>): seq<Field> {
    seq(|fields|, i requires 0 <= i < |fields| => AppliedField(policy, fields[i]))
  }

  function AppliedClause(policy: Policy, c: Clause): Clause {
    c.(text := AppliedAt(policy, ClauseAt(c.reference), c.text))
  }

  function AppliedClauses(policy: Policy, clauses: seq<Clause>): seq<Clause> {
    seq(|clauses|, i requires 0 <= i < |clauses| => AppliedClause(policy, clauses[i]))
  }

  function AppliedCell(policy: Policy, key: Text, c: Cell): Cell {
    c.(value := AppliedAt(policy, CellAt(key, c.row, c.column), c.value))
  }

  function AppliedCells(policy: Policy, key: Text, cells: seq<Cell>): seq<Cell> {
    seq(|cells|, i requires 0 <= i < |cells| => AppliedCell(policy, key, cells[i]))
  }

  function AppliedTable(policy: Policy, t: Table): Table {
    t.(title := AppliedAt(policy, TitleAt(t.key), t.title), cells := AppliedCells(policy, t.key, t.cells))
  }

  function AppliedTables(policy: Policy, tables: seq<Table>): seq<Table> {
    seq(|tables|, i requires 0 <= i < |tables| => AppliedTable(policy, tables[i]))
  }

  function FieldPath(): Field -> Text { (f: Field) => f.path }

  function AppliedExtraction(pathOrder: (Text, Text) -> bool, policy: Policy, x: Extraction): Extraction {
    x.(fields := SortBy(By(pathOrder, FieldPath()),
                        AppliedFields(policy, x.fields) + MissingFields(policy.required, PathsOf(x.fields))),
       clauses := AppliedClauses(policy, x.clauses), tables := AppliedTables(policy, x.tables))
  }

  /** Every place the policy looks at: those of the extraction, after the fields those of missing fields. */
  function Examined(policy: Policy, x: Extraction): seq<Entry> {
    FieldEntries(x.fields) + FieldEntries(MissingFields(policy.required, PathsOf(x.fields))) + ClauseEntries(x.clauses)
        + TablesEntries(x.tables)
  }

  function OrientationQuestion(key: Text): Text {
    Ascii("Is ") + key + Ascii(" organized with brackets in rows or columns?")
  }

  /** What is noted at a place; `paths` are the fields that were extracted. */
  function NoticeAt(policy: Policy, paths: seq<Text>): Entry -> Option<Notice> {
    (e: Entry) =>
      if e.value.None? then Some(Notice(PathOf(e.place), Ambiguous, AmbiguousTableOrientation,
                                        if e.place.OrientationAt? then OrientationQuestion(e.place.key) else []))
      else if e.place.FieldAt? && e.place.path !in paths && e.value.value.Abstained? then
        Some(Notice(e.place.path, e.value.value.status, MissingRequiredField, e.value.value.question))
      else NoticeOf(e.value.value, PathOf(e.place), policy.minimumConfidence, PreferredAt(policy, e.place))
  }

  function ReasonText(r: Reason): Text {
    match r
    case MissingRequiredField => Ascii("MISSING_REQUIRED_FIELD")
    case LowConfidence => Ascii("LOW_CONFIDENCE")
    case ModelAbstention => Ascii("MODEL_ABSTENTION")
    case AmbiguousTableOrientation => Ascii("AMBIGUOUS_TABLE_ORIENTATION")
  }

  /** By path, then by reason. */
  function NoticeLeq(pathOrder: (Text, Text) -> bool): (Notice, Notice) -> bool {
    (a: Notice, b: Notice) => if a.path == b.path then pathOrder(ReasonText(a.reason), ReasonText(b.reason))
        else pathOrder(a.path, b.path)
  }

  function Notices(pathOrder: (Text, Text) -> bool, policy: Policy, x: Extraction): seq<Notice> {
    SortBy(NoticeLeq(pathOrder), Collect(Examined(policy, x), NoticeAt(policy, PathsOf(x.fields))))
  }

  datatype Result = Result(extraction: Extraction, policyVersion: Text, notices: seq<Notice>)

  /** The extraction being rewritten in place. */
  class Draft {
    var fields: seq<Field>
    var clauses: seq<Clause>
    var tables: seq<Table>
    var notices: seq<Notice>

    constructor (x: Extraction)
      ensures fields == x.fields && clauses == x.clauses && tables == x.tables && notices == []
    {
      fields, clauses, tables, notices := x.fields, x.clauses, x.tables, [];
    }

    method ApplyFields(policy: Policy)
      modifies `fields, `notices
      ensures fields == AppliedFields(policy, old(fields))
      ensures notices == old(notices) + Collect(FieldEntries(old(fields)), NoticeAt(policy, PathsOf(old(fields))))
    {
      hide PathOf;
      var n := |fields|;
      ghost var was := fields;
      for i := 0 to n
        invariant |fields| == n && (forall k | i <= k < n :: fields[k] == was[k]) && forall k | 0 <= k < i ::
            fields[k] == AppliedField(policy, was[k])
        invariant notices == old(notices) + Collect(FieldEntries(was[..i]), NoticeAt(policy, PathsOf(was)))
      {
        var field := fields[i];
        var value;
        value, notices := ApplyToValue(field.value, field.path, policy.minimumConfidence,
                                       Preferred(policy.required, field.path), notices);
        FieldNotice(policy, was, i);
        PathOfField(field.path);
        fields := fields[i := field.(value := value)];
      }
      assert was[..n] == was;
    }

    /** Adds the required fields that were not extracted; stops at one whose path is not a field path. */
    method AddMissing(policy: Policy) returns (ok: bool)
      requires ValidPolicy(policy)
      modifies `fields, `notices
      ensures ok <==> AllFieldPaths(MissingFields(policy.required, PathsOf(old(fields))))
      ensures ok ==> var missing := MissingFields(policy.required, PathsOf(old(fields)));
                     && fields == old(fields) + missing
                     && notices == old(notices) + Collect(FieldEntries(missing), NoticeAt(policy, PathsOf(old(fields))))
    {
      hide *;
      ghost var paths, before, start := PathsOf(fields), fields, notices;
      ghost var missing: seq<Field>, noted: seq<Notice> := [], [];
      NothingMissing(policy, paths);
      for i := 0 to |policy.required|
        invariant missing == MissingFields(policy.required[..i], paths)
            && noted == Collect(FieldEntries(missing), NoticeAt(policy, paths))
        invariant fields == before + missing && notices == start + noted
        invariant AllFieldPaths(missing)
      {
        var requirement := policy.required[i];
        var field := MissingField(requirement);
        MissingStep(policy.required, paths, i);
        PresentOrMissing(policy, before, i);
        if HasPath(fields, requirement.path) { continue; }
        OneMorePath(policy.required, paths, missing, field);
        if !IsFieldPath(requirement.path) { return false; }
        MissingNotice(policy, paths, missing, requirement);
        var notice := Notice(requirement.path, NotFound, MissingRequiredField, requirement.question);
        fields := fields + [field];
        notices := notices + [notice];
        missing, noted := missing + [field], noted + [notice];
        assert fields == before + missing && notices == start + noted;
      }
      assert policy.required[..|policy.required|] == policy.required;
      ok := true;
    }

    method ApplyClauses(policy: Policy, ghost paths: seq<Text>)
      modifies `clauses, `notices
      ensures clauses == AppliedClauses(policy, old(clauses))
      ensures notices == old(notices) + Collect(ClauseEntries(old(clauses)), NoticeAt(policy, paths))
    {
      hide *;
      var n := |clauses|;
      ghost var was, start, noted: seq<Notice> := clauses, notices, [];
      NoClauses(was, NoticeAt(policy, paths));
      for i := 0 to n
        invariant |clauses| == n && (forall k | i <= k < n :: clauses[k] == was[k]) && forall k | 0 <= k < i ::
            clauses[k] == AppliedClause(policy, was[k])
        invariant notices == start + noted && noted == Collect(ClauseEntries(was[..i]), NoticeAt(policy, paths))
      {
        var clause := clauses[i];
        var text;
        text, notices := ApplyToValue(clause.text, PathOf(ClauseAt(clause.reference)), policy.minimumConfidence, None,
                                      notices);
        ClauseNotice(policy, was, i, paths);
        ghost var more := Noted(NoticeOf(clause.text, PathOf(ClauseAt(clause.reference)), policy.minimumConfidence,
                                         None));
        assert notices == start + (noted + more);
        noted := noted + more;
        clauses := clauses[i := clause.(text := text)];
      }
      assert was[..n] == was;
      ClausesApplied(policy, was, clauses);
    }

    method ApplyCells(policy: Policy, key: Text, before: seq<Cell>, ghost paths: seq<Text>) returns (cells: seq<Cell>)
      modifies `notices
      ensures cells == AppliedCells(policy, key, before)
      ensures notices == old(notices) + Collect(CellEntries(key, before), NoticeAt(policy, paths))
    {
      hide PathOf;
      cells := before;
      for i := 0 to |before|
        invariant |cells| == |before| && (forall k | i <= k < |cells| :: cells[k] == before[k])
            && forall k | 0 <= k < i :: cells[k] == AppliedCell(policy, key, before[k])
        invariant notices == old(notices) + Collect(CellEntries(key, before[..i]), NoticeAt(policy, paths))
      {
        var cell := cells[i];
        var value;
        value, notices := ApplyToValue(cell.value, PathOf(CellAt(key, cell.row, cell.column)), policy.minimumConfidence,
                                       None, notices);
        assert CellEntries(key, before[..i + 1])[..i] == CellEntries(key, before[..i]);
        cells := cells[i := cell.(value := value)];
      }
      assert before[..|before|] == before;
    }

    method ApplyTable(policy: Policy, table: Table, ghost paths: seq<Text>) returns (r: Table)
      modifies `notices
      ensures r == AppliedTable(policy, table)
      ensures notices == old(notices) + Collect(TableEntries(table), NoticeAt(policy, paths))
    {
      hide PathOf;
      hide NoticeAt;
      hide NoticeOf;
      hide Applied;
      TableNotices(policy, table, paths);
      hide TableEntries;
      hide Collect;
      var title;
      title, notices := ApplyToValue(table.title, PathOf(TitleAt(table.key)), policy.minimumConfidence, None, notices);
      var cells := ApplyCells(policy, table.key, table.cells, paths);
      r := table.(title := title, cells := cells);
      if table.orientation == AmbiguousOrientation {
        notices := notices + [Notice(PathOf(OrientationAt(table.key)), Ambiguous, AmbiguousTableOrientation,
                                     OrientationQuestion(table.key))];
      }
    }

    method ApplyTables(policy: Policy, ghost paths: seq<Text>)
      modifies `tables, `notices
      ensures tables == AppliedTables(policy, old(tables))
      ensures notices == old(notices) + Collect(TablesEntries(old(tables)), NoticeAt(policy, paths))
    {
      var n := |tables|;
      ghost var was, start, noted: seq<Notice> := tables, notices, [];
      hide *;
      NoTables(was, NoticeAt(policy, paths));
      for i := 0 to n
        invariant |tables| == n && (forall k | i <= k < n :: tables[k] == was[k]) && forall k | 0 <= k < i ::
            tables[k] == AppliedTable(policy, was[k])
        invariant notices == start + noted && noted == Collect(TablesEntries(was[..i]), NoticeAt(policy, paths))
      {
        var table := tables[i];
        var r := ApplyTable(policy, table, paths);
        FirstTablesStep(was, i, NoticeAt(policy, paths));
        ghost var more := Collect(TableEntries(table), NoticeAt(policy, paths));
        assert notices == start + (noted + more);
        noted := noted + more;
        tables := tables[i := r];
      }
      assert was[..n] == was;
      TablesApplied(policy, was, tables);
    }
  }

  lemma NoClauses<T>(clauses: seq<Clause>, f: Entry -> Option<T>)
    ensures Collect(ClauseEntries(clauses[..0]), f) == []
  {
  }

  lemma ClauseNotice(policy: Policy, clauses: seq<Clause>, i: nat, paths: seq<Text>)
    requires i < |clauses|
    ensures var f, path := NoticeAt(policy, paths), PathOf(ClauseAt(clauses[i].reference));
            && Collect(ClauseEntries(clauses[..i + 1]), f)
               == Collect(ClauseEntries(clauses[..i]), f)
                   + Noted(NoticeOf(clauses[i].text, path, policy.minimumConfidence, None))
            && AppliedClause(policy, clauses[i])
                == clauses[i].(text := Applied(clauses[i].text, path, policy.minimumConfidence, None))
  {
    hide PathOf;
    assert ClauseEntries(clauses[..i + 1])[..i] == ClauseEntries(clauses[..i]);
  }

  lemma ClausesApplied(policy: Policy, before: seq<Clause>, after: seq<Clause>)
    requires |after| == |before| && forall k | 0 <= k < |before| :: after[k] == AppliedClause(policy, before[k])
    ensures after == AppliedClauses(policy, before)
  {
  }

  lemma TablesApplied(policy: Policy, before: seq<Table>, after: seq<Table>)
    requires |after| == |before| && forall k | 0 <= k < |before| :: after[k] == AppliedTable(policy, before[k])
    ensures after == AppliedTables(policy, before)
  {
  }

  lemma NothingMissing(policy: Policy, paths: seq<Text>)
    ensures MissingFields(policy.required[..0], paths) == [] && AllFieldPaths([])
        && Collect(FieldEntries([]), NoticeAt(policy, paths)) == []
  {
  }

  lemma NoTables<T>(tables: seq<Table>, f: Entry -> Option<T>)
    ensures Collect(TablesEntries(tables[..0]), f) == []
  {
  }

  lemma FieldNotice(policy: Policy, fields: seq<Field>, i: nat)
    requires i < |fields|
    ensures var f := NoticeAt(policy, PathsOf(fields));
            var here := NoticeOf(fields[i].value, fields[i].path, policy.minimumConfidence,
                                 Preferred(policy.required, fields[i].path));
            Collect(FieldEntries(fields[..i + 1]), f) == Collect(FieldEntries(fields[..i]), f) + Noted(here)
  {
    hide PathOf;
    assert FieldEntries(fields[..i + 1])[..i] == FieldEntries(fields[..i]);
    assert PathsOf(fields)[i] == fields[i].path;
    PathOfField(fields[i].path);
  }

  lemma PathOfField(path: Text)
    ensures PathOf(FieldAt(path)) == path
  {
  }

  /** A required path is found among the fields, grown or not, exactly when it was extracted. */
  lemma PresentOrMissing(policy: Policy, fields: seq<Field>, i: nat)
    requires ValidPolicy(policy) && i < |policy.required|
    ensures var path := policy.required[i].path;
            HasPath(fields + MissingFields(policy.required[..i], PathsOf(fields)), path) <==> path in PathsOf(fields)
  {
    var path := policy.required[i].path;
    var missing := MissingFields(policy.required[..i], PathsOf(fields));
    MissingMeaning(policy.required[..i], PathsOf(fields));
    if path in PathsOf(fields) {
      var k :| 0 <= k < |fields| && PathsOf(fields)[k] == path;
      assert fields[k] in fields + missing;
    }
    forall f | f in fields ensures f.path in PathsOf(fields) {
      var k :| 0 <= k < |fields| && fields[k] == f;
      assert PathsOf(fields)[k] == f.path;
    }
    forall f | f in missing ensures f.path != path {
      var r :| r in policy.required[..i] && f == MissingField(r);
      var k :| 0 <= k < i && policy.required[k] == r;
    }
  }

  lemma OneMorePath(required: seq<Requirement>, paths: seq<Text>, missing: seq<Field>, f: Field)
    requires f in MissingFields(required, paths)
    ensures AllFieldPaths(missing + [f]) <==> AllFieldPaths(missing) && IsFieldPath(f.path)
    ensures !IsFieldPath(f.path) ==> !AllFieldPaths(MissingFields(required, paths))
  {
    hide IsFieldPath;
    hide MissingFields;
    if AllFieldPaths(missing + [f]) {
      assert f in missing + [f];
      assert forall g | g in missing :: g in missing + [f];
    }
  }

  lemma {:induction false} MissingMeaning(required: seq<Requirement>, paths: seq<Text>)
    ensures forall f ::
              f in MissingFields(required, paths)
              <==> exists r :: r in required && r.path !in paths && f == MissingField(r)
    decreases |required|
  {
    if required != [] {
      var n := |required| - 1;
      MissingMeaning(required[..n], paths);
      assert required == required[..n] + [required[n]];
    }
  }

  lemma TableNotices(policy: Policy, table: Table, paths: seq<Text>)
    ensures var f := NoticeAt(policy, paths);
            Collect(TableEntries(table), f)
            == Noted(NoticeOf(table.title, PathOf(TitleAt(table.key)), policy.minimumConfidence, None))
                + Collect(CellEntries(table.key, table.cells), f)
               + if table.orientation.AmbiguousOrientation?
                 then [Notice(PathOf(OrientationAt(table.key)), Ambiguous, AmbiguousTableOrientation,
                              OrientationQuestion(table.key))] else []
  {
    hide PathOf;
    hide OrientationQuestion;
    hide NoticeOf;
    hide Collect;
    var f := NoticeAt(policy, paths);
    var title, cells := Entry(TitleAt(table.key), Some(table.title)), CellEntries(table.key, table.cells);
    CollectOne(title, f);
    CollectAppends([title], cells, f);
    if table.orientation.AmbiguousOrientation? {
      var last := Entry(OrientationAt(table.key), None);
      CollectOne(last, f);
      CollectAppends([title] + cells, [last], f);
    } else {
      assert TableEntries(table) == [title] + cells;
    }
    hide CellEntries;
  }

  lemma MissingStep(required: seq<Requirement>, paths: seq<Text>, i: nat)
    requires i < |required|
    ensures MissingFields(required[..i + 1], paths)
            == MissingFields(required[..i], paths) + if required[i].path in paths then []
                else [MissingField(required[i])]
    ensures MissingField(required[i]).path == required[i].path
    ensures required[i].path !in paths ==> MissingField(required[i]) in MissingFields(required, paths)
  {
    assert required[..i + 1][..i] == required[..i];
    MissingMeaning(required, paths);
  }

  lemma MissingNotice(policy: Policy, paths: seq<Text>, missing: seq<Field>, r: Requirement)
    requires r.path !in paths
    ensures Collect(FieldEntries(missing + [MissingField(r)]), NoticeAt(policy, paths))
            == Collect(FieldEntries(missing), NoticeAt(policy, paths))
                + [Notice(r.path, NotFound, MissingRequiredField, r.question)]
  {
    hide PathOf;
    var entries := FieldEntries(missing + [MissingField(r)]);
    assert entries[..|missing|] == FieldEntries(missing);
  }

  // ---- the whole operation -------------------------------------------------------------------

  ghost predicate Accepts(fold: Text -> Text, pathOrder: (Text, Text) -> bool, policy: Policy, x: Extraction) {
    && Valid(fold, x) && ValidPolicy(policy) && AllFieldPaths(MissingFields(policy.required, PathsOf(x.fields)))
    && Valid(fold, AppliedExtraction(pathOrder, policy, x))
  }

  method CheckPolicy(policy: Policy) returns (ok: bool)
    ensures ok <==> ValidPolicy(policy)
  {
    var paths := seq(|policy.required|, i requires 0 <= i < |policy.required| => policy.required[i].path);
    var issues := RejectDuplicates((t: Text) => t, paths);
    NoIssues((t: Text) => t, paths, issues);
    assert DistinctFolded((t: Text) => t, paths) <==> forall i, j | 0 <= i < j < |policy.required| ::
        policy.required[i].path != policy.required[j].path by {
      assert forall i | 0 <= i < |paths| :: paths[i] == policy.required[i].path;
    }
    ok := 0 < |policy.version| <= 200 && 0.0 <= policy.minimumConfidence <= 1.0 && |policy.required| <= 10000
          && (forall r :: r in policy.required ==> 0 < |r.path| <= 500 && 0 < |r.question| <= 2000) && issues == [];
  }

  method ApplyContractExtractionAbstention(fold: Text -> Text, pathOrder: (Text, Text) -> bool, x: Extraction,
                                           policy: Policy) returns (r: Option<Result>)
    ensures r.Some? <==> Accepts(fold, pathOrder, policy, x)
    ensures r.Some? ==> r.value == Result(AppliedExtraction(pathOrder, policy, x), policy.version,
                                          Notices(pathOrder, policy, x))
  {
    hide Valid;
    hide ValidPolicy;
    hide AllFieldPaths;
    hide Collect;
    hide NoticeAt;
    hide MissingFields;
    hide AppliedFields;
    hide AppliedClauses;
    hide AppliedTables;
    hide TablesEntries;
    var ok := CheckSchema(fold, x);
    if !ok { return None; }
    ok := CheckPolicy(policy);
    if !ok { return None; }
    var draft := new Draft(x);
    draft.ApplyFields(policy);
    AppliedKeepsPaths(policy, x.fields);
    ok := draft.AddMissing(policy);
    if !ok { return None; }
    draft.fields := SortBy(By(pathOrder, FieldPath()), draft.fields);
    draft.ApplyClauses(policy, PathsOf(x.fields));
    draft.ApplyTables(policy, PathsOf(x.fields));
    var applied := x.(fields := draft.fields, clauses := draft.clauses, tables := draft.tables);
    assert applied == AppliedExtraction(pathOrder, policy, x);
    ok := CheckSchema(fold, applied);
    if !ok { return None; }
    NoticesInParts(policy, x);
    assert draft.notices == Collect(Examined(policy, x), NoticeAt(policy, PathsOf(x.fields)));
    r := Some(Result(applied, policy.version, SortBy(NoticeLeq(pathOrder), draft.notices)));
  }

  lemma AppliedKeepsPaths(policy: Policy, fields: seq<Field>)
    ensures PathsOf(AppliedFields(policy, fields)) == PathsOf(fields)
  {
    assert forall i | 0 <= i < |fields| :: AppliedFields(policy, fields)[i].path == fields[i].path;
  }

  lemma NoticesInParts(policy: Policy, x: Extraction)
    ensures var f := NoticeAt(policy, PathsOf(x.fields));
            var missing := MissingFields(policy.required, PathsOf(x.fields));
            Collect(Examined(policy, x), f)
            == Collect(FieldEntries(x.fields), f) + Collect(FieldEntries(missing), f)
                + Collect(ClauseEntries(x.clauses), f) + Collect(TablesEntries(x.tables), f)
  {
    var f := NoticeAt(policy, PathsOf(x.fields));
    var a, b, c, d := FieldEntries(x.fields), FieldEntries(MissingFields(policy.required, PathsOf(x.fields))),
        ClauseEntries(x.clauses), TablesEntries(x.tables);
    hide Collect;
    hide NoticeAt;
    CollectAppends(a, b, f);
    CollectAppends(a + b, c, f);
    CollectAppends(a + b + c, d, f);
  }

  // ---- one notice for each abstention --------------------------------------------------------

  function NoticePath(): Notice -> Text { (n: Notice) => n.path }

  lemma {:induction false} MissingPathsDistinct(required: seq<Requirement>, paths: seq<Text>)
    requires forall i, j | 0 <= i < j < |required| :: required[i].path != required[j].path
    ensures DistinctFolded((t: Text) => t, PathsOf(MissingFields(required, paths)))
    decreases |required|
  {
    if required != [] {
      var n := |required| - 1;
      var before := MissingFields(required[..n], paths);
      MissingPathsDistinct(required[..n], paths);
      MissingMeaning(required[..n], paths);
      forall i | 0 <= i < |before| ensures PathsOf(before)[i] == before[i].path && before[i].path != required[n].path {
        assert before[i] in before;
        var r :| r in required[..n] && before[i] == MissingField(r);
        var j :| 0 <= j < n && required[j] == r;
      }
    }
  }

  lemma FieldsAndMissingDistinct(fold: Text -> Text, policy: Policy, fields: seq<Field>)
    requires ValidPolicy(policy) && DistinctFolded(fold, PathsOf(fields)) && AllFieldPaths(fields)
        && AllFieldPaths(MissingFields(policy.required, PathsOf(fields)))
    ensures DistinctPlaces(FieldEntries(fields) + FieldEntries(MissingFields(policy.required, PathsOf(fields))))
  {
    var paths := PathsOf(fields);
    var missing := MissingFields(policy.required, paths);
    FieldPlacesDistinct(fold, fields);
    MissingPathsDistinct(policy.required, paths);
    FieldPlacesDistinct((t: Text) => t, missing);
    MissingMeaning(policy.required, paths);
    var a, b := FieldEntries(fields), FieldEntries(missing);
    hide MissingFields;
    hide DistinctPlaces;
    forall e, f | e in a && f in b ensures e.place != f.place {
      var i :| 0 <= i < |a| && a[i] == e;
      var j :| 0 <= j < |b| && b[j] == f;
      assert paths[i] == fields[i].path;
      assert missing[j] in missing;
    }
    DistinctTogether(a, b);
  }

  lemma PlaceKinds(fields: seq<Field>, clauses: seq<Clause>)
    ensures (forall e | e in FieldEntries(fields) :: e.place.FieldAt?) && forall e | e in ClauseEntries(clauses) ::
        e.place.ClauseAt?
  {
  }

  lemma ExaminedPlacesDistinct(fold: Text -> Text, policy: Policy, x: Extraction)
    requires Valid(fold, x) && ValidPolicy(policy) && AllFieldPaths(MissingFields(policy.required, PathsOf(x.fields)))
    ensures DistinctPlaces(Examined(policy, x))
  {
    var missing := MissingFields(policy.required, PathsOf(x.fields));
    FieldsAndMissingDistinct(fold, policy, x.fields);
    ClausePlacesDistinct(fold, x.clauses);
    TablesPlacesDistinct(fold, x.tables);
    hide Valid;
    hide MissingFields;
    hide DistinctPlaces;
    PlaceKinds(x.fields, x.clauses);
    PlaceKinds(missing, x.clauses);
    hide FieldEntries;
    hide ClauseEntries;
    hide TablesEntries;
    var a := FieldEntries(x.fields) + FieldEntries(missing);
    DistinctTogether(a, ClauseEntries(x.clauses));
    DistinctTogether(a + ClauseEntries(x.clauses), TablesEntries(x.tables));
  }

  /** No two abstentions name the same path. */
  lemma NoticePathsDistinct(fold: Text -> Text, pathOrder: (Text, Text) -> bool, policy: Policy, x: Extraction)
    requires Accepts(fold, pathOrder, policy, x)
    ensures DistinctTexts(Notices(pathOrder, policy, x), NoticePath())
  {
    var es, f := Examined(policy, x), NoticeAt(policy, PathsOf(x.fields));
    ExaminedPlacesDistinct(fold, policy, x);
    forall e ensures f(e).Some? ==> NoticePath()(f(e).value) == PathOf(e.place) {
      NoticeNamesPlace(policy, PathsOf(x.fields), e);
    }
    hide *;
    CollectedApart(es, f, NoticePath());
    SortingKeepsApart(NoticeLeq(pathOrder), Collect(es, f), NoticePath());
    NoticesAre(pathOrder, policy, x);
  }

  lemma NoticesAre(pathOrder: (Text, Text) -> bool, policy: Policy, x: Extraction)
    ensures Notices(pathOrder, policy, x) == SortBy(NoticeLeq(pathOrder),
                                                    Collect(Examined(policy, x), NoticeAt(policy, PathsOf(x.fields))))
  {
  }

  lemma NoticeNamesPlace(policy: Policy, paths: seq<Text>, e: Entry)
    ensures var n := NoticeAt(policy, paths)(e); n.Some? ==> n.value.path == PathOf(e.place)
  {
    if e.place.FieldAt? { PathOfField(e.place.path); }
    hide PathOf;
    hide OrientationQuestion;
  }

  // ---- abstentions tell what became of the extraction ----------------------------------------

  /** The notice says what the entry holds: an abstention with its question, or an ambiguous orientation. */
  predicate Tells(n: Notice, e: Entry) {
    && n.path == PathOf(e.place)
    && match e.value {
         case None => e.place.OrientationAt? && n.reason == AmbiguousTableOrientation
             && n.question == OrientationQuestion(e.place.key)
         case Some(v) => v.Abstained? && n.status == v.status && n.question == v.question
       }
  }

  predicate Shaped(e: Entry) { e.value.None? ==> e.place.OrientationAt? }

  lemma {:induction false} TablesShaped(tables: seq<Table>)
    ensures forall e | e in TablesEntries(tables) :: Shaped(e)
    decreases |tables|
  {
    if tables != [] { TablesShaped(tables[..|tables| - 1]); }
  }

  lemma ExaminedShaped(policy: Policy, x: Extraction)
    ensures forall e | e in Examined(policy, x) :: Shaped(e)
  {
    TablesShaped(x.tables);
    hide TablesEntries;
    hide MissingFields;
  }

  predicate WellGrounded(policy: Policy, e: Entry) {
    e.value.Some? && e.value.value.Found? && e.value.value.confidence >= policy.minimumConfidence
  }

  function AppliedEntry(policy: Policy, e: Entry): Entry {
    if e.value.None? then e else e.(value := Some(AppliedAt(policy, e.place, e.value.value)))
  }

  /** At each place: either the value is well grounded and stays, or a notice tells what it became. */
  lemma NoticeTells(policy: Policy, paths: seq<Text>, e: Entry)
    requires Shaped(e)
    ensures var n := NoticeAt(policy, paths)(e); var after := AppliedEntry(policy, e);
            (n.None? <==> WellGrounded(policy, e)) && (n.None? ==> after == e)
                && (n.Some? ==> Tells(n.value, after) && !WellGrounded(policy, after))
  {
    NoticeNamesPlace(policy, paths, e);
    hide PathOf;
    hide OrientationQuestion;
    hide PreferredAt;
    hide PleaseVerify;
  }

  lemma AppliedFieldEntries(policy: Policy, fields: seq<Field>)
    ensures FieldEntries(AppliedFields(policy, fields)) == AppliedEntries(policy, FieldEntries(fields))
  {
    hide AppliedAt;
  }

  function AppliedEntries(policy: Policy, es: seq<Entry>): seq<Entry> {
    seq(|es|, i requires 0 <= i < |es| => AppliedEntry(policy, es[i]))
  }

  lemma AppliedClauseEntries(policy: Policy, clauses: seq<Clause>)
    ensures ClauseEntries(AppliedClauses(policy, clauses)) == AppliedEntries(policy, ClauseEntries(clauses))
  {
    hide AppliedAt;
  }

  lemma AppliedTableEntries(policy: Policy, t: Table)
    ensures TableEntries(AppliedTable(policy, t)) == AppliedEntries(policy, TableEntries(t))
  {
    hide AppliedAt;
    assert CellEntries(t.key, AppliedCells(policy, t.key, t.cells))
        == AppliedEntries(policy, CellEntries(t.key, t.cells));
  }

  lemma {:induction false} AppliedTablesEntries(policy: Policy, tables: seq<Table>)
    ensures TablesEntries(AppliedTables(policy, tables)) == AppliedEntries(policy, TablesEntries(tables))
    decreases |tables|
  {
    hide AppliedTable;
    hide AppliedEntry;
    if tables != [] {
      var n := |tables| - 1;
      AppliedTablesEntries(policy, tables[..n]);
      AppliedTableEntries(policy, tables[n]);
      hide TableEntries;
      assert AppliedTables(policy, tables)[..n] == AppliedTables(policy, tables[..n]);
    }
  }

  lemma MissingStay(policy: Policy, required: seq<Requirement>, paths: seq<Text>)
    ensures var es := FieldEntries(MissingFields(required, paths)); AppliedEntries(policy, es) == es
  {
    var missing := MissingFields(required, paths);
    MissingMeaning(required, paths);
    forall i | 0 <= i < |missing| ensures missing[i].value.Abstained? { assert missing[i] in missing; }
    hide MissingFields;
  }

  lemma SortedFieldEntries(leq: (Field, Field) -> bool, fields: seq<Field>)
    ensures forall e :: e in FieldEntries(SortBy(leq, fields)) <==> e in FieldEntries(fields)
  {
    SortKeepsMembers(leq, fields);
    FieldEntriesMembers(fields);
    FieldEntriesMembers(SortBy(leq, fields));
    hide FieldEntries;
  }

  lemma FieldEntriesMembers(fields: seq<Field>)
    ensures forall e :: e in FieldEntries(fields) <==> exists f ::
        f in fields && e == Entry(FieldAt(f.path), Some(f.value))
  {
    forall e ensures e in FieldEntries(fields) <==> exists f ::
        f in fields && e == Entry(FieldAt(f.path), Some(f.value)) {
      if f :| f in fields && e == Entry(FieldAt(f.path), Some(f.value)) {
        var i :| 0 <= i < |fields| && fields[i] == f;
        assert FieldEntries(fields)[i] == e;
      }
    }
  }

  /** The places of the new extraction are the examined ones, each with its new value. */
  lemma AppliedPlaces(pathOrder: (Text, Text) -> bool, policy: Policy, x: Extraction)
    ensures forall e :: e in Entries(AppliedExtraction(pathOrder, policy, x))
                   <==> e in AppliedEntries(policy, Examined(policy, x))
  {
    var missing := MissingFields(policy.required, PathsOf(x.fields));
    var fields := AppliedFields(policy, x.fields) + missing;
    SortedFieldEntries(By(pathOrder, FieldPath()), fields);
    assert FieldEntries(fields) == FieldEntries(AppliedFields(policy, x.fields)) + FieldEntries(missing);
    AppliedFieldEntries(policy, x.fields);
    MissingStay(policy, policy.required, PathsOf(x.fields));
    AppliedClauseEntries(policy, x.clauses);
    AppliedTablesEntries(policy, x.tables);
    AppliedParts(policy, FieldEntries(x.fields), FieldEntries(missing), ClauseEntries(x.clauses),
                 TablesEntries(x.tables));
    hide FieldEntries;
    hide ClauseEntries;
    hide TablesEntries;
    hide AppliedEntries;
    hide AppliedFields;
    hide AppliedClauses;
    hide AppliedTables;
    hide MissingFields;
  }

  lemma AppliedParts(policy: Policy, a: seq<Entry>, b: seq<Entry>, c: seq<Entry>, d: seq<Entry>)
    ensures AppliedEntries(policy, a + b + c + d) == AppliedEntries(policy, a) + AppliedEntries(policy, b)
        + AppliedEntries(policy, c) + AppliedEntries(policy, d)
  {
    hide AppliedEntry;
  }

  lemma MissingAreNotGrounded(policy: Policy, paths: seq<Text>)
    ensures forall e | e in FieldEntries(MissingFields(policy.required, paths)) :: !WellGrounded(policy, e)
  {
    var missing := MissingFields(policy.required, paths);
    MissingMeaning(policy.required, paths);
    forall i | 0 <= i < |missing| ensures missing[i].value.Abstained? { assert missing[i] in missing; }
    hide MissingFields;
  }

  /** Every value of the new extraction is either one of the old ones, grounded and confident enough, or is told by a
      notice; and every notice tells of a place of the new extraction. */
  lemma AbstentionTellsEverything(pathOrder: (Text, Text) -> bool, policy: Policy, x: Extraction)
    ensures var after, notices := Entries(AppliedExtraction(pathOrder, policy, x)), Notices(pathOrder, policy, x);
            && (forall e | e in after :: if WellGrounded(policy, e) then e in Entries(x) else exists n ::
                n in notices && Tells(n, e))
            && forall n | n in notices :: exists e :: e in after && !WellGrounded(policy, e) && Tells(n, e)
  {
    var after, notices := Entries(AppliedExtraction(pathOrder, policy, x)), Notices(pathOrder, policy, x);
    var es, f := Examined(policy, x), NoticeAt(policy, PathsOf(x.fields));
    NoticesAre(pathOrder, policy, x);
    AppliedPlaces(pathOrder, policy, x);
    MissingAreNotGrounded(policy, PathsOf(x.fields));
    ExaminedShaped(policy, x);
    assert forall e | e in es && WellGrounded(policy, e) :: e in Entries(x);
    hide *;
    CollectMeaning(es, f);
    SortKeepsMembers(NoticeLeq(pathOrder), Collect(es, f));
    forall e | e in after ensures if WellGrounded(policy, e) then e in Entries(x) else exists n ::
        n in notices && Tells(n, e) {
      var was := AppliedFrom(policy, es, e);
      NoticeTells(policy, PathsOf(x.fields), was);
      if f(was).Some? { assert f(was).value in notices; }
    }
    forall n | n in notices ensures exists e :: e in after && !WellGrounded(policy, e) && Tells(n, e) {
      var was :| was in es && f(was) == Some(n);
      NoticeTells(policy, PathsOf(x.fields), was);
      AppliedTo(policy, es, was);
      assert AppliedEntry(policy, was) in after;
    }
  }

  lemma AppliedFrom(policy: Policy, es: seq<Entry>, e: Entry) returns (was: Entry)
    requires e in AppliedEntries(policy, es)
    ensures was in es && e == AppliedEntry(policy, was)
  {
    hide AppliedEntry;
    var i :| 0 <= i < |es| && AppliedEntries(policy, es)[i] == e;
    was := es[i];
  }

  lemma AppliedTo(policy: Policy, es: seq<Entry>, was: Entry)
    requires was in es
    ensures AppliedEntry(policy, was) in AppliedEntries(policy, es)
  {
    hide AppliedEntry;
    var i :| 0 <= i < |es| && es[i] == was;
    assert AppliedEntries(policy, es)[i] == AppliedEntry(policy, was);
  }
}
