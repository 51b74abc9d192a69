/** A contract extraction and the path of every value in it. */
module ExtractionPaths {
  import opened JsonText
  import opened Rectangles
  import opened Sorting
  import opened Sums
  import opened Texts

  // Its schema, src/modules/contracts/contract-extraction-schema.ts, and `flattenExtraction` of
  // src/modules/contracts/persist-contract-extraction.ts.

  datatype Citation = Citation(pageNumber: nat, excerpt: Text)

  datatype Status = NotFound | Ambiguous

  /** A value grounded in the source, or an abstention with a question. */
  datatype Extracted =
    | Found(rawText: Text, normalizedValue: Option<Text>, confidence: real, citations: seq<Citation>)
    | Abstained(status: Status, raw: Option<Text>, confidence: real, citations: seq<Citation>, question: Text)

  datatype SemanticType = TextType | DateType | DecimalType | PercentageType | CurrencyType | DurationType
      | IdentifierType

  datatype Field = Field(path: Text, semanticType: SemanticType, value: Extracted)

  datatype Clause = Clause(reference: Text, title: Option<Text>, text: Extracted)

  datatype Cell = Cell(row: nat, column: nat, rowSpan: nat, columnSpan: nat, value: Extracted)

  datatype Orientation = RowBrackets | ColumnBrackets | AmbiguousOrientation

  datatype Table = Table(key: Text, title: Extracted, orientation: Orientation, rowCount: nat, columnCount: nat,
                         cells: seq<Cell>)

  datatype Extraction = Extraction(sourceSha256: Text, modelId: Text, promptVersion: Text, fields: seq<Field>,
                                   clauses: seq<Clause>, tables: seq<Table>)

  // ---- the schema ----------------------------------------------------------------------------

  const DASH: Unit := 45
  const UNDERSCORE: Unit := 95

  predicate IsLower(c: Unit) { 97 <= c <= 122 }

  predicate IsWord(c: Unit) { IsLower(c) || 65 <= c <= 90 || IsDigit(c) || c == UNDERSCORE }

  /** `^[a-z][a-zA-Z0-9_]*(?:\[(?:\d+|[a-zA-Z0-9_-]+)\]|\.[a-z][a-zA-Z0-9_]*)*$` */
  predicate IsFieldPath(t: Text) { t != [] && IsLower(t[0]) && IsPathTail(t[1..]) }

  predicate IsPathTail(t: Text)
    decreases |t|
  {
    || t == []
    || (IsWord(t[0]) && IsPathTail(t[1..]))
    || (t[0] == DOT && |t| > 1 && IsLower(t[1]) && IsPathTail(t[2..]))
    || (t[0] == OPEN_BRACKET && |t| > 1 && InBracket(t[1]) && IsBracketTail(t[2..]))
  }

  predicate InBracket(c: Unit) { IsWord(c) || c == DASH }

  predicate IsBracketTail(t: Text)
    decreases |t|
  {
    t != [] && ((InBracket(t[0]) && IsBracketTail(t[1..])) || (t[0] == CLOSE_BRACKET && IsPathTail(t[1..])))
  }

  /** `^[a-z][a-z0-9_-]*$` */
  predicate IsTableKey(t: Text) {
    t != [] && IsLower(t[0]) &&
        forall i | 0 <= i < |t| :: IsLower(t[i]) || IsDigit(t[i]) || t[i] == UNDERSCORE || t[i] == DASH
  }

  function Area(c: Cell): Rectangle { Rectangle(c.row, c.column, c.rowSpan, c.columnSpan) }

  predicate Fits(t: Table, c: Cell) { Inside(Area(c), t.rowCount, t.columnCount) }

  /** A coordinate of the cell. */
  predicate Covers(c: Cell, x: (int, int)) { Covered(Area(c), x.0, x.1) }

  /** A coordinate of one of the first `n` cells that are in bounds. */
  predicate Taken(t: Table, n: nat, x: (int, int))
    requires n <= |t.cells|
  {
    exists i | 0 <= i < n :: Fits(t, t.cells[i]) && Covers(t.cells[i], x)
  }

  /** A coordinate of the cell before (row, column) in reading order. */
  predicate Passed(c: Cell, row: int, column: int, x: (int, int)) {
    Covers(c, x) && (x.0 < row || (x.0 == row && x.1 < column))
  }

  /** The rectangle of one cell, coordinate by coordinate: is any of it taken? */
  method Occupy(t: Table, n: nat, before: set<(int, int)>) returns (occupied: set<(int, int)>, hit: bool)
    requires n < |t.cells| && Fits(t, t.cells[n]) && forall x :: x in before <==> Taken(t, n, x)
    ensures forall x :: x in occupied <==> Taken(t, n, x) || Covers(t.cells[n], x)
    ensures hit <==> exists x :: Taken(t, n, x) && Covers(t.cells[n], x)
  {
    hide Taken;
    var c := t.cells[n];
    occupied, hit := before, false;
    var row: int := c.row;
    while row < c.row + c.rowSpan
      invariant c.row <= row <= c.row + c.rowSpan
      invariant forall x :: x in occupied <==> Taken(t, n, x) || Passed(c, row, c.column, x)
      invariant hit <==> exists x :: Taken(t, n, x) && Passed(c, row, c.column, x)
    {
      var column: int := c.column;
      while column < c.column + c.columnSpan
        invariant c.column <= column <= c.column + c.columnSpan
        invariant forall x :: x in occupied <==> Taken(t, n, x) || Passed(c, row, column, x)
        invariant hit <==> exists x :: Taken(t, n, x) && Passed(c, row, column, x)
      {
        var coordinate := (row, column);
        ghost var next := column + 1;
        assert forall x :: Passed(c, row, next, x) <==> Passed(c, row, column, x) || x == coordinate;
        if coordinate in occupied { hit := true; }
        occupied := occupied + {coordinate};
        column := column + 1;
      }
      ghost var next := row + 1;
      assert forall x :: Passed(c, next, c.column, x) <==> Passed(c, row, column, x);
      row := row + 1;
    }
    assert forall x :: Passed(c, row, c.column, x) <==> Covers(c, x);
  }

  /** The cell is out of bounds, or lies on a coordinate of an earlier cell. */
  ghost predicate Misplaced(t: Table, j: nat)
    requires j < |t.cells|
  {
    !Fits(t, t.cells[j]) || exists x :: Taken(t, j, x) && Covers(t.cells[j], x)
  }

  /** The table refinement: the cells with an issue. */
  method MisplacedCells(t: Table) returns (issues: seq<nat>)
    ensures forall j: nat :: j in issues <==> j < |t.cells| && Misplaced(t, j)
  {
    issues := [];
    var occupied: set<(int, int)> := {};
    for n := 0 to |t.cells|
      invariant forall x :: x in occupied <==> Taken(t, n, x)
      invariant forall j: nat :: j in issues <==> j < n && Misplaced(t, j)
    {
      ghost var next := n + 1;
      assert forall x :: Taken(t, next, x) <==> Taken(t, n, x) || (Fits(t, t.cells[n]) && Covers(t.cells[n], x));
      if !Fits(t, t.cells[n]) {
        issues := issues + [n];
        continue;
      }
      var hit;
      occupied, hit := Occupy(t, n, occupied);
      if hit { issues := issues + [n]; }
    }
  }

  predicate TableShape(t: Table) {
    && IsTableKey(t.key) && |t.key| <= 300 && 0 < t.rowCount <= 100000 && 0 < t.columnCount <= 10000
        && |t.cells| <= 250000
    && forall c | c in t.cells :: 0 < c.rowSpan <= 10000 && 0 < c.columnSpan <= 10000
  }

  ghost predicate SoundTable(t: Table) { TableShape(t) && forall j: nat | j < |t.cells| :: !Misplaced(t, j) }

  /** In a sound table no two cells start at one coordinate. */
  lemma CellsStartApart(t: Table, i: nat, j: nat)
    requires SoundTable(t) && i < j < |t.cells|
    ensures t.cells[i].row != t.cells[j].row || t.cells[i].column != t.cells[j].column
  {
    var x := (t.cells[j].row, t.cells[j].column);
    assert t.cells[i] in t.cells && t.cells[j] in t.cells;
    assert !Misplaced(t, i) && !Misplaced(t, j);
    assert Covers(t.cells[j], x);
  }

  /** The name at `j`, folded, has occurred before. */
  predicate Repeated(fold: Text -> Text, values: seq<Text>, j: nat) {
    j < |values| && exists i | 0 <= i < j :: fold(values[i]) == fold(values[j])
  }

  /** The refinement on names: the positions of repeated names. `fold` is NFKC and lower case. */
  method RejectDuplicates(fold: Text -> Text, values: seq<Text>) returns (issues: seq<nat>)
    ensures forall j: nat :: j in issues <==> Repeated(fold, values, j)
  {
    issues := [];
    var seen: set<Text> := {};
    for n := 0 to |values|
      invariant forall i | 0 <= i < n :: fold(values[i]) in seen
      invariant forall k | k in seen :: exists i | 0 <= i < n :: fold(values[i]) == k
      invariant forall j: nat :: j in issues <==> j < n && Repeated(fold, values, j)
    {
      var canonical := fold(values[n]);
      if canonical in seen { issues := issues + [n]; }
      seen := seen + {canonical};
    }
  }

  predicate DistinctFolded(fold: Text -> Text, values: seq<Text>) {
    forall i, j | 0 <= i < j < |values| :: fold(values[i]) != fold(values[j])
  }

  function PathsOf(fields: seq<Field>): seq<Text> { seq(|fields|, i requires 0 <= i < |fields| => fields[i].path) }

  function ReferencesOf(clauses: seq<Clause>): seq<Text> {
    seq(|clauses|, i requires 0 <= i < |clauses| => clauses[i].reference)
  }

  function KeysOf(tables: seq<Table>): seq<Text> { seq(|tables|, i requires 0 <= i < |tables| => tables[i].key) }

  predicate GoodQuestion(v: Extracted) { v.Abstained? ==> 0 < |v.question| <= 2000 }

  predicate FieldShape(f: Field) { IsFieldPath(f.path) && |f.path| <= 500 && GoodQuestion(f.value) }

  predicate ClauseShape(c: Clause) { 0 < |c.reference| <= 300 && GoodQuestion(c.text) }

  predicate QuestionsShape(t: Table) { GoodQuestion(t.title) && forall c | c in t.cells :: GoodQuestion(c.value) }

  ghost predicate Valid(fold: Text -> Text, x: Extraction) {
    && |x.fields| <= 10000 && |x.clauses| <= 10000 && |x.tables| <= 1000
    && (forall f | f in x.fields :: FieldShape(f)) && (forall c | c in x.clauses :: ClauseShape(c))
    && (forall t | t in x.tables :: SoundTable(t) && QuestionsShape(t))
    && DistinctFolded(fold, PathsOf(x.fields)) && DistinctFolded(fold, ReferencesOf(x.clauses))
        && DistinctFolded(fold, KeysOf(x.tables))
  }

  method CheckSchema(fold: Text -> Text, x: Extraction) returns (ok: bool)
    ensures ok <==> Valid(fold, x)
  {
    hide Misplaced;
    hide FieldShape;
    hide ClauseShape;
    hide TableShape;
    hide QuestionsShape;
    hide DistinctFolded;
    var refined := Refine(fold, x);
    ok := |x.fields| <= 10000 && |x.clauses| <= 10000 && |x.tables| <= 1000
          && (forall f :: f in x.fields ==> FieldShape(f)) && (forall c :: c in x.clauses ==> ClauseShape(c))
          && (forall t :: t in x.tables ==> TableShape(t) && QuestionsShape(t)) && refined;
  }

  /** The two kinds of refinement over a whole extraction. */
  method Refine(fold: Text -> Text, x: Extraction) returns (ok: bool)
    ensures ok <==> && DistinctFolded(fold, PathsOf(x.fields))
                    && DistinctFolded(fold, ReferencesOf(x.clauses))
                    && DistinctFolded(fold, KeysOf(x.tables))
                    && forall t | t in x.tables :: forall j: nat | j < |t.cells| :: !Misplaced(t, j)
  {
    ok := true;
    for n := 0 to |x.tables|
      invariant ok <==> forall t | t in x.tables[..n] :: forall j: nat | j < |t.cells| :: !Misplaced(t, j)
    {
      var t := x.tables[n];
      var issues := MisplacedCells(t);
      assert x.tables[..n + 1] == x.tables[..n] + [t];
      assert issues == [] <==> forall j: nat | j < |t.cells| :: !Misplaced(t, j) by {
        if issues != [] { assert issues[0] in issues; }
      }
      ok := ok && issues == [];
    }
    assert x.tables[..|x.tables|] == x.tables;
    var fields := RejectDuplicates(fold, PathsOf(x.fields));
    var clauses := RejectDuplicates(fold, ReferencesOf(x.clauses));
    var tables := RejectDuplicates(fold, KeysOf(x.tables));
    NoIssues(fold, PathsOf(x.fields), fields);
    NoIssues(fold, ReferencesOf(x.clauses), clauses);
    NoIssues(fold, KeysOf(x.tables), tables);
    ok := ok && fields == [] && clauses == [] && tables == [];
  }

  lemma NoIssues(fold: Text -> Text, values: seq<Text>, issues: seq<nat>)
    requires forall j: nat :: j in issues <==> Repeated(fold, values, j)
    ensures issues == [] <==> DistinctFolded(fold, values)
  {
    if issues != [] { assert issues[0] in issues; }
    if !DistinctFolded(fold, values) {
      var i, j :| 0 <= i < j < |values| && fold(values[i]) == fold(values[j]);
      assert Repeated(fold, values, j);
    }
  }

  // ---- paths ---------------------------------------------------------------------------------

  /** What a path names. */
  datatype Place = FieldAt(path: Text) | ClauseAt(reference: Text) | TitleAt(key: Text)
      | CellAt(key: Text, row: nat, column: nat) | OrientationAt(key: Text)

  /** Paths other than field paths are a word, a quoted name and what follows. */
  function PathOf(p: Place): Text {
    match p
    case FieldAt(path) => path
    case ClauseAt(reference) => Ascii("clauses[") + (Quote(reference) + Ascii("].text"))
    case _ => Ascii("rateTables[") + (Quote(p.key) + After(p))
  }

  function After(p: Place): Text
    requires p.TitleAt? || p.CellAt? || p.OrientationAt?
  {
    match p
    case TitleAt(key) => Ascii("].title")
    case CellAt(key, row, column) => Ascii("].cells[") + (NatText(row) + [COMMA] + NatText(column) + Ascii("]"))
    case OrientationAt(key) => Ascii("].orientation")
  }

  /** A place a schema-valid extraction can have. */
  predicate GoodPlace(p: Place) { p.FieldAt? ==> IsFieldPath(p.path) }

  lemma {:induction false} PathHasNoQuote(t: Text)
    ensures IsPathTail(t) || IsBracketTail(t) ==> QUOTE !in t
    decreases |t|
  {
    if t != [] {
      PathHasNoQuote(t[1..]);
      assert t == [t[0]] + t[1..];
      if |t| > 1 {
        PathHasNoQuote(t[2..]);
        assert t == [t[0], t[1]] + t[2..];
      }
    }
  }

  lemma AfterTells(p: Place, q: Place)
    requires (p.TitleAt? || p.CellAt? || p.OrientationAt?) && (q.TitleAt? || q.CellAt? || q.OrientationAt?)
    requires p.key == q.key && After(p) == After(q)
    ensures p == q
  {
    assert After(p)[2] == After(q)[2];
    if p.CellAt? && q.CellAt? {
      var head, tail := Ascii("].cells["), Ascii("]");
      CancelPrefix(head, NatText(p.row) + [COMMA] + NatText(p.column) + tail, head,
                   NatText(q.row) + [COMMA] + NatText(q.column) + tail);
      CancelSuffix(NatText(p.row) + [COMMA] + NatText(p.column), tail, NatText(q.row) + [COMMA] + NatText(q.column),
                   tail);
      CutAt(COMMA, NatText(p.row), NatText(p.column), NatText(q.row), NatText(q.column));
      NatTextInjective(p.row, q.row);
      NatTextInjective(p.column, q.column);
    }
  }

  lemma NotAField(p: Place)
    requires !p.FieldAt?
    ensures QUOTE in PathOf(p)
  {
    var word := if p.ClauseAt? then Ascii("clauses[") else Ascii("rateTables[");
    assert PathOf(p)[|word|] == QUOTE;
  }

  /** A path names one place only. */
  lemma PathsTellPlaces(p: Place, q: Place)
    requires GoodPlace(p) && GoodPlace(q) && PathOf(p) == PathOf(q)
    ensures p == q
  {
    hide Quote;
    if p.FieldAt? || q.FieldAt? {
      FieldOrNot(p, q);
    } else if p.ClauseAt? || q.ClauseAt? {
      assert PathOf(p)[0] == PathOf(q)[0];
      var word, rest := Ascii("clauses["), Ascii("].text");
      CancelPrefix(word, Quote(p.reference) + rest, word, Quote(q.reference) + rest);
      QuoteCancel(p.reference, rest, q.reference, rest);
    } else {
      var word := Ascii("rateTables[");
      CancelPrefix(word, Quote(p.key) + After(p), word, Quote(q.key) + After(q));
      QuoteCancel(p.key, After(p), q.key, After(q));
      AfterTells(p, q);
    }
  }

  lemma FieldOrNot(p: Place, q: Place)
    requires GoodPlace(p) && GoodPlace(q) && PathOf(p) == PathOf(q) && (p.FieldAt? || q.FieldAt?)
    ensures p == q
  {
    var path := PathOf(p);
    assert QUOTE !in path by {
      var tail := path[1..];
      PathHasNoQuote(tail);
      assert path == [path[0]] + tail;
    }
    if !p.FieldAt? { NotAField(p); }
    if !q.FieldAt? { NotAField(q); }
  }

  // ---- the places of an extraction -----------------------------------------------------------

  /** A value at its place; an ambiguous orientation has a place and no value. */
  datatype Entry = Entry(place: Place, value: Option<Extracted>)

  function FieldEntries(fields: seq<Field>): seq<Entry> {
    seq(|fields|, i requires 0 <= i < |fields| => Entry(FieldAt(fields[i].path), Some(fields[i].value)))
  }

  function ClauseEntries(clauses: seq<Clause>): seq<Entry> {
    seq(|clauses|, i requires 0 <= i < |clauses| => Entry(ClauseAt(clauses[i].reference), Some(clauses[i].text)))
  }

  function CellEntries(key: Text, cells: seq<Cell>): seq<Entry> {
    seq(|cells|, i requires 0 <= i < |cells| => Entry(CellAt(key, cells[i].row, cells[i].column), Some(cells[i].value)))
  }

  function TableEntries(t: Table): seq<Entry> {
    [Entry(TitleAt(t.key), Some(t.title))] + CellEntries(t.key, t.cells) + if t.orientation.AmbiguousOrientation?
        then [Entry(OrientationAt(t.key), None)] else []
  }

  function TablesEntries(tables: seq<Table>): seq<Entry> {
    if tables == [] then [] else TablesEntries(tables[..|tables| - 1]) + TableEntries(tables[|tables| - 1])
  }

  function Entries(x: Extraction): seq<Entry> {
    FieldEntries(x.fields) + ClauseEntries(x.clauses) + TablesEntries(x.tables)
  }

  predicate DistinctPlaces(es: seq<Entry>) {
    && (forall i, j | 0 <= i < j < |es| :: es[i].place != es[j].place)
    && forall e | e in es :: GoodPlace(e.place)
  }

  lemma DistinctTogether(a: seq<Entry>, b: seq<Entry>)
    requires DistinctPlaces(a) && DistinctPlaces(b) && forall e, f | e in a && f in b :: e.place != f.place
    ensures DistinctPlaces(a + b)
  {
    forall i, j | 0 <= i < j < |a + b| ensures (a + b)[i].place != (a + b)[j].place {
      if i < |a| <= j { assert a[i] in a && b[j - |a|] in b; }
    }
  }

  /** Whose key the entry's place carries. */
  predicate InTable(e: Entry, key: Text) {
    (e.place.TitleAt? || e.place.CellAt? || e.place.OrientationAt?) && e.place.key == key
  }

  lemma TablePlacesDistinct(t: Table)
    requires SoundTable(t)
    ensures DistinctPlaces(TableEntries(t)) && forall e | e in TableEntries(t) :: InTable(e, t.key)
  {
    var cells := CellEntries(t.key, t.cells);
    forall i, j | 0 <= i < j < |cells| ensures cells[i].place != cells[j].place { CellsStartApart(t, i, j); }
    assert DistinctPlaces(cells);
    var title := [Entry(TitleAt(t.key), Some(t.title))];
    DistinctTogether(title, cells);
    if t.orientation.AmbiguousOrientation? { DistinctTogether(title + cells, [Entry(OrientationAt(t.key), None)]); }
  }

  lemma {:induction false} TablesPlacesDistinct(fold: Text -> Text, tables: seq<Table>)
    requires (forall t | t in tables :: SoundTable(t)) && DistinctFolded(fold, KeysOf(tables))
    ensures DistinctPlaces(TablesEntries(tables))
    ensures forall e | e in TablesEntries(tables) :: exists t :: t in tables && InTable(e, t.key)
    decreases |tables|
  {
    if tables != [] {
      var n := |tables| - 1;
      var rest, last := tables[..n], tables[n];
      assert KeysOf(rest) == KeysOf(tables)[..n];
      TablesPlacesDistinct(fold, rest);
      TablePlacesDistinct(last);
      hide SoundTable;
      hide TableEntries;
      var before, here := TablesEntries(rest), TableEntries(last);
      forall e, f | e in before && f in here ensures e.place != f.place {
        var t :| t in rest && InTable(e, t.key);
        var i :| 0 <= i < n && tables[i] == t;
        assert KeysOf(tables)[i] == t.key && KeysOf(tables)[n] == last.key;
      }
      DistinctTogether(before, here);
      forall e | e in before + here ensures exists t :: t in tables && InTable(e, t.key) {
        if e in before {
          var t :| t in rest && InTable(e, t.key);
          assert t in tables;
        } else {
          assert InTable(e, last.key);
        }
      }
    }
  }

  /** Every place of a valid extraction occurs once. */
  lemma PlacesDistinct(fold: Text -> Text, x: Extraction)
    requires Valid(fold, x)
    ensures DistinctPlaces(Entries(x))
  {
    var fields, clauses := FieldEntries(x.fields), ClauseEntries(x.clauses);
    FieldPlacesDistinct(fold, x.fields);
    ClausePlacesDistinct(fold, x.clauses);
    TablesPlacesDistinct(fold, x.tables);
    DistinctTogether(fields, clauses);
    DistinctTogether(fields + clauses, TablesEntries(x.tables));
  }

  lemma ClausePlacesDistinct(fold: Text -> Text, clauses: seq<Clause>)
    requires DistinctFolded(fold, ReferencesOf(clauses))
    ensures DistinctPlaces(ClauseEntries(clauses))
  {
    var es := ClauseEntries(clauses);
    forall i, j | 0 <= i < j < |es| ensures es[i].place != es[j].place {
      assert ReferencesOf(clauses)[i] == clauses[i].reference && ReferencesOf(clauses)[j] == clauses[j].reference;
    }
  }

  lemma FieldPlacesDistinct(fold: Text -> Text, fields: seq<Field>)
    requires DistinctFolded(fold, PathsOf(fields)) && forall f | f in fields :: IsFieldPath(f.path)
    ensures DistinctPlaces(FieldEntries(fields))
  {
    var es := FieldEntries(fields);
    forall i, j | 0 <= i < j < |es| ensures es[i].place != es[j].place {
      assert PathsOf(fields)[i] == fields[i].path && PathsOf(fields)[j] == fields[j].path;
    }
    forall e | e in es ensures GoodPlace(e.place) {
      var i :| 0 <= i < |es| && es[i] == e;
      assert fields[i] in fields;
    }
  }

  // ---- collecting by place -------------------------------------------------------------------

  /** What `f` makes of the entries, in order. */
  function Collect<T>(es: seq<Entry>, f: Entry -> Option<T>): seq<T> {
    if es == [] then []
    else
      var last := f(es[|es| - 1]);
      Collect(es[..|es| - 1], f) + if last.Some? then [last.value] else []
  }

  lemma {:induction false} CollectAppends<T>(a: seq<Entry>, b: seq<Entry>, f: Entry -> Option<T>)
    ensures Collect(a + b, f) == Collect(a, f) + Collect(b, f)
    decreases |b|
  {
    if b == [] {
      assert a + b == a;
    } else {
      var n := |b| - 1;
      assert (a + b)[..|a| + n] == a + b[..n] && (a + b)[|a| + n] == b[n];
      CollectAppends(a, b[..n], f);
    }
  }

  lemma CollectOne<T>(e: Entry, f: Entry -> Option<T>)
    ensures Collect([e], f) == if f(e).Some? then [f(e).value] else []
  {
    assert [e][..0] == [];
  }

  lemma {:induction false} CollectMeaning<T(!new)>(es: seq<Entry>, f: Entry -> Option<T>)
    ensures forall x :: x in Collect(es, f) <==> exists e :: e in es && f(e) == Some(x)
    decreases |es|
  {
    if es != [] {
      var n := |es| - 1;
      CollectMeaning(es[..n], f);
      assert es == es[..n] + [es[n]];
    }
  }

  predicate DistinctTexts<T>(xs: seq<T>, text: T -> Text) {
    forall i, j | 0 <= i < j < |xs| :: text(xs[i]) != text(xs[j])
  }

  /** Things collected under the paths of distinct places have distinct paths. */
  lemma {:induction false} CollectedApart<T(!new)>(es: seq<Entry>, f: Entry -> Option<T>, text: T -> Text)
    requires DistinctPlaces(es) && forall e | e in es :: f(e).Some? ==> text(f(e).value) == PathOf(e.place)
    ensures DistinctTexts(Collect(es, f), text)
    decreases |es|
  {
    if es != [] {
      var n := |es| - 1;
      CollectedApart(es[..n], f, text);
      CollectMeaning(es[..n], f);
      hide PathOf;
      var before, last := Collect(es[..n], f), f(es[n]);
      if last.Some? {
        forall i | 0 <= i < |before| ensures text(before[i]) != text(last.value) {
          assert before[i] in before;
          var e :| e in es[..n] && f(e) == Some(before[i]);
          var k :| 0 <= k < n && es[k] == e;
          if PathOf(es[k].place) == PathOf(es[n].place) { PathsTellPlaces(es[k].place, es[n].place); }
        }
      }
    }
  }

  lemma SortingKeepsApart<T(!new)>(leq: (T, T) -> bool, xs: seq<T>, text: T -> Text)
    requires DistinctTexts(xs, text)
    ensures DistinctTexts(SortBy(leq, xs), text)
  {
    var sorted := SortBy(leq, xs);
    SortKeepsMultiset(leq, xs);
    var p := FindPermutation(sorted, xs);
    forall i, j | 0 <= i < j < |sorted| ensures text(sorted[i]) != text(sorted[j]) {
      assert sorted[i] == xs[p[i]] && sorted[j] == xs[p[j]] && p[i] != p[j];
    }
  }

  lemma TablesStep<T>(head: seq<Entry>, tables: seq<Table>, i: nat, f: Entry -> Option<T>)
    requires i < |tables|
    ensures Collect(head + TablesEntries(tables[..i + 1]), f) == Collect(head + TablesEntries(tables[..i]), f)
        + Collect(TableEntries(tables[i]), f)
  {
    hide TableEntries;
    assert tables[..i + 1][..i] == tables[..i];
    var before, here := head + TablesEntries(tables[..i]), TableEntries(tables[i]);
    assert head + TablesEntries(tables[..i + 1]) == before + here;
    hide Collect;
    CollectAppends(before, here, f);
  }

  lemma FirstTablesStep<T>(tables: seq<Table>, i: nat, f: Entry -> Option<T>)
    requires i < |tables|
    ensures Collect(TablesEntries(tables[..i + 1]), f) == Collect(TablesEntries(tables[..i]), f)
        + Collect(TableEntries(tables[i]), f)
  {
    TablesStep([], tables, i, f);
    hide TableEntries;
    hide TablesEntries;
    hide Collect;
    assert [] + TablesEntries(tables[..i]) == TablesEntries(tables[..i])
        && [] + TablesEntries(tables[..i + 1]) == TablesEntries(tables[..i + 1]);
  }

  // ---- flattening ----------------------------------------------------------------------------

  datatype Row = Row(path: Text, value: Extracted)

  function RowPath(): Row -> Text { (r: Row) => r.path }

  function AsRow(): Entry -> Option<Row> {
    (e: Entry) => if e.value.Some? then Some(Row(PathOf(e.place), e.value.value)) else None
  }

  function Flattened(pathOrder: (Text, Text) -> bool, x: Extraction): seq<Row> {
    SortBy(By(pathOrder, RowPath()), Collect(Entries(x), AsRow()))
  }

  method FlattenExtraction(pathOrder: (Text, Text) -> bool, x: Extraction) returns (rows: seq<Row>)
    ensures rows == Flattened(pathOrder, x)
  {
    hide AsRow;
    hide TableEntries;
    rows := seq(|x.fields|, i requires 0 <= i < |x.fields| => Row(x.fields[i].path, x.fields[i].value));
    FieldRows(x.fields);
    var clauses := ClauseRows(x.clauses);
    rows := rows + clauses;
    ghost var head := FieldEntries(x.fields) + ClauseEntries(x.clauses);
    CollectAppends(FieldEntries(x.fields), ClauseEntries(x.clauses), AsRow());
    var i := 0;
    assert head + TablesEntries(x.tables[..i]) == head;
    hide TablesEntries;
    hide Collect;
    while i < |x.tables|
      invariant 0 <= i <= |x.tables|
      invariant rows == Collect(head + TablesEntries(x.tables[..i]), AsRow())
    {
      var table := x.tables[i];
      var more := TableRows(table);
      rows := rows + more;
      TablesStep(head, x.tables, i, AsRow());
      i := i + 1;
    }
    assert x.tables[..|x.tables|] == x.tables;
    rows := SortBy(By(pathOrder, RowPath()), rows);
  }

  method ClauseRows(clauses: seq<Clause>) returns (rows: seq<Row>)
    ensures rows == Collect(ClauseEntries(clauses), AsRow())
  {
    hide PathOf;
    rows := [];
    var i := 0;
    while i < |clauses|
      invariant 0 <= i <= |clauses| && rows == Collect(ClauseEntries(clauses[..i]), AsRow())
    {
      var clause := clauses[i];
      var place := ClauseAt(clause.reference);
      rows := rows + [Row(PathOf(place), clause.text)];
      assert ClauseEntries(clauses[..i + 1])[..i] == ClauseEntries(clauses[..i]);
      assert ClauseEntries(clauses[..i + 1])[i] == Entry(place, Some(clause.text));
      i := i + 1;
    }
    assert clauses[..|clauses|] == clauses;
  }

  lemma {:induction false} FieldRows(fields: seq<Field>)
    ensures Collect(FieldEntries(fields), AsRow())
        == seq(|fields|, i requires 0 <= i < |fields| => Row(fields[i].path, fields[i].value))
    decreases |fields|
  {
    if fields != [] {
      var n := |fields| - 1;
      FieldRows(fields[..n]);
      assert FieldEntries(fields)[..n] == FieldEntries(fields[..n]);
    }
  }

  method TableRows(table: Table) returns (rows: seq<Row>)
    ensures rows == Collect(TableEntries(table), AsRow())
  {
    hide PathOf;
    var title := Entry(TitleAt(table.key), Some(table.title));
    rows := [Row(PathOf(title.place), table.title)];
    ghost var done := [title];
    assert done[..0] == [];
    var i := 0;
    while i < |table.cells|
      invariant 0 <= i <= |table.cells| && done == [title] + CellEntries(table.key, table.cells[..i])
      invariant rows == Collect(done, AsRow())
    {
      var cell := table.cells[i];
      var entry := Entry(CellAt(table.key, cell.row, cell.column), Some(cell.value));
      rows := rows + [Row(PathOf(entry.place), cell.value)];
      assert (done + [entry])[..|done|] == done;
      assert CellEntries(table.key, table.cells[..i + 1]) == CellEntries(table.key, table.cells[..i]) + [entry];
      done := done + [entry];
      i := i + 1;
    }
    assert table.cells[..|table.cells|] == table.cells;
    if table.orientation.AmbiguousOrientation? {
      var last := Entry(OrientationAt(table.key), None);
      assert (done + [last])[..|done|] == done;
      assert TableEntries(table) == done + [last];
    } else {
      assert TableEntries(table) == done;
    }
  }

  /** The rows of a valid extraction: one for each value, under pairwise distinct paths. */
  lemma FlattenedPathsDistinct(fold: Text -> Text, pathOrder: (Text, Text) -> bool, x: Extraction)
    requires Valid(fold, x)
    ensures DistinctTexts(Flattened(pathOrder, x), RowPath())
    ensures forall r ::
              r in Flattened(pathOrder, x)
              <==> exists e :: e in Entries(x) && e.value == Some(r.value) && PathOf(e.place) == r.path
  {
    PlacesDistinct(fold, x);
    hide Valid;
    hide Entries;
    hide PathOf;
    var rows := Collect(Entries(x), AsRow());
    CollectedApart(Entries(x), AsRow(), RowPath());
    SortingKeepsApart(By(pathOrder, RowPath()), rows, RowPath());
    SortKeepsMembers(By(pathOrder, RowPath()), rows);
    CollectMeaning(Entries(x), AsRow());
    forall r ensures r in rows
       <==> exists e :: e in Entries(x) && e.value == Some(r.value) && PathOf(e.place) == r.path {
      if e :| e in Entries(x) && e.value == Some(r.value) && PathOf(e.place) == r.path { assert AsRow()(e) == Some(r); }
    }
  }
}
