/** The verdict on a rate table: src/modules/contracts/validate-rate-table.ts. */
module RateTableChecks {
  import opened Reassembly
  import opened Rectangles
  import opened Sorting
  import opened Sums
  import opened Texts

  /** How texts are read: exact decimals, emptiness, numeric look and the number of bracket words. */
  datatype Reading = Reading(parse: Text -> Option<real>, blank: Text -> bool, looksNumeric: Text -> bool,
                             terms: Text -> nat)

  datatype Orientation = RowBrackets | ColumnBrackets

  /** Cells are named by their position in the table. */
  datatype Issue =
    | CellOutOfBounds(cell: nat)
    | EmptyValue(cell: nat)
    | InvalidNumericValue(cell: nat)
    | OverlappingCells(prior: nat, cell: nat, row: int, column: int)
    | BracketsNotFound
    | AmbiguousOrientation
    | NonMonotonicBrackets

  datatype Candidate = Candidate(orientation: Orientation, axis: nat, cells: seq<PlacedCell>, values: seq<real>,
                                 headerScore: nat)

  datatype Verdict = Verdict(valid: bool, selected: Option<Candidate>, issues: seq<Issue>)

  datatype Outcome = SchemaError | Validated(verdict: Verdict)

  // ---- occupancy -----------------------------------------------------------------------------

  predicate Fits(t: PlacedTable, i: nat)
    requires i < |t.cells|
  {
    Inside(Area(t.cells[i]), t.rowCount, t.columnCount)
  }

  function Area(c: PlacedCell): Rectangle { Rectangle(c.row, c.column, c.rowSpan, c.columnSpan) }

  predicate Covers(c: PlacedCell, row: int, column: int) { Covered(Area(c), row, column) }

  /** An in-bounds cell on a coordinate. */
  predicate On(t: PlacedTable, i: nat, row: int, column: int) {
    i < |t.cells| && Fits(t, i) && Covers(t.cells[i], row, column)
  }

  predicate First(t: PlacedTable, i: nat, row: int, column: int) {
    On(t, i, row, column) && forall j: nat | j < i :: !On(t, j, row, column)
  }

  /** The loops have passed cell `i` on this coordinate, being at `(atRow, atColumn)` of cell `n`. */
  predicate Reached(t: PlacedTable, n: nat, atRow: int, atColumn: int, i: nat, row: int, column: int) {
    On(t, i, row, column) && (i < n || (i == n && (row < atRow || (row == atRow && column < atColumn))))
  }

  ghost predicate Occupied(t: PlacedTable, occupied: map<(int, int), nat>, n: nat, atRow: int, atColumn: int) {
    && (forall row, column | (row, column) in occupied ::
         Reached(t, n, atRow, atColumn, occupied[(row, column)], row, column)
             && First(t, occupied[(row, column)], row, column))
    && forall i: nat, row, column | Reached(t, n, atRow, atColumn, i, row, column) :: (row, column) in occupied
  }

  ghost predicate OverlapsReported(t: PlacedTable, issues: seq<Issue>, n: nat, atRow: int, atColumn: int) {
    forall a: nat, b: nat, row, column :: OverlappingCells(a, b, row, column) in issues
      <==> a < b && Reached(t, n, atRow, atColumn, b, row, column) && First(t, a, row, column)
  }

  /** Only overlaps were added. */
  predicate OverlapsAdded(before: seq<Issue>, issues: seq<Issue>) {
    before <= issues && forall i | |before| <= i < |issues| :: issues[i].OverlappingCells?
  }

  /** The two inner loops: the rectangle of one in-bounds cell, coordinate by coordinate. */
  method Occupy(t: PlacedTable, n: nat, before: map<(int, int), nat>, reported: seq<Issue>)
    returns (occupied: map<(int, int), nat>, issues: seq<Issue>)
    requires n < |t.cells| && Fits(t, n)
    requires Occupied(t, before, n, t.cells[n].row, t.cells[n].column)
    requires OverlapsReported(t, reported, n, t.cells[n].row, t.cells[n].column)
    ensures Occupied(t, occupied, n, t.cells[n].row + t.cells[n].rowSpan, t.cells[n].column)
    ensures OverlapsReported(t, issues, n, t.cells[n].row + t.cells[n].rowSpan, t.cells[n].column)
    ensures OverlapsAdded(reported, issues)
  {
    hide Occupied;
    hide OverlapsReported;
    occupied, issues := before, reported;
    var c := t.cells[n];
    var row := c.row;
    while row < c.row + c.rowSpan
      invariant c.row <= row <= c.row + c.rowSpan
      invariant Occupied(t, occupied, n, row, c.column) && OverlapsReported(t, issues, n, row, c.column)
      invariant OverlapsAdded(reported, issues)
    {
      var column: int := c.column;
      while column < c.column + c.columnSpan
        invariant c.column <= column <= c.column + c.columnSpan
        invariant Occupied(t, occupied, n, row, column) && OverlapsReported(t, issues, n, row, column)
        invariant OverlapsAdded(reported, issues)
      {
        if (row, column) in occupied {
          PriorCell(t, n, occupied, issues, row, column, column + 1);
          issues := issues + [OverlappingCells(occupied[(row, column)], n, row, column)];
        } else {
          NewCell(t, n, occupied, issues, row, column, column + 1);
          occupied := occupied[(row, column) := n];
        }
        column := column + 1;
      }
      SamePlace(t, occupied, issues, n, row, column, n, row + 1, c.column);
      row := row + 1;
    }
  }

  /** Two positions of the loops at which the same coordinates have been passed. */
  lemma SamePlace(t: PlacedTable, occupied: map<(int, int), nat>, issues: seq<Issue>,
                  n: nat, atRow: int, atColumn: int, m: nat, nextRow: int, nextColumn: int)
    requires Occupied(t, occupied, n, atRow, atColumn) && OverlapsReported(t, issues, n, atRow, atColumn)
    requires forall i: nat, r, k ::
               Reached(t, n, atRow, atColumn, i, r, k) <==> Reached(t, m, nextRow, nextColumn, i, r, k)
    ensures Occupied(t, occupied, m, nextRow, nextColumn) && OverlapsReported(t, issues, m, nextRow, nextColumn)
  {
    hide Reached;
    hide First;
  }

  lemma OneCoordinate(t: PlacedTable, n: nat, row: int, column: int, next: int)
    requires On(t, n, row, column) && next == column + 1
    ensures forall i: nat, r, k ::
              Reached(t, n, row, next, i, r, k)
              <==> Reached(t, n, row, column, i, r, k) || (i == n && r == row && k == column)
    ensures !Reached(t, n, row, column, n, row, column)
  {
  }

  lemma PriorCell(t: PlacedTable, n: nat, occupied: map<(int, int), nat>, issues: seq<Issue>, row: int, column: int,
                  next: int)
    requires On(t, n, row, column) && Occupied(t, occupied, n, row, column)
        && OverlapsReported(t, issues, n, row, column)
    requires (row, column) in occupied && next == column + 1
    ensures Occupied(t, occupied, n, row, next)
    ensures OverlapsReported(t, issues + [OverlappingCells(occupied[(row, column)], n, row, column)], n, row, next)
  {
    var a := occupied[(row, column)];
    assert Reached(t, n, row, column, a, row, column) && First(t, a, row, column);
    OneCoordinate(t, n, row, column, next);
    forall c: nat | First(t, c, row, column) ensures c == a { assert On(t, c, row, column) && On(t, a, row, column); }
    hide Reached;
    hide First;
    hide On;
    var more := issues + [OverlappingCells(a, n, row, column)];
    forall c: nat, b: nat, r,
        k ensures OverlappingCells(c, b, r, k) in more
            <==> c < b && Reached(t, n, row, next, b, r, k) && First(t, c, r, k) {
      assert OverlappingCells(c, b, r, k) in more
          <==> OverlappingCells(c, b, r, k) in issues || (c == a && b == n && r == row && k == column);
    }
  }

  lemma NewCell(t: PlacedTable, n: nat, occupied: map<(int, int), nat>, issues: seq<Issue>, row: int, column: int,
                next: int)
    requires On(t, n, row, column) && Occupied(t, occupied, n, row, column)
        && OverlapsReported(t, issues, n, row, column)
    requires (row, column) !in occupied && next == column + 1
    ensures Occupied(t, occupied[(row, column) := n], n, row, next)
    ensures OverlapsReported(t, issues, n, row, next)
  {
    OneCoordinate(t, n, row, column, next);
    forall j: nat | j < n ensures !On(t, j, row, column) { assert !Reached(t, n, row, column, j, row, column); }
    assert First(t, n, row, column);
    forall c: nat | c < n ensures !First(t, c, row, column) {}
    hide Reached;
    hide First;
    hide On;
  }

  // ---- candidate axes ------------------------------------------------------------------------

  predicate Along(byColumn: bool, c: PlacedCell, index: nat) {
    (if byColumn then c.column else c.row) == index && c.rowSpan == 1 && c.columnSpan == 1
  }

  function AxisCells(cells: seq<PlacedCell>, byColumn: bool, index: nat): seq<PlacedCell> {
    SortBy((a: PlacedCell, b: PlacedCell) => if byColumn then a.row <= b.row else a.column <= b.column,
           Keep(cells, c => Along(byColumn, c, index)))
  }

  function NumericCells(reading: Reading, cells: seq<PlacedCell>): seq<PlacedCell> {
    Keep(cells, (c: PlacedCell) => reading.parse(c.content).Some?)
  }

  function NumbersOf(reading: Reading, cells: seq<PlacedCell>): seq<real> {
    if cells == [] then []
    else
      var rest := NumbersOf(reading, cells[1..]);
      var value := reading.parse(cells[0].content);
      if value.Some? then [value.value] + rest else rest
  }

  /** The words in the first text of the axis that is not a number. */
  function HeaderScore(reading: Reading, cells: seq<PlacedCell>): nat {
    if cells == [] then reading.terms([])
    else if reading.parse(cells[0].content) == None then reading.terms(cells[0].content)
    else HeaderScore(reading, cells[1..])
  }

  function CandidateOn(reading: Reading, t: PlacedTable, byColumn: bool, index: nat): Option<Candidate> {
    var cells := AxisCells(t.cells, byColumn, index);
    var values := NumbersOf(reading, cells);
    if |values| < 2 then None
    else Some(Candidate(if byColumn then RowBrackets else ColumnBrackets, index, NumericCells(reading, cells), values,
                        HeaderScore(reading, cells)))
  }

  function CandidatesUpTo(reading: Reading, t: PlacedTable, byColumn: bool, n: nat): seq<Candidate> {
    if n == 0 then []
    else
      var rest := CandidatesUpTo(reading, t, byColumn, n - 1);
      var c := CandidateOn(reading, t, byColumn, n - 1);
      if c == None then rest else rest + [c.value]
  }

  function Candidates(reading: Reading, t: PlacedTable): seq<Candidate>
    requires t.rowCount > 0
  {
    CandidatesUpTo(reading, t, true, t.columnCount) + CandidatesUpTo(reading, t, false, t.rowCount)
  }

  method BracketCandidates(reading: Reading, t: PlacedTable) returns (candidates: seq<Candidate>)
    requires t.rowCount > 0
    ensures candidates == Candidates(reading, t)
  {
    hide CandidateOn;
    candidates := [];
    for column := 0 to t.columnCount
      invariant candidates == CandidatesUpTo(reading, t, true, column)
    {
      var c := CandidateOn(reading, t, true, column);
      if c.Some? { candidates := candidates + [c.value]; }
    }
    ghost var columns := candidates;
    for row := 0 to t.rowCount
      invariant candidates == columns + CandidatesUpTo(reading, t, false, row)
    {
      var c := CandidateOn(reading, t, false, row);
      if c.Some? { candidates := candidates + [c.value]; }
    }
  }

  /** Lexicographically greater: more bracket words, or as many and a longer run. */
  predicate Beats(a: Candidate, b: Candidate) {
    a.headerScore > b.headerScore || (a.headerScore == b.headerScore && |a.values| > |b.values|)
  }

  function MaxScore(cs: seq<Candidate>): (m: nat)
    requires cs != []
    ensures forall i | 0 <= i < |cs| :: cs[i].headerScore <= m
    ensures exists i :: 0 <= i < |cs| && cs[i].headerScore == m
  {
    if |cs| == 1 then cs[0].headerScore
    else
      var m := MaxScore(cs[..|cs| - 1]);
      assert exists i :: 0 <= i < |cs| - 1 && cs[i] == cs[..|cs| - 1][i] && cs[i].headerScore == m;
      if cs[|cs| - 1].headerScore > m then cs[|cs| - 1].headerScore else m
  }

  function MaxLength(cs: seq<Candidate>): (m: nat)
    requires cs != []
    ensures forall i | 0 <= i < |cs| :: |cs[i].values| <= m
    ensures exists i :: 0 <= i < |cs| && |cs[i].values| == m
  {
    if |cs| == 1 then |cs[0].values|
    else
      var m := MaxLength(cs[..|cs| - 1]);
      assert exists i :: 0 <= i < |cs| - 1 && cs[i] == cs[..|cs| - 1][i] && |cs[i].values| == m;
      if |cs[|cs| - 1].values| > m then |cs[|cs| - 1].values| else m
  }

  function WithScore(cs: seq<Candidate>, score: nat): (r: seq<Candidate>)
    ensures forall c :: c in r <==> c in cs && c.headerScore == score
  {
    Keep(cs, (c: Candidate) => c.headerScore == score)
  }

  function WithLength(cs: seq<Candidate>, length: nat): seq<Candidate> {
    Keep(cs, (c: Candidate) => |c.values| == length)
  }

  function Semantic(cs: seq<Candidate>): seq<Candidate>
    requires cs != []
  {
    if MaxScore(cs) > 0 then WithScore(cs, MaxScore(cs)) else cs
  }

  function Choose(cs: seq<Candidate>): Option<Candidate> {
    if cs == [] || Semantic(cs) == [] then None
    else
      var longest := WithLength(Semantic(cs), MaxLength(Semantic(cs)));
      if |longest| != 1 then None else Some(longest[0])
  }

  /** One candidate beats all the others. */
  predicate Best(cs: seq<Candidate>, i: nat) { i < |cs| && forall j | 0 <= j < |cs| && j != i :: Beats(cs[i], cs[j]) }

  predicate Top(cs: seq<Candidate>, c: Candidate)
    requires cs != [] && Semantic(cs) != []
  {
    c.headerScore == MaxScore(cs) && |c.values| == MaxLength(Semantic(cs))
  }

  lemma SemanticMeaning(cs: seq<Candidate>)
    requires cs != []
    ensures Semantic(cs) == Keep(cs, (c: Candidate) => c.headerScore == MaxScore(cs)) && Semantic(cs) != []
  {
    var m := MaxScore(cs);
    var i :| 0 <= i < |cs| && cs[i].headerScore == m;
    assert cs[i] in Keep(cs, (c: Candidate) => c.headerScore == m);
    if m == 0 {
      forall c | c in cs ensures c.headerScore == m {}
      KeepAll(cs, (c: Candidate) => c.headerScore == m);
    }
  }

  lemma TopMeansBest(cs: seq<Candidate>, i: nat)
    requires cs != [] && Semantic(cs) != []
    requires Semantic(cs) == Keep(cs, (c: Candidate) => c.headerScore == MaxScore(cs))
    ensures Best(cs, i) <==> OnlyAt(cs, c => Top(cs, c), i)
  {
    var m, semantic := MaxScore(cs), Semantic(cs);
    var longest := MaxLength(semantic);
    forall j | 0 <= j < |cs| ensures cs[j].headerScore <= m && (cs[j].headerScore == m ==> |cs[j].values| <= longest) {
      if cs[j].headerScore == m {
        assert cs[j] in semantic;
        var k :| 0 <= k < |semantic| && semantic[k] == cs[j];
      }
    }
    var k :| 0 <= k < |semantic| && |semantic[k].values| == longest;
    assert semantic[k] in semantic;
    var top :| 0 <= top < |cs| && cs[top] == semantic[k];
    assert forall j | 0 <= j < |cs| :: Top(cs, cs[j]) <==> cs[j].headerScore == m && |cs[j].values| == longest;
    hide *;
    TopIsBest(cs, m, longest, top, i);
    assert Best(cs, i) <==> OnlyTop(cs, m, longest, i);
    TopNames(cs, m, longest, i);
  }

  predicate OnlyTop(cs: seq<Candidate>, score: nat, length: nat, i: nat) {
    && i < |cs| && cs[i].headerScore == score && |cs[i].values| == length
    && forall j | 0 <= j < |cs| && j != i :: !(cs[j].headerScore == score && |cs[j].values| == length)
  }

  lemma TopNames(cs: seq<Candidate>, score: nat, length: nat, i: nat)
    requires cs != [] && Semantic(cs) != []
    requires forall j | 0 <= j < |cs| :: Top(cs, cs[j]) <==> cs[j].headerScore == score && |cs[j].values| == length
    ensures OnlyTop(cs, score, length, i) <==> OnlyAt(cs, c => Top(cs, c), i)
  {
    hide Top;
  }

  /** With the greatest score and the greatest length among those of that score: alone there means best. */
  lemma TopIsBest(cs: seq<Candidate>, score: nat, length: nat, top: nat, i: nat)
    requires forall j | 0 <= j < |cs| ::
        cs[j].headerScore <= score && (cs[j].headerScore == score ==> |cs[j].values| <= length)
    requires top < |cs| && cs[top].headerScore == score && |cs[top].values| == length
    ensures Best(cs, i) <==> OnlyTop(cs, score, length, i)
  {
    if Best(cs, i) {
      assert top == i;
      forall j | 0 <= j < |cs| && j != i ensures !(cs[j].headerScore == score && |cs[j].values| == length) {
        assert Beats(cs[i], cs[j]);
      }
    }
  }

  /** The choice falls on the one candidate that strictly beats every other, and on none if there is none. */
  lemma ChoiceIsUniqueBest(cs: seq<Candidate>)
    ensures Choose(cs) == None <==> forall i: nat :: !Best(cs, i)
    ensures forall i: nat | Best(cs, i) :: Choose(cs) == Some(cs[i])
  {
    if cs != [] {
      SemanticMeaning(cs);
      var m := MaxLength(Semantic(cs));
      var byScore, byLength, top := (c: Candidate) => c.headerScore == MaxScore(cs), (c: Candidate) => |c.values| == m,
          (c: Candidate) => Top(cs, c);
      KeepTwice(cs, byScore, byLength, top);
      assert WithLength(Semantic(cs), m) == Keep(cs, top);
      KeepOne(cs, top);
      forall i: nat ensures Best(cs, i) <==> OnlyAt(cs, top, i) {
        TopMeansBest(cs, i);
        assert OnlyAt(cs, top, i) <==> OnlyAt(cs, c => Top(cs, c), i);
      }
      hide Semantic;
      hide MaxLength;
      hide MaxScore;
      hide Keep;
      hide WithLength;
      hide Best;
    }
  }

  // ---- order of the thresholds ---------------------------------------------------------------

  function Sign(x: real): int { if x > 0.0 then 1 else if x < 0.0 then -1 else 0 }

  predicate StrictlyMonotonic(values: seq<real>) {
    && |values| >= 2 && values[1] != values[0]
    && forall k | 0 <= k < |values| - 1 :: Sign(values[k + 1] - values[k]) == Sign(values[1] - values[0])
  }

  predicate Rising(values: seq<real>) { forall i, j | 0 <= i < j < |values| :: values[i] < values[j] }

  predicate Falling(values: seq<real>) { forall i, j | 0 <= i < j < |values| :: values[i] > values[j] }

  lemma {:induction false} Climb(values: seq<real>, up: bool, i: nat, j: nat)
    requires i < j < |values|
    requires forall k | 0 <= k < |values| - 1 :: if up then values[k] < values[k + 1] else values[k] > values[k + 1]
    ensures if up then values[i] < values[j] else values[i] > values[j]
    decreases j
  {
    assert if up then values[j - 1] < values[j - 1 + 1] else values[j - 1] > values[j - 1 + 1];
    if i < j - 1 { Climb(values, up, i, j - 1); }
  }

  /** Comparing neighbours decides the order of every pair. */
  lemma MonotonicOverEveryPair(values: seq<real>)
    ensures StrictlyMonotonic(values) <==> |values| >= 2 && (Rising(values) || Falling(values))
  {
    if StrictlyMonotonic(values) {
      var up := values[0] < values[1];
      forall k | 0 <= k < |values| - 1 ensures if up then values[k] < values[k + 1] else values[k] > values[k + 1] {
        assert Sign(values[k + 1] - values[k]) == Sign(values[1] - values[0]);
      }
      forall i, j | 0 <= i < j < |values| ensures if up then values[i] < values[j] else values[i] > values[j] {
        Climb(values, up, i, j);
      }
    }
  }

  // ---- the verdict ---------------------------------------------------------------------------

  /** `reassembledTableSchema`, as far as the types leave it open. */
  predicate SchemaAccepts(t: PlacedTable) {
    t.rowCount > 0 && t.sources != [] && forall i | 0 <= i < |t.cells| ::
        t.cells[i].row >= 0 && t.cells[i].source.page > 0
  }

  /** Each issue about a single cell is reported exactly when it is there. */
  ghost predicate CellsJudged(reading: Reading, t: PlacedTable, issues: seq<Issue>, n: nat)
    requires n <= |t.cells|
  {
    && (forall i: nat :: CellOutOfBounds(i) in issues <==> i < n && !Fits(t, i))
    && (forall i: nat :: EmptyValue(i) in issues <==> i < n && Fits(t, i) && reading.blank(t.cells[i].content))
    && (forall i: nat :: InvalidNumericValue(i) in issues
              <==> && i < n && Fits(t, i) && reading.looksNumeric(t.cells[i].content)
                   && reading.parse(t.cells[i].content) == None)
  }

  /** Each overlap is reported once per coordinate and later cell, against the first cell there. */
  ghost predicate OverlapsJudged(t: PlacedTable, issues: seq<Issue>) {
    forall a: nat, b: nat, row, column :: OverlappingCells(a, b, row, column) in issues
        <==> a < b && On(t, b, row, column) && First(t, a, row, column)
  }

  ghost predicate Judged(reading: Reading, t: PlacedTable, v: Verdict)
    requires t.rowCount > 0
  {
    var cs := Candidates(reading, t);
    && CellsJudged(reading, t, v.issues, |t.cells|)
    && OverlapsJudged(t, v.issues)
    && (v.valid <==> v.issues == [])
    && v.selected == Choose(cs)
    && (BracketsNotFound in v.issues <==> cs == [])
    && (AmbiguousOrientation in v.issues <==> cs != [] && Choose(cs) == None)
    && (NonMonotonicBrackets in v.issues <==> Choose(cs).Some? && !StrictlyMonotonic(Choose(cs).value.values))
  }

  predicate AboutCells(issues: seq<Issue>) {
    forall x | x in issues :: x.CellOutOfBounds? || x.EmptyValue? || x.InvalidNumericValue? || x.OverlappingCells?
  }

  /** The outer loop over the cells. */
  method JudgeCells(reading: Reading, t: PlacedTable) returns (issues: seq<Issue>)
    requires SchemaAccepts(t)
    ensures CellsJudged(reading, t, issues, |t.cells|) && OverlapsJudged(t, issues) && AboutCells(issues)
  {
    issues := [];
    var occupied: map<(int, int), nat> := map[];
    for n := 0 to |t.cells|
      invariant CellsJudged(reading, t, issues, n) && AboutCells(issues)
      invariant Occupied(t, occupied, n, 0, 0) && OverlapsReported(t, issues, n, 0, 0)
    {
      var c := t.cells[n];
      issues := JudgeOne(reading, t, n, issues);
      if c.row + c.rowSpan > t.rowCount || c.column + c.columnSpan > t.columnCount {
        SamePlace(t, occupied, issues, n, 0, 0, n + 1, 0, 0);
      } else {
        SamePlace(t, occupied, issues, n, 0, 0, n, c.row, c.column);
        ghost var judged := issues;
        occupied, issues := Occupy(t, n, occupied, issues);
        OverlapsDoNotMatter(reading, t, judged, issues, n + 1);
        SamePlace(t, occupied, issues, n, c.row + c.rowSpan, c.column, n + 1, 0, 0);
      }
      hide CellsJudged;
      hide Occupied;
      hide OverlapsReported;
      hide AboutCells;
    }
    assert forall i: nat, r, k :: Reached(t, |t.cells|, 0, 0, i, r, k) <==> On(t, i, r, k);
  }

  /** The issues of one cell by itself. */
  method JudgeOne(reading: Reading, t: PlacedTable, n: nat, reported: seq<Issue>) returns (issues: seq<Issue>)
    requires n < |t.cells| && CellsJudged(reading, t, reported, n) && AboutCells(reported)
        && OverlapsReported(t, reported, n, 0, 0)
    ensures CellsJudged(reading, t, issues, n + 1) && AboutCells(issues) && OverlapsReported(t, issues, n, 0, 0)
  {
    issues := reported;
    var c := t.cells[n];
    if c.row + c.rowSpan > t.rowCount || c.column + c.columnSpan > t.columnCount {
      OneMoreIssue(t, issues, CellOutOfBounds(n), n);
      issues := issues + [CellOutOfBounds(n)];
      return;
    }
    if reading.blank(c.content) {
      OneMoreIssue(t, issues, EmptyValue(n), n);
      issues := issues + [EmptyValue(n)];
    }
    if reading.looksNumeric(c.content) && reading.parse(c.content) == None {
      OneMoreIssue(t, issues, InvalidNumericValue(n), n);
      issues := issues + [InvalidNumericValue(n)];
    }
    hide OverlapsReported;
  }

  lemma OneMoreIssue(t: PlacedTable, issues: seq<Issue>, x: Issue, n: nat)
    requires OverlapsReported(t, issues, n, 0, 0) && !x.OverlappingCells?
    ensures OverlapsReported(t, issues + [x], n, 0, 0)
  {
    hide Reached;
    hide First;
  }

  lemma OverlapsDoNotMatter(reading: Reading, t: PlacedTable, before: seq<Issue>, issues: seq<Issue>, n: nat)
    requires n <= |t.cells| && CellsJudged(reading, t, before, n) && AboutCells(before) && OverlapsAdded(before, issues)
    ensures CellsJudged(reading, t, issues, n) && AboutCells(issues)
  {
    forall x: Issue ensures !x.OverlappingCells? ==> (x in issues <==> x in before) {
      if x in before { var i :| 0 <= i < |before| && before[i] == x; assert issues[i] == x; }
      if x in issues && !x.OverlappingCells? { var i :| 0 <= i < |issues| && issues[i] == x; assert before[i] == x; }
    }
    hide Fits;
  }

  method ValidateRateTable(reading: Reading, t: PlacedTable) returns (r: Outcome)
    ensures r.SchemaError? <==> !SchemaAccepts(t)
    ensures r.Validated? ==> Judged(reading, t, r.verdict)
  {
    if !SchemaAccepts(t) { return SchemaError; }
    var issues := JudgeCells(reading, t);
    var candidates := BracketCandidates(reading, t);
    var selected := Choose(candidates);
    JudgedInAll(reading, t, issues, candidates);
    hide Judged;
    hide CellsJudged;
    hide OverlapsJudged;
    hide AboutCells;
    hide Choose;
    hide Candidates;
    hide StrictlyMonotonic;
    if selected == None {
      issues := issues + [if candidates != [] then AmbiguousOrientation else BracketsNotFound];
    } else if !StrictlyMonotonic(selected.value.values) {
      issues := issues + [NonMonotonicBrackets];
    }
    r := Validated(Verdict(issues == [], selected, issues));
  }

  /** What is said about the axes, after the cells. */
  function AxisIssues(cs: seq<Candidate>): seq<Issue> {
    if Choose(cs) == None then [if cs != [] then AmbiguousOrientation else BracketsNotFound]
    else if !StrictlyMonotonic(Choose(cs).value.values) then [NonMonotonicBrackets]
    else []
  }

  lemma JudgedInAll(reading: Reading, t: PlacedTable, issues: seq<Issue>, cs: seq<Candidate>)
    requires t.rowCount > 0 && cs == Candidates(reading, t)
    requires CellsJudged(reading, t, issues, |t.cells|) && OverlapsJudged(t, issues) && AboutCells(issues)
    ensures Judged(reading, t, Verdict(issues + AxisIssues(cs) == [], Choose(cs), issues + AxisIssues(cs)))
    ensures issues + [] == issues
  {
    ChoiceNeedsCandidates(cs);
    hide Choose;
    hide Candidates;
    hide StrictlyMonotonic;
    hide CellsJudged;
    hide OverlapsJudged;
    if AxisIssues(cs) != [] {
      AxisIssueDoesNotMatter(reading, t, issues, AxisIssues(cs)[0]);
      assert AxisIssues(cs) == [AxisIssues(cs)[0]];
    } else {
      assert issues + AxisIssues(cs) == issues;
    }
  }

  lemma ChoiceNeedsCandidates(cs: seq<Candidate>)
    ensures Choose(cs).Some? ==> cs != []
  {
  }

  lemma AxisIssueDoesNotMatter(reading: Reading, t: PlacedTable, before: seq<Issue>, x: Issue)
    requires CellsJudged(reading, t, before, |t.cells|) && OverlapsJudged(t, before)
    requires x.BracketsNotFound? || x.AmbiguousOrientation? || x.NonMonotonicBrackets?
    ensures CellsJudged(reading, t, before + [x], |t.cells|) && OverlapsJudged(t, before + [x])
  {
    hide Fits;
    hide On;
    hide First;
  }

  // ---- what a verdict means ------------------------------------------------------------------

  lemma {:induction false} FirstThere(t: PlacedTable, i: nat, row: int, column: int) returns (a: nat)
    requires On(t, i, row, column)
    ensures a <= i && First(t, a, row, column)
    decreases i
  {
    if j: nat :| j < i && On(t, j, row, column) { a := FirstThere(t, j, row, column); } else { a := i; }
  }

  /** Rectangles are apart exactly when they share no coordinate. */
  lemma ApartMeaning(a: PlacedCell, b: PlacedCell)
    ensures Apart(a, b) <==> !exists row, column :: Covers(a, row, column) && Covers(b, row, column)
  {
    if !Apart(a, b) {
      var row, column := if a.row < b.row then b.row else a.row, if a.column < b.column then b.column else a.column;
      assert Covers(a, row, column) && Covers(b, row, column);
    }
  }

  /** An overlap is reported exactly when two in-bounds cells share a coordinate. */
  lemma OverlapReportedExactly(reading: Reading, t: PlacedTable, v: Verdict)
    requires t.rowCount > 0 && Judged(reading, t, v)
    ensures (exists x :: x in v.issues && x.OverlappingCells?)
       <==> exists i: nat, j: nat :: i < j < |t.cells| && Fits(t, i) && Fits(t, j) && !Apart(t.cells[i], t.cells[j])
  {
    assert OverlapsJudged(t, v.issues);
    hide Judged;
    if x :| x in v.issues && x.OverlappingCells? {
      assert OverlappingCells(x.prior, x.cell, x.row, x.column) in v.issues;
      ApartMeaning(t.cells[x.prior], t.cells[x.cell]);
    }
    if i: nat, j: nat :| i < j < |t.cells| && Fits(t, i) && Fits(t, j) && !Apart(t.cells[i], t.cells[j]) {
      ApartMeaning(t.cells[i], t.cells[j]);
      var row, column :| Covers(t.cells[i], row, column) && Covers(t.cells[j], row, column);
      var a := FirstThere(t, i, row, column);
      assert OverlappingCells(a, j, row, column) in v.issues;
    }
  }

  /** No issue about a single cell: in bounds, filled, and readable where it looks like a number. */
  ghost predicate CellsClean(reading: Reading, t: PlacedTable) {
    forall i: nat | i < |t.cells| ::
      && Fits(t, i) && !reading.blank(t.cells[i].content)
      && (reading.looksNumeric(t.cells[i].content) ==> reading.parse(t.cells[i].content).Some?)
  }

  ghost predicate AllApart(t: PlacedTable) {
    forall i: nat, j: nat | i < j < |t.cells| :: Apart(t.cells[i], t.cells[j])
  }

  /** The best axis, with thresholds in strict order over every pair. */
  predicate BracketAxis(cs: seq<Candidate>, k: nat) {
    Best(cs, k) && |cs[k].values| >= 2 && (Rising(cs[k].values) || Falling(cs[k].values))
  }

  ghost predicate OneAxis(cs: seq<Candidate>) { exists k: nat :: BracketAxis(cs, k) }

  /** What a usable rate table is, without the loops. */
  ghost predicate Usable(reading: Reading, t: PlacedTable)
    requires t.rowCount > 0
  {
    CellsClean(reading, t) && AllApart(t) && OneAxis(Candidates(reading, t))
  }

  lemma NoIssues(reading: Reading, t: PlacedTable, v: Verdict)
    requires t.rowCount > 0 && Judged(reading, t, v)
    ensures v.valid <==> && CellsClean(reading, t) && !(exists x :: x in v.issues && x.OverlappingCells?)
                         && Choose(Candidates(reading, t)).Some?
                             && StrictlyMonotonic(Choose(Candidates(reading, t)).value.values)
  {
    var cs := Candidates(reading, t);
    ChoiceNeedsCandidates(cs);
    assert CellsJudged(reading, t, v.issues, |t.cells|);
    hide Candidates;
    hide Choose;
    hide StrictlyMonotonic;
    hide OverlapsJudged;
    hide Fits;
    if v.issues != [] {
      var x := v.issues[0];
      assert x in v.issues;
      match x
      case CellOutOfBounds(i) => assert !Fits(t, i) && i < |t.cells|;
      case EmptyValue(i) => assert i < |t.cells| && reading.blank(t.cells[i].content);
      case InvalidNumericValue(i) => assert i < |t.cells| && reading.looksNumeric(t.cells[i].content);
      case _ =>
    } else {
      forall i: nat | i < |t.cells|
        ensures Fits(t, i) && !reading.blank(t.cells[i].content)
        ensures reading.looksNumeric(t.cells[i].content) ==> reading.parse(t.cells[i].content).Some?
      {
        assert CellOutOfBounds(i) !in v.issues && EmptyValue(i) !in v.issues && InvalidNumericValue(i) !in v.issues;
      }
      assert BracketsNotFound !in v.issues && AmbiguousOrientation !in v.issues && NonMonotonicBrackets !in v.issues;
    }
  }

  lemma OneBestAxis(cs: seq<Candidate>)
    ensures Choose(cs).Some? && StrictlyMonotonic(Choose(cs).value.values) <==> OneAxis(cs)
  {
    ChoiceIsUniqueBest(cs);
    hide Choose;
    hide Rising;
    hide Falling;
    hide StrictlyMonotonic;
    if Choose(cs).Some? {
      var k: nat :| Best(cs, k);
      MonotonicOverEveryPair(cs[k].values);
      assert Choose(cs) == Some(cs[k]);
      assert StrictlyMonotonic(cs[k].values) ==> BracketAxis(cs, k);
    }
    if k: nat :| BracketAxis(cs, k) {
      MonotonicOverEveryPair(cs[k].values);
    }
  }

  /** Valid means: every cell in bounds, filled and readable; all rectangles disjoint; one axis that beats all the
      others; and thresholds strictly increasing or strictly decreasing over every pair. */
  lemma ValidMeansUsable(reading: Reading, t: PlacedTable, v: Verdict)
    requires t.rowCount > 0 && Judged(reading, t, v)
    ensures v.valid <==> Usable(reading, t)
  {
    OverlapsMeanNotApart(reading, t, v);
    NoIssues(reading, t, v);
    OneBestAxis(Candidates(reading, t));
    hide Judged;
    hide Candidates;
    hide Choose;
    hide StrictlyMonotonic;
    hide CellsClean;
    hide AllApart;
    hide OneAxis;
  }

  /** When all cells are in bounds, no overlap is reported exactly when all rectangles are disjoint. */
  lemma OverlapsMeanNotApart(reading: Reading, t: PlacedTable, v: Verdict)
    requires t.rowCount > 0 && Judged(reading, t, v)
    ensures CellsClean(reading, t) ==> (AllApart(t) <==> !exists x :: x in v.issues && x.OverlappingCells?)
  {
    OverlapReportedExactly(reading, t, v);
    hide Judged;
    hide Apart;
    hide Fits;
    if CellsClean(reading, t) && !AllApart(t) {
      var i: nat, j: nat :| i < j < |t.cells| && !Apart(t.cells[i], t.cells[j]);
      assert Fits(t, i) && Fits(t, j);
    }
  }

  // ---- reassembled tables --------------------------------------------------------------------

  /** A page can be named for every cell: its table lies on one page, or the cell has a region. */
  predicate PagesKnown(t: Table) { SinglePage(t).Some? || forall i | 0 <= i < |t.cells| :: t.cells[i].pages != [] }

  predicate Paged(cells: seq<PlacedCell>) { forall i | 0 <= i < |cells| :: cells[i].source.page > 0 }

  lemma {:induction false} PlacedPages(folding: Folding, cells: seq<Cell>, first: nat, index: nat, page: Option<Count>,
                                       offset: int)
    ensures Paged(PlaceAll(folding, cells, first, index, page, offset))
       <==> page.Some? || forall i | 0 <= i < |cells| && cells[i].row >= first :: cells[i].pages != []
    decreases |cells|
  {
    if cells != [] {
      var n := |cells| - 1;
      PlacedPages(folding, cells[..n], first, index, page, offset);
      var before := PlaceAll(folding, cells[..n], first, index, page, offset);
      var placed := PlaceAll(folding, cells, first, index, page, offset);
      assert forall i | 0 <= i < n :: cells[..n][i] == cells[i];
      if cells[n].row >= first {
        assert placed[|before|] == Place(folding, cells[n], index, page, cells[n].row + offset);
        assert placed[..|before|] == before;
        assert Paged(placed) <==> Paged(before) && placed[|before|].source.page > 0 by {
          assert forall i | 0 <= i < |before| :: placed[i] == before[i];
        }
      }
    }
  }

  predicate AllPaged(output: seq<PlacedTable>) { forall k | 0 <= k < |output| :: Paged(output[k].cells) }

  predicate AllKnown(fs: seq<Fragment>) { forall i | 0 <= i < |fs| :: PagesKnown(fs[i].table) }

  lemma PagedParts(a: seq<PlacedCell>, b: seq<PlacedCell>)
    ensures Paged(a + b) <==> Paged(a) && Paged(b)
  {
    assert forall i | 0 <= i < |b| :: (a + b)[|a| + i] == b[i];
    assert forall i | 0 <= i < |a| :: (a + b)[i] == a[i];
  }

  lemma AllPagedParts(a: seq<PlacedTable>, t: PlacedTable)
    ensures AllPaged(a + [t]) <==> AllPaged(a) && Paged(t.cells)
  {
    hide Paged;
    assert forall i | 0 <= i < |a| :: (a + [t])[i] == a[i];
    assert (a + [t])[|a|] == t;
  }

  lemma StepSchema(folding: Folding, output: seq<PlacedTable>, f: Fragment)
    requires f.page == SinglePage(f.table)
    ensures AllPaged(Step(folding, output, f)) <==> AllPaged(output) && PagesKnown(f.table)
  {
    hide SinglePage;
    hide AllPaged;
    if Joins(output, f) {
      var m := |output| - 1;
      var first := FirstDataRow(f.table);
      PlacedPages(folding, f.table.cells, first, f.index, f.page, output[m].rowCount - first);
      PagedParts(output[m].cells, PlaceAll(folding, f.table.cells, first, f.index, f.page, output[m].rowCount - first));
      AllPagedParts(output[..m], output[m]);
      AllPagedParts(output[..m], Join(folding, output[m], f));
      assert output == output[..m] + [output[m]];
      hide Paged;
      hide PlaceAll;
    } else {
      PlacedPages(folding, f.table.cells, 0, f.index, f.page, 0);
      AllPagedParts(output, Build(folding, f));
      hide Paged;
      hide PlaceAll;
    }
  }

  lemma KnownParts(fs: seq<Fragment>, f: Fragment)
    ensures AllKnown(fs + [f]) <==> AllKnown(fs) && PagesKnown(f.table)
  {
    hide PagesKnown;
    assert forall i | 0 <= i < |fs| :: (fs + [f])[i] == fs[i];
    assert (fs + [f])[|fs|] == f;
  }

  lemma SchemaOfNone(folding: Folding)
    ensures AllPaged(Stitched(folding, [])) && AllKnown([])
  {
  }

  lemma LastStep(folding: Folding, fs: seq<Fragment>, f: Fragment)
    ensures Stitched(folding, fs + [f]) == Step(folding, Stitched(folding, fs), f)
  {
    assert (fs + [f])[..|fs|] == fs;
    hide Step;
  }

  lemma {:induction false} StitchedSchema(folding: Folding, fs: seq<Fragment>)
    requires forall f | f in fs :: f.page == SinglePage(f.table)
    ensures AllPaged(Stitched(folding, fs)) <==> AllKnown(fs)
    decreases |fs|
  {
    hide *;
    if fs == [] {
      SchemaOfNone(folding);
    } else {
      var before, f := fs[..|fs| - 1], fs[|fs| - 1];
      assert fs == before + [f];
      StitchedSchema(folding, before);
      StepSchema(folding, Stitched(folding, before), f);
      KnownParts(before, f);
      LastStep(folding, before, f);
    }
  }

  lemma SameTables(folding: Folding, tables: seq<Table>)
    ensures AllKnown(SortBy(Before, Fragments(folding, tables))) <==> forall i | 0 <= i < |tables| ::
        PagesKnown(tables[i])
  {
    var all := Fragments(folding, tables);
    var fs := SortBy(Before, all);
    SortKeepsMembers(Before, all);
    hide SortBy;
    hide PagesKnown;
    hide HeaderSignature;
    forall i | 0 <= i < |fs| ensures exists k :: 0 <= k < |tables| && fs[i].table == tables[k] { assert fs[i] in all; }
    forall i | 0 <= i < |tables| ensures exists k :: 0 <= k < |fs| && fs[k].table == tables[i] {
      assert all[i] in all;
      var k :| 0 <= k < |fs| && fs[k] == all[i];
    }
  }

  lemma SchemaMeansPaged(t: PlacedTable)
    requires Sound(t) && t.sources != []
    ensures SchemaAccepts(t) <==> Paged(t.cells)
  {
    forall i | 0 <= i < |t.cells| ensures t.cells[i].row >= 0 {
      assert InBounds(t.cells[i], t.rowCount, t.columnCount);
    }
  }

  /** On sound fragments, validation takes every reassembled table exactly when a page can be named for every cell;
      otherwise its schema refuses the page number 0 that reassembly writes. */
  lemma ReassembledTablesPassSchema(folding: Folding, tables: seq<Table>)
    requires forall i | 0 <= i < |tables| :: FragmentSound(tables[i])
    ensures (forall k | 0 <= k < |Reassembled(folding, tables)| :: SchemaAccepts(Reassembled(folding, tables)[k]))
       <==> forall i | 0 <= i < |tables| :: PagesKnown(tables[i])
  {
    var fs := SortBy(Before, Fragments(folding, tables));
    SortedFragments(folding, tables);
    forall f | f in fs ensures f.page == SinglePage(f.table) {
      var i :| 0 <= i < |fs| && fs[i] == f;
      assert FragmentOf(tables, fs[i]);
    }
    StitchedSchema(folding, fs);
    SameTables(folding, tables);
    ReassemblyKeepsGeometry(folding, tables);
    ReassemblyPartitions(folding, tables);
    var output := Reassembled(folding, tables);
    hide Sound;
    hide PagesFollow;
    hide Stitched;
    hide SortBy;
    hide PagesKnown;
    hide SchemaAccepts;
    forall k | 0 <= k < |output| ensures SchemaAccepts(output[k]) <==> Paged(output[k].cells) {
      SchemaMeansPaged(output[k]);
    }
    hide Paged;
    hide Faithful;
  }

  /** `reassembleAndValidateRateTables` on sound fragments: no verdict reports a cell out of bounds or an overlap. */
  lemma SoundTablesHaveNoGeometryIssues(reading: Reading, t: PlacedTable, v: Verdict)
    requires Sound(t) && Judged(reading, t, v)
    ensures forall i: nat :: CellOutOfBounds(i) !in v.issues
    ensures !exists x :: x in v.issues && x.OverlappingCells?
  {
    OverlapReportedExactly(reading, t, v);
    assert CellsJudged(reading, t, v.issues, |t.cells|);
    forall i: nat | i < |t.cells| ensures Fits(t, i) { assert InBounds(t.cells[i], t.rowCount, t.columnCount); }
    hide Judged;
    hide Fits;
  }
}
