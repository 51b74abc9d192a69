/** Which bracket axes a rate table offers. */
module AxisLaws {
  import opened Reassembly
  import opened RateTableChecks
  import opened Sorting
  import opened Sums
  import opened Texts

  // src/modules/contracts/validate-rate-table.ts, lines 90-113 and 125-129, said of the cells of the table.

  /** A cell of one row and one column on the axis. */
  predicate OnAxis(byColumn: bool, index: nat, c: PlacedCell) {
    c.rowSpan == 1 && c.columnSpan == 1 && index == if byColumn then c.column else c.row
  }

  /** The single cells on the axis, each as often as it occurs, along the axis. */
  ghost predicate ListsAxis(t: PlacedTable, byColumn: bool, index: nat, cells: seq<PlacedCell>) {
    HoldsAxis(t, byColumn, index, cells) && AlongAxis(byColumn, cells)
  }

  ghost predicate HoldsAxis(t: PlacedTable, byColumn: bool, index: nat, cells: seq<PlacedCell>) {
    forall c: PlacedCell :: multiset(cells)[c] == if OnAxis(byColumn, index, c) then multiset(t.cells)[c] else 0
  }

  predicate AlongAxis(byColumn: bool, cells: seq<PlacedCell>) {
    forall i, j | 0 <= i < j < |cells| ::
      if byColumn then cells[i].row <= cells[j].row else cells[i].column <= cells[j].column
  }

  predicate Readable(reading: Reading, c: PlacedCell) { reading.parse(c.content).Some? }

  /** The bracket words of an axis are counted in its first text that is not a number, if it has one. */
  predicate Scored(reading: Reading, cells: seq<PlacedCell>, score: nat) {
    || ((forall c | c in cells :: Readable(reading, c)) && score == reading.terms([]))
    || exists k :: 0 <= k < |cells| && !Readable(reading, cells[k]) && score == reading.terms(cells[k].content)
                   && forall j | 0 <= j < k :: Readable(reading, cells[j])
  }

  /** What a candidate says of its axis: the readable cells in order, with their numbers, and the score. */
  ghost predicate Offers(reading: Reading, byColumn: bool, index: nat, cells: seq<PlacedCell>, cand: Candidate) {
    && cand.orientation == (if byColumn then RowBrackets else ColumnBrackets) && cand.axis == index
    && cand.cells == Keep(cells, (c: PlacedCell) => reading.parse(c.content).Some?)
    && |cand.values| == |cand.cells|
    && (forall i | 0 <= i < |cand.cells| :: reading.parse(cand.cells[i].content) == Some(cand.values[i]))
    && Scored(reading, cells, cand.headerScore)
  }

  lemma {:induction false} KeptCount(cells: seq<PlacedCell>, byColumn: bool, index: nat, c: PlacedCell)
    ensures multiset(Keep(cells, x => Along(byColumn, x, index)))[c]
         == if OnAxis(byColumn, index, c) then multiset(cells)[c] else 0
    decreases |cells|
  {
    if cells != [] {
      assert cells == [cells[0]] + cells[1..];
      KeptCount(cells[1..], byColumn, index, c);
    }
  }

  lemma AxisHeld(t: PlacedTable, byColumn: bool, index: nat)
    ensures HoldsAxis(t, byColumn, index, AxisCells(t.cells, byColumn, index))
  {
    var kept := Keep(t.cells, c => Along(byColumn, c, index));
    SortKeepsMultiset((a: PlacedCell, b: PlacedCell) => if byColumn then a.row <= b.row else a.column <= b.column,
                      kept);
    hide SortBy;
    hide Keep;
    forall c: PlacedCell
      ensures multiset(kept)[c] == if OnAxis(byColumn, index, c) then multiset(t.cells)[c] else 0
    {
      KeptCount(t.cells, byColumn, index, c);
    }
  }

  lemma AxisSorted(t: PlacedTable, byColumn: bool, index: nat)
    ensures AlongAxis(byColumn, AxisCells(t.cells, byColumn, index))
  {
    var leq := (a: PlacedCell, b: PlacedCell) => if byColumn then a.row <= b.row else a.column <= b.column;
    var kept := Keep(t.cells, c => Along(byColumn, c, index));
    SortSorts(leq, kept);
    hide SortBy;
    hide Keep;
  }

  lemma {:induction false} NumbersMean(reading: Reading, cells: seq<PlacedCell>)
    ensures var kept := Keep(cells, (c: PlacedCell) => reading.parse(c.content).Some?);
            var values := NumbersOf(reading, cells);
            |values| == |kept| && forall i | 0 <= i < |kept| :: reading.parse(kept[i].content) == Some(values[i])
    decreases |cells|
  {
    if cells != [] { NumbersMean(reading, cells[1..]); }
  }

  lemma {:induction false} ScoreMeans(reading: Reading, cells: seq<PlacedCell>)
    ensures Scored(reading, cells, HeaderScore(reading, cells))
    decreases |cells|
  {
    if cells != [] && Readable(reading, cells[0]) {
      var rest := cells[1..];
      ScoreMeans(reading, rest);
      if exists k :: 0 <= k < |rest| && !Readable(reading, rest[k]) {
        var k :| 0 <= k < |rest| && !Readable(reading, rest[k])
                 && HeaderScore(reading, rest) == reading.terms(rest[k].content)
                 && forall j | 0 <= j < k :: Readable(reading, rest[j]);
        assert cells[k + 1] == rest[k];
        forall j | 0 <= j < k + 1 ensures Readable(reading, cells[j]) { if j > 0 { assert cells[j] == rest[j - 1]; } }
      } else {
        forall c | c in cells ensures Readable(reading, c) {
          var j :| 0 <= j < |cells| && cells[j] == c;
          if j > 0 { assert rest[j - 1] == c; }
        }
      }
    }
  }

  /** An axis: its single cells in order; and a candidate exactly if two of them or more are readable. */
  lemma AxisSays(reading: Reading, t: PlacedTable, byColumn: bool, index: nat) returns (cells: seq<PlacedCell>)
    ensures ListsAxis(t, byColumn, index, cells)
    ensures var cand := CandidateOn(reading, t, byColumn, index);
      && (cand.Some? <==> |Keep(cells, (c: PlacedCell) => reading.parse(c.content).Some?)| >= 2)
      && (cand.Some? ==> Offers(reading, byColumn, index, cells, cand.value))
  {
    cells := AxisCells(t.cells, byColumn, index);
    AxisHeld(t, byColumn, index);
    AxisSorted(t, byColumn, index);
    NumbersMean(reading, cells);
    ScoreMeans(reading, cells);
    hide AxisCells;
    hide Keep;
    hide HoldsAxis;
    hide AlongAxis;
    hide NumbersOf;
    hide HeaderScore;
    hide Scored;
  }

  /** Some of the first `n` axes offers the candidate. */
  predicate Offered(reading: Reading, t: PlacedTable, byColumn: bool, n: nat, cand: Candidate) {
    exists index: nat :: index < n && CandidateOn(reading, t, byColumn, index) == Some(cand)
  }

  lemma OneMoreAxis(reading: Reading, t: PlacedTable, byColumn: bool, n: nat, cand: Candidate)
    ensures Offered(reading, t, byColumn, n + 1, cand)
       <==> Offered(reading, t, byColumn, n, cand) || CandidateOn(reading, t, byColumn, n) == Some(cand)
  {
    hide CandidateOn;
  }

  lemma {:induction false} UpToHolds(reading: Reading, t: PlacedTable, byColumn: bool, n: nat, cand: Candidate)
    ensures cand in CandidatesUpTo(reading, t, byColumn, n) <==> Offered(reading, t, byColumn, n, cand)
    decreases n
  {
    if n > 0 {
      UpToHolds(reading, t, byColumn, n - 1, cand);
      OneMoreAxis(reading, t, byColumn, n - 1, cand);
      hide CandidateOn;
      hide Offered;
    }
  }

  predicate AxesAscend(cs: seq<Candidate>, n: nat) {
    && (forall i, j | 0 <= i < j < |cs| :: cs[i].axis < cs[j].axis)
    && forall i | 0 <= i < |cs| :: cs[i].axis < n
  }

  lemma {:induction false} UpToOrdered(reading: Reading, t: PlacedTable, byColumn: bool, n: nat)
    ensures AxesAscend(CandidatesUpTo(reading, t, byColumn, n), n)
    decreases n
  {
    if n > 0 {
      var rest := CandidatesUpTo(reading, t, byColumn, n - 1);
      var c := CandidateOn(reading, t, byColumn, n - 1);
      UpToOrdered(reading, t, byColumn, n - 1);
      CandidateAxis(reading, t, byColumn, n - 1);
      hide CandidateOn;
      hide AxesAscend;
      OneMoreOrdered(rest, c, n - 1);
      assert CandidatesUpTo(reading, t, byColumn, n) == if c == None then rest else rest + [c.value];
    }
  }

  lemma OneMoreOrdered(rest: seq<Candidate>, c: Option<Candidate>, n: nat)
    requires AxesAscend(rest, n) && (c.Some? ==> c.value.axis == n)
    ensures AxesAscend(if c == None then rest else rest + [c.value], n + 1)
  {
  }

  lemma UpToSays(reading: Reading, t: PlacedTable, byColumn: bool, n: nat)
    ensures var cs := CandidatesUpTo(reading, t, byColumn, n);
      && (forall cand :: cand in cs <==> Offered(reading, t, byColumn, n, cand))
      && forall i, j | 0 <= i < j < |cs| :: cs[i].axis < cs[j].axis
  {
    forall cand ensures cand in CandidatesUpTo(reading, t, byColumn, n) <==> Offered(reading, t, byColumn, n, cand) {
      UpToHolds(reading, t, byColumn, n, cand);
    }
    UpToOrdered(reading, t, byColumn, n);
    hide CandidatesUpTo;
    hide Offered;
  }

  lemma CandidateAxis(reading: Reading, t: PlacedTable, byColumn: bool, index: nat)
    ensures var cand := CandidateOn(reading, t, byColumn, index);
            cand.Some? ==> cand.value.axis == index
                           && cand.value.orientation == if byColumn then RowBrackets else ColumnBrackets
  {
    hide AxisCells;
  }

  lemma OfferedAxis(reading: Reading, t: PlacedTable, byColumn: bool, n: nat, cand: Candidate)
    requires Offered(reading, t, byColumn, n, cand)
    ensures cand.orientation == if byColumn then RowBrackets else ColumnBrackets
  {
    var index: nat :| index < n && CandidateOn(reading, t, byColumn, index) == Some(cand);
    CandidateAxis(reading, t, byColumn, index);
  }

  /** The candidates: those of the columns, then those of the rows, one for each axis that has one. */
  lemma CandidatesSay(reading: Reading, t: PlacedTable)
    requires t.rowCount > 0
    ensures var cs := Candidates(reading, t);
      && (forall cand :: cand in cs <==> Offered(reading, t, true, t.columnCount, cand)
                                         || Offered(reading, t, false, t.rowCount, cand))
      && forall i, j | 0 <= i < j < |cs| :: cs[i].orientation != cs[j].orientation || cs[i].axis != cs[j].axis
  {
    var columns, rows := CandidatesUpTo(reading, t, true, t.columnCount), CandidatesUpTo(reading, t, false, t.rowCount);
    UpToSays(reading, t, true, t.columnCount);
    UpToSays(reading, t, false, t.rowCount);
    hide CandidatesUpTo;
    hide Offered;
    forall i | 0 <= i < |columns| ensures columns[i].orientation == RowBrackets {
      OfferedAxis(reading, t, true, t.columnCount, columns[i]);
    }
    forall i | 0 <= i < |rows| ensures rows[i].orientation == ColumnBrackets {
      OfferedAxis(reading, t, false, t.rowCount, rows[i]);
    }
  }
}
