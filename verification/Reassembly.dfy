/** Stitching the page fragments of a rate table: src/modules/contracts/reassemble-multipage-tables.ts. */
module Reassembly {
  import opened Sorting
  import opened Sums
  import opened Texts

  type Count = n: nat | n > 0 witness 1

  /** A provider cell; `pages` are the page numbers of its bounding regions, in order. */
  datatype Cell = Cell(row: nat, column: nat, rowSpan: Option<Count>, columnSpan: Option<Count>, content: Text,
                       isHeader: bool, pages: seq<Count>)

  datatype Table = Table(rowCount: Count, columnCount: Count, cells: seq<Cell>, pages: seq<Count>)

  datatype Source = Source(table: nat, page: nat, row: nat, column: nat, pages: seq<Count>)

  datatype PlacedCell = PlacedCell(row: int, column: nat, rowSpan: Count, columnSpan: Count, content: Text,
                                   source: Source)

  datatype PlacedTable = PlacedTable(columnCount: Count, rowCount: int, header: Text, sources: seq<nat>,
                                     pages: seq<Count>,
                                     cells: seq<PlacedCell>)

  datatype Fragment = Fragment(table: Table, index: nat, page: Option<Count>, header: Text)

  /** The Unicode foldings of the source: NFC on content, and the folding of header texts. */
  datatype Folding = Folding(content: Text -> Text, header: Text -> Text)

  // ---- reading one fragment ------------------------------------------------------------------

  function PagesOf(table: Table): set<Count> {
    (set p | p in table.pages) + (set c, p | c in table.cells && p in c.pages :: p)
  }

  /** The page, if all regions of the table and its cells agree on one. */
  function SinglePage(table: Table): (page: Option<Count>)
    ensures page.Some? <==> |PagesOf(table)| == 1
    ensures page.Some? ==> PagesOf(table) == {page.value}
  {
    var pages := PagesOf(table);
    if |pages| == 1 then
      Only(pages);
      var p :| p in pages;
      Some(p)
    else None
  }

  lemma Only(s: set<Count>)
    requires |s| == 1
    ensures forall p, q | p in s && q in s :: p == q
  {
    forall p, q | p in s && q in s ensures p == q {
      assert |s - {p}| == 0;
      assert s == {p};
    }
  }

  function ExplicitHeaderRows(cells: seq<Cell>): set<nat> { set c | c in cells && c.isHeader :: c.row }

  function HeaderRows(table: Table): set<nat> {
    if ExplicitHeaderRows(table.cells) != {} then ExplicitHeaderRows(table.cells) else {0}
  }

  function Highest(cells: seq<Cell>): (top: int)
    ensures forall c | c in cells && c.isHeader :: c.row <= top
    ensures top == -1 || exists c :: c in cells && c.isHeader && c.row == top
    ensures top >= -1
  {
    if cells == [] then -1
    else
      var rest := Highest(cells[1..]);
      assert forall c :: c in cells <==> c == cells[0] || c in cells[1..];
      if cells[0].isHeader && cells[0].row > rest then cells[0].row else rest
  }

  /** `Math.max(...headerRows) + 1` */
  function FirstDataRow(table: Table): nat {
    if ExplicitHeaderRows(table.cells) != {} then Highest(table.cells) + 1 else 1
  }

  predicate CellBefore(a: Cell, b: Cell) { a.row < b.row || (a.row == b.row && a.column <= b.column) }

  function HeaderCells(cells: seq<Cell>, rows: set<nat>): seq<Cell> {
    if cells == [] then []
    else if cells[0].row in rows then [cells[0]] + HeaderCells(cells[1..], rows)
    else HeaderCells(cells[1..], rows)
  }

  function Signed(folding: Folding, cells: seq<Cell>): Text {
    if cells == [] then []
    else
      var first := NatText(cells[0].column) + Ascii(":") + folding.header(cells[0].content);
      if |cells| == 1 then first else first + Ascii("|") + Signed(folding, cells[1..])
  }

  function HeaderSignature(folding: Folding, table: Table): Text {
    Signed(folding, SortBy(CellBefore, HeaderCells(table.cells, HeaderRows(table))))
  }

  // ---- the order of the fragments ------------------------------------------------------------

  const MAX_SAFE_INTEGER: nat := 9007199254740991

  function PageOrLast(f: Fragment): nat { if f.page == None then MAX_SAFE_INTEGER else f.page.value }

  predicate Before(a: Fragment, b: Fragment) {
    PageOrLast(a) < PageOrLast(b) || (PageOrLast(a) == PageOrLast(b) && a.index <= b.index)
  }

  function Fragments(folding: Folding, tables: seq<Table>): seq<Fragment> {
    seq(|tables|, i requires 0 <= i < |tables| => Fragment(tables[i], i, SinglePage(tables[i]),
                                                           HeaderSignature(folding, tables[i])))
  }

  // ---- stitching -----------------------------------------------------------------------------

  function Span(s: Option<Count>): Count { if s == None then 1 else s.value }

  function Place(folding: Folding, c: Cell, index: nat, page: Option<Count>, row: int): PlacedCell {
    var number := if page.Some? then page.value else if c.pages != [] then c.pages[0] else 0;
    PlacedCell(row, c.column, Span(c.rowSpan), Span(c.columnSpan), folding.content(c.content),
               Source(index, number, c.row, c.column, c.pages))
  }

  /** The cells from row `first` on, moved down by `offset`. */
  function PlaceAll(folding: Folding, cells: seq<Cell>, first: nat, index: nat, page: Option<Count>,
                    offset: int): seq<PlacedCell> {
    if cells == [] then []
    else
      var n := |cells| - 1;
      var placed := PlaceAll(folding, cells[..n], first, index, page, offset);
      if cells[n].row < first then placed else placed + [Place(folding, cells[n], index, page, cells[n].row + offset)]
  }

  function Build(folding: Folding, f: Fragment): PlacedTable {
    PlacedTable(f.table.columnCount, f.table.rowCount, f.header, [f.index],
                if f.page == None then [] else [f.page.value],
                PlaceAll(folding, f.table.cells, 0, f.index, f.page, 0))
  }

  predicate CanJoin(prior: PlacedTable, f: Fragment) {
    && f.page.Some? && prior.pages != [] && prior.pages[|prior.pages| - 1] + 1 == f.page.value
    && prior.columnCount == f.table.columnCount
    && prior.header != [] && prior.header == f.header
  }

  function Join(folding: Folding, prior: PlacedTable, f: Fragment): PlacedTable
    requires f.page.Some?
  {
    var first := FirstDataRow(f.table);
    PlacedTable(prior.columnCount, prior.rowCount + f.table.rowCount - first, prior.header, prior.sources + [f.index],
                prior.pages + [f.page.value],
                prior.cells + PlaceAll(folding, f.table.cells, first, f.index, f.page, prior.rowCount - first))
  }

  predicate Joins(output: seq<PlacedTable>, f: Fragment) { output != [] && CanJoin(output[|output| - 1], f) }

  function Step(folding: Folding, output: seq<PlacedTable>, f: Fragment): seq<PlacedTable> {
    if Joins(output, f) then output[..|output| - 1] + [Join(folding, output[|output| - 1], f)]
        else output + [Build(folding, f)]
  }

  function Stitched(folding: Folding, fs: seq<Fragment>): seq<PlacedTable> {
    if fs == [] then [] else Step(folding, Stitched(folding, fs[..|fs| - 1]), fs[|fs| - 1])
  }

  function Reassembled(folding: Folding, tables: seq<Table>): seq<PlacedTable> {
    Stitched(folding, SortBy(Before, Fragments(folding, tables)))
  }

  /** An output table that later fragments are appended to. */
  class Assembly {
    const columnCount: Count
    var rowCount: int
    const header: Text
    var sources: seq<nat>
    var pages: seq<Count>
    var cells: seq<PlacedCell>

    function View(): PlacedTable
      reads this
    {
      PlacedTable(columnCount, rowCount, header, sources, pages, cells)
    }

    constructor (folding: Folding, f: Fragment)
      ensures View() == Build(folding, f)
    {
      columnCount, rowCount, header, sources := f.table.columnCount, f.table.rowCount, f.header, [f.index];
      pages := if f.page == None then [] else [f.page.value];
      cells := PlaceAll(folding, f.table.cells, 0, f.index, f.page, 0);
    }

    method Append(folding: Folding, f: Fragment)
      requires f.page.Some?
      modifies this
      ensures View() == Join(folding, old(View()), f)
    {
      hide Place;
      hide FirstDataRow;
      var first := FirstDataRow(f.table);
      var offset := rowCount - first;
      ghost var before, placed: seq<PlacedCell> := cells, [];
      for i := 0 to |f.table.cells|
        invariant placed == PlaceAll(folding, f.table.cells[..i], first, f.index, f.page, offset)
            && cells == before + placed
        invariant rowCount == old(rowCount) && sources == old(sources) && pages == old(pages)
      {
        var c := f.table.cells[i];
        assert f.table.cells[..i + 1][..i] == f.table.cells[..i];
        if c.row < first { continue; }
        var cell := Place(folding, c, f.index, f.page, c.row + offset);
        cells := cells + [cell];
        placed := placed + [cell];
      }
      assert f.table.cells[..|f.table.cells|] == f.table.cells;
      rowCount := rowCount + f.table.rowCount - first;
      sources := sources + [f.index];
      pages := pages + [f.page.value];
    }
  }

  function Views(output: seq<Assembly>): (v: seq<PlacedTable>)
    reads output
    ensures |v| == |output| && forall i | 0 <= i < |v| :: v[i] == output[i].View()
  {
    seq(|output|, i requires 0 <= i < |output| reads output => output[i].View())
  }

  method ReassembleMultipageTables(folding: Folding, tables: seq<Table>) returns (output: seq<Assembly>)
    ensures fresh(output)
    ensures Views(output) == Reassembled(folding, tables)
  {
    var fragments := SortBy(Before, Fragments(folding, tables));
    output := [];
    hide Step;
    for i := 0 to |fragments|
      invariant fresh(output)
      invariant forall j, k | 0 <= j < k < |output| :: output[j] != output[k]
      invariant Views(output) == Stitched(folding, fragments[..i])
    {
      var f := fragments[i];
      assert fragments[..i + 1][..i] == fragments[..i];
      output := AddFragment(folding, output, f);
    }
    assert fragments[..|fragments|] == fragments;
  }

  /** One turn of the loop: append to the last output table, or start a new one. */
  method AddFragment(folding: Folding, output: seq<Assembly>, f: Fragment) returns (more: seq<Assembly>)
    requires forall j, k | 0 <= j < k < |output| :: output[j] != output[k]
    modifies output
    ensures fresh(set a | a in more && a !in output)
    ensures forall j, k | 0 <= j < k < |more| :: more[j] != more[k]
    ensures Views(more) == Step(folding, old(Views(output)), f)
  {
    hide Build;
    hide Join;
    hide CanJoin;
    more := output;
    ghost var before := Views(output);
    if output != [] && CanJoin(output[|output| - 1].View(), f) {
      var n := |output| - 1;
      JoinNeedsPage(before[n], f);
      output[n].Append(folding, f);
      forall j | 0 <= j < n ensures Views(output)[j] == before[j] { assert output[j] != output[n]; }
      assert Views(output) == before[..n] + [output[n].View()];
    } else {
      var built := new Assembly(folding, f);
      more := output + [built];
      assert Views(more) == before + [built.View()];
    }
  }

  lemma JoinNeedsPage(prior: PlacedTable, f: Fragment)
    requires CanJoin(prior, f)
    ensures f.page.Some?
  {
  }

  // ---- geometry ------------------------------------------------------------------------------

  predicate InBounds(c: PlacedCell, rows: int, columns: int) {
    0 <= c.row && c.row + c.rowSpan <= rows && c.column + c.columnSpan <= columns
  }

  /** Two rectangles with no coordinate in common. */
  predicate Apart(a: PlacedCell, b: PlacedCell) {
    || a.row + a.rowSpan <= b.row || b.row + b.rowSpan <= a.row
    || a.column + a.columnSpan <= b.column || b.column + b.columnSpan <= a.column
  }

  predicate Sound(t: PlacedTable) {
    && t.rowCount > 0
    && (forall i | 0 <= i < |t.cells| :: InBounds(t.cells[i], t.rowCount, t.columnCount))
    && forall i, j | 0 <= i < j < |t.cells| :: Apart(t.cells[i], t.cells[j])
  }

  /** The rectangles of a fragment are in bounds and pairwise disjoint. */
  predicate FragmentSound(t: Table) {
    && (forall i | 0 <= i < |t.cells| ::
         t.cells[i].row + Span(t.cells[i].rowSpan) <= t.rowCount
             && t.cells[i].column + Span(t.cells[i].columnSpan) <= t.columnCount)
    && forall i, j | 0 <= i < j < |t.cells| :: CellsApart(t.cells[i], t.cells[j])
  }

  predicate CellsApart(a: Cell, b: Cell) {
    || a.row + Span(a.rowSpan) <= b.row || b.row + Span(b.rowSpan) <= a.row
    || a.column + Span(a.columnSpan) <= b.column || b.column + Span(b.columnSpan) <= a.column
  }

  /** Placing keeps the rectangles of a fragment: each placed cell is one of its cells moved by the offset. */
  lemma {:induction false} PlacedCells(folding: Folding, cells: seq<Cell>, first: nat, index: nat, page: Option<Count>,
                                       offset: int)
    returns (from: seq<nat>)
    ensures var placed := PlaceAll(folding, cells, first, index, page, offset);
      && |from| == |placed|
      && (forall i | 0 <= i < |from| :: from[i] < |cells| && cells[from[i]].row >= first
           && placed[i] == Place(folding, cells[from[i]], index, page, cells[from[i]].row + offset))
      && forall i, j | 0 <= i < j < |from| :: from[i] < from[j]
    decreases |cells|
  {
    if cells == [] {
      from := [];
    } else {
      var n := |cells| - 1;
      from := PlacedCells(folding, cells[..n], first, index, page, offset);
      if cells[n].row >= first { from := from + [n]; }
    }
  }

  lemma HeaderRowsInside(t: Table)
    requires FragmentSound(t)
    ensures FirstDataRow(t) <= t.rowCount
  {
    if ExplicitHeaderRows(t.cells) != {} {
      var top := Highest(t.cells);
      if top >= 0 {
        var c :| c in t.cells && c.isHeader && c.row == top;
        var i :| 0 <= i < |t.cells| && t.cells[i] == c;
      }
    }
  }

  /** Pairwise disjoint rectangles in the given rows and columns. */
  predicate Block(cells: seq<PlacedCell>, top: int, bottom: int, columns: int) {
    && (forall i | 0 <= i < |cells| ::
         top <= cells[i].row && cells[i].row + cells[i].rowSpan <= bottom
             && cells[i].column + cells[i].columnSpan <= columns)
    && forall i, j | 0 <= i < j < |cells| :: Apart(cells[i], cells[j])
  }

  /** The moved block of a fragment is in bounds and pairwise disjoint. */
  lemma BlockSound(folding: Folding, f: Fragment, first: nat, offset: int)
    requires FragmentSound(f.table)
    ensures Block(PlaceAll(folding, f.table.cells, first, f.index, f.page, offset), first + offset,
                  f.table.rowCount + offset, f.table.columnCount)
  {
    var from := PlacedCells(folding, f.table.cells, first, f.index, f.page, offset);
    hide PlaceAll;
    var placed := PlaceAll(folding, f.table.cells, first, f.index, f.page, offset);
    forall i, j | 0 <= i < j < |placed| ensures Apart(placed[i], placed[j]) {
      assert CellsApart(f.table.cells[from[i]], f.table.cells[from[j]]);
    }
  }

  lemma JoinSound(folding: Folding, prior: PlacedTable, f: Fragment)
    requires Sound(prior) && FragmentSound(f.table) && CanJoin(prior, f)
    ensures Sound(Join(folding, prior, f))
  {
    hide *;
    var first := FirstDataRow(f.table);
    HeaderRowsInside(f.table);
    BlockSound(folding, f, first, prior.rowCount - first);
    JoinShape(folding, prior, f);
    var u := Join(folding, prior, f);
    Stack(prior, PlaceAll(folding, f.table.cells, first, f.index, f.page, prior.rowCount - first), u.rowCount, u);
  }

  lemma JoinShape(folding: Folding, prior: PlacedTable, f: Fragment)
    requires CanJoin(prior, f)
    ensures f.page.Some? && prior.columnCount == f.table.columnCount
    ensures var first, u := FirstDataRow(f.table), Join(folding, prior, f);
      && u.cells == prior.cells + PlaceAll(folding, f.table.cells, first, f.index, f.page, prior.rowCount - first)
      && u.rowCount == prior.rowCount + f.table.rowCount - first && u.columnCount == prior.columnCount
  {
    hide PlaceAll;
    hide FirstDataRow;
  }

  /** A sound block below a sound table makes a sound table. */
  lemma Stack(prior: PlacedTable, block: seq<PlacedCell>, rows: int, u: PlacedTable)
    requires Sound(prior) && rows >= prior.rowCount
    requires Block(block, prior.rowCount, rows, prior.columnCount)
    requires u.cells == prior.cells + block && u.rowCount == rows && u.columnCount == prior.columnCount
    ensures Sound(u)
  {
    var m := |prior.cells|;
    forall i | 0 <= i < |u.cells| ensures InBounds(u.cells[i], u.rowCount, u.columnCount) {
      assert i < m ==> InBounds(prior.cells[i], prior.rowCount, prior.columnCount);
    }
    forall i, j | 0 <= i < j < |u.cells| ensures Apart(u.cells[i], u.cells[j]) {
      assert i < m ==> InBounds(prior.cells[i], prior.rowCount, prior.columnCount);
      assert j < m ==> Apart(prior.cells[i], prior.cells[j]);
      assert i >= m ==> Apart(block[i - m], block[j - m]);
    }
  }

  /** Stitching never introduces an overlap or an out-of-bounds span, however many fragments are joined. */
  lemma {:induction false} StitchingKeepsGeometry(folding: Folding, fs: seq<Fragment>)
    requires forall i | 0 <= i < |fs| :: FragmentSound(fs[i].table)
    ensures forall k | 0 <= k < |Stitched(folding, fs)| :: Sound(Stitched(folding, fs)[k])
    decreases |fs|
  {
    if fs != [] {
      var n := |fs| - 1;
      StitchingKeepsGeometry(folding, fs[..n]);
      StepKeepsGeometry(folding, Stitched(folding, fs[..n]), fs[n]);
    }
  }

  lemma StepKeepsGeometry(folding: Folding, output: seq<PlacedTable>, f: Fragment)
    requires FragmentSound(f.table) && forall k | 0 <= k < |output| :: Sound(output[k])
    ensures forall k | 0 <= k < |Step(folding, output, f)| :: Sound(Step(folding, output, f)[k])
  {
    BuildSound(folding, f);
    if Joins(output, f) { JoinSound(folding, output[|output| - 1], f); }
    hide FragmentSound;
    hide Sound;
    hide Join;
    hide Build;
  }

  lemma BuildSound(folding: Folding, f: Fragment)
    requires FragmentSound(f.table)
    ensures Sound(Build(folding, f))
  {
    BlockSound(folding, f, 0, 0);
    hide PlaceAll;
  }

  lemma ReassemblyKeepsGeometry(folding: Folding, tables: seq<Table>)
    requires forall i | 0 <= i < |tables| :: FragmentSound(tables[i])
    ensures forall k | 0 <= k < |Reassembled(folding, tables)| :: Sound(Reassembled(folding, tables)[k])
  {
    var fs := SortBy(Before, Fragments(folding, tables));
    SortKeepsMembers(Before, Fragments(folding, tables));
    forall i | 0 <= i < |fs| ensures FragmentSound(fs[i].table) {
      assert fs[i] in Fragments(folding, tables);
    }
    StitchingKeepsGeometry(folding, fs);
  }

  // ---- partition -----------------------------------------------------------------------------

  /** Where a cell comes from. */
  datatype Origin = Origin(table: nat, row: nat, column: nat, rowSpan: Count, columnSpan: Count)

  function OriginOf(c: PlacedCell): Origin {
    Origin(c.source.table, c.source.row, c.source.column, c.rowSpan, c.columnSpan)
  }

  function Origins(cells: seq<PlacedCell>): seq<Origin> {
    seq(|cells|, i requires 0 <= i < |cells| => OriginOf(cells[i]))
  }

  /** The cells of a provider table from row `first` on, in order. */
  function OwnOrigins(cells: seq<Cell>, index: nat, first: nat): seq<Origin> {
    if cells == [] then []
    else
      var n := |cells| - 1;
      var c := cells[n];
      OwnOrigins(cells[..n], index, first)
      + if c.row < first then [] else [Origin(index, c.row, c.column, Span(c.rowSpan), Span(c.columnSpan))]
  }

  /** Every cell of the first table, and the cells below the header block of each later one. */
  function ExpectedOrigins(tables: seq<Table>, sources: seq<nat>): seq<Origin>
    requires forall i | 0 <= i < |sources| :: sources[i] < |tables|
  {
    if sources == [] then []
    else
      var n := |sources| - 1;
      var t := tables[sources[n]];
      ExpectedOrigins(tables, sources[..n]) + OwnOrigins(t.cells, sources[n], if n == 0 then 0 else FirstDataRow(t))
  }

  /** The rows of the first table, and the rows below the header block of each later one. */
  function ExpectedRows(tables: seq<Table>, sources: seq<nat>): int
    requires forall i | 0 <= i < |sources| :: sources[i] < |tables|
  {
    if sources == [] then 0
    else
      var n := |sources| - 1;
      var t := tables[sources[n]];
      ExpectedRows(tables, sources[..n]) + t.rowCount - if n == 0 then 0 else FirstDataRow(t)
  }

  /** Known source tables. */
  predicate Known(tables: seq<Table>, sources: seq<nat>) { forall i | 0 <= i < |sources| :: sources[i] < |tables| }

  predicate Consecutive(pages: seq<Count>) { forall i | 0 <= i < |pages| :: pages[i] == pages[0] + i }

  predicate PageByPage(tables: seq<Table>, sources: seq<nat>, pages: seq<Count>)
    requires Known(tables, sources)
  {
    |pages| == |sources| && forall i | 0 <= i < |pages| :: SinglePage(tables[sources[i]]) == Some(pages[i])
  }

  /** The pages are those of the source tables and follow each other; a table without a page stays alone. */
  predicate PagesFollow(tables: seq<Table>, t: PlacedTable)
    requires Known(tables, t.sources)
  {
    && Consecutive(t.pages)
    && (if t.pages == [] then |t.sources| == 1 && SinglePage(tables[t.sources[0]]) == None
        else PageByPage(tables, t.sources, t.pages))
  }

  ghost predicate Faithful(tables: seq<Table>, t: PlacedTable) {
    && t.sources != [] && Known(tables, t.sources)
    && PagesFollow(tables, t)
    && CellsOfSources(tables, t)
  }

  /** Cells and rows are those of the source tables, less the header blocks of joined ones. */
  predicate CellsOfSources(tables: seq<Table>, t: PlacedTable)
    requires Known(tables, t.sources)
  {
    Origins(t.cells) == ExpectedOrigins(tables, t.sources) && t.rowCount == ExpectedRows(tables, t.sources)
  }

  predicate FragmentOf(tables: seq<Table>, f: Fragment) {
    f.index < |tables| && f.table == tables[f.index] && f.page == SinglePage(f.table)
  }

  lemma {:induction false} PlacingKeepsOrigins(folding: Folding, cells: seq<Cell>, first: nat, index: nat,
                                               page: Option<Count>, offset: int)
    ensures Origins(PlaceAll(folding, cells, first, index, page, offset)) == OwnOrigins(cells, index, first)
    decreases |cells|
  {
    if cells != [] { PlacingKeepsOrigins(folding, cells[..|cells| - 1], first, index, page, offset); }
  }

  lemma BuildFaithful(folding: Folding, tables: seq<Table>, f: Fragment)
    requires FragmentOf(tables, f)
    ensures Faithful(tables, Build(folding, f))
  {
    PlacingKeepsOrigins(folding, f.table.cells, 0, f.index, f.page, 0);
    hide PlaceAll;
    hide OwnOrigins;
    hide FirstDataRow;
    var t := Build(folding, f);
    assert t.sources[..0] == [];
    assert ExpectedOrigins(tables, t.sources) == OwnOrigins(f.table.cells, f.index, 0);
    assert ExpectedRows(tables, t.sources) == f.table.rowCount;
  }

  lemma JoinedPages(folding: Folding, tables: seq<Table>, prior: PlacedTable, f: Fragment)
    requires Faithful(tables, prior) && FragmentOf(tables, f) && CanJoin(prior, f)
    ensures Known(tables, Join(folding, prior, f).sources) && PagesFollow(tables, Join(folding, prior, f))
  {
    JoinFields(folding, prior, f);
    hide Join;
    hide CanJoin;
    hide SinglePage;
    hide CellsOfSources;
    hide Known;
    hide Consecutive;
    hide PageByPage;
    OneKnownMore(tables, prior.sources, f.index);
    OnePageMore(prior.pages, f.page.value);
    OneSourceMore(tables, prior.sources, prior.pages, f.index, f.page.value);
  }

  lemma OneKnownMore(tables: seq<Table>, sources: seq<nat>, index: nat)
    requires Known(tables, sources) && index < |tables|
    ensures Known(tables, sources + [index])
  {
  }

  lemma OnePageMore(pages: seq<Count>, page: Count)
    requires Consecutive(pages) && pages != [] && page == pages[|pages| - 1] + 1
    ensures Consecutive(pages + [page])
  {
  }

  lemma OneSourceMore(tables: seq<Table>, sources: seq<nat>, pages: seq<Count>, index: nat, page: Count)
    requires Known(tables, sources) && index < |tables| && PageByPage(tables, sources, pages)
        && SinglePage(tables[index]) == Some(page)
    ensures Known(tables, sources + [index]) && PageByPage(tables, sources + [index], pages + [page])
  {
    hide SinglePage;
  }

  lemma JoinFields(folding: Folding, prior: PlacedTable, f: Fragment)
    requires CanJoin(prior, f)
    ensures var t := Join(folding, prior, f);
            t.sources == prior.sources + [f.index] && t.pages == prior.pages + [f.page.value]
    ensures prior.pages != [] && f.page.Some? && f.page.value == prior.pages[|prior.pages| - 1] + 1
  {
    hide PlaceAll;
    hide FirstDataRow;
    hide HeaderSignature;
  }

  lemma JoinFaithful(folding: Folding, tables: seq<Table>, prior: PlacedTable, f: Fragment)
    requires Faithful(tables, prior) && FragmentOf(tables, f) && CanJoin(prior, f)
    ensures Faithful(tables, Join(folding, prior, f))
  {
    JoinedPages(folding, tables, prior, f);
    JoinedCells(folding, tables, prior, f);
    hide PagesFollow;
    hide CellsOfSources;
    hide CanJoin;
    hide PlaceAll;
    hide FirstDataRow;
  }

  lemma OriginsOfBoth(a: seq<PlacedCell>, b: seq<PlacedCell>)
    ensures Origins(a + b) == Origins(a) + Origins(b)
  {
  }

  lemma JoinedCells(folding: Folding, tables: seq<Table>, prior: PlacedTable, f: Fragment)
    requires prior.sources != [] && (forall i | 0 <= i < |prior.sources| :: prior.sources[i] < |tables|)
        && CellsOfSources(tables, prior)
    requires FragmentOf(tables, f) && f.page.Some?
    ensures Join(folding, prior, f).sources == prior.sources + [f.index]
    ensures CellsOfSources(tables, Join(folding, prior, f))
  {
    var first := FirstDataRow(f.table);
    PlacingKeepsOrigins(folding, f.table.cells, first, f.index, f.page, prior.rowCount - first);
    OriginsOfBoth(prior.cells, PlaceAll(folding, f.table.cells, first, f.index, f.page, prior.rowCount - first));
    ExpectedOneMore(tables, prior.sources, f.index);
    hide PlaceAll;
    hide OwnOrigins;
    hide FirstDataRow;
    hide Origins;
    hide ExpectedOrigins;
    hide ExpectedRows;
  }

  lemma ExpectedOneMore(tables: seq<Table>, sources: seq<nat>, index: nat)
    requires sources != [] && index < |tables| && forall i | 0 <= i < |sources| :: sources[i] < |tables|
    ensures ExpectedOrigins(tables, sources + [index])
         == ExpectedOrigins(tables, sources) + OwnOrigins(tables[index].cells, index, FirstDataRow(tables[index]))
    ensures ExpectedRows(tables, sources + [index]) == ExpectedRows(tables, sources)
        + tables[index].rowCount - FirstDataRow(tables[index])
  {
    assert (sources + [index])[..|sources|] == sources;
    hide OwnOrigins;
    hide FirstDataRow;
  }

  ghost predicate AllFaithful(tables: seq<Table>, output: seq<PlacedTable>) {
    forall k | 0 <= k < |output| :: Faithful(tables, output[k])
  }

  lemma FaithfulWithLast(tables: seq<Table>, output: seq<PlacedTable>, last: PlacedTable)
    requires AllFaithful(tables, output) && Faithful(tables, last)
    ensures AllFaithful(tables, output + [last])
  {
    hide Faithful;
  }

  lemma FaithfulPrefix(tables: seq<Table>, output: seq<PlacedTable>)
    requires AllFaithful(tables, output) && output != []
    ensures AllFaithful(tables, output[..|output| - 1]) && Faithful(tables, output[|output| - 1])
  {
    hide Faithful;
  }

  lemma StepFaithful(folding: Folding, tables: seq<Table>, output: seq<PlacedTable>, f: Fragment)
    requires FragmentOf(tables, f) && AllFaithful(tables, output)
    ensures AllFaithful(tables, Step(folding, output, f))
  {
    hide Faithful;
    hide AllFaithful;
    hide FragmentOf;
    hide CanJoin;
    hide Join;
    hide Build;
    if Joins(output, f) {
      var n := |output| - 1;
      FaithfulPrefix(tables, output);
      JoinNeedsPage(output[n], f);
      JoinFaithful(folding, tables, output[n], f);
      FaithfulWithLast(tables, output[..n], Join(folding, output[n], f));
    } else {
      BuildFaithful(folding, tables, f);
      FaithfulWithLast(tables, output, Build(folding, f));
    }
  }

  lemma {:induction false} StitchedFaithful(folding: Folding, tables: seq<Table>, fs: seq<Fragment>)
    requires forall i | 0 <= i < |fs| :: FragmentOf(tables, fs[i])
    ensures AllFaithful(tables, Stitched(folding, fs))
    decreases |fs|
  {
    hide Faithful;
    hide FragmentOf;
    hide Step;
    if fs != [] {
      var n := |fs| - 1;
      StitchedFaithful(folding, tables, fs[..n]);
      StepFaithful(folding, tables, Stitched(folding, fs[..n]), fs[n]);
    }
  }

  function AllSources(output: seq<PlacedTable>): seq<nat> {
    if output == [] then [] else AllSources(output[..|output| - 1]) + output[|output| - 1].sources
  }

  function Indexes(fs: seq<Fragment>): seq<nat> { seq(|fs|, i requires 0 <= i < |fs| => fs[i].index) }

  lemma OneMoreTable(output: seq<PlacedTable>, t: PlacedTable)
    ensures AllSources(output + [t]) == AllSources(output) + t.sources
  {
    assert (output + [t])[..|output|] == output;
  }

  lemma StepSources(folding: Folding, output: seq<PlacedTable>, f: Fragment)
    ensures AllSources(Step(folding, output, f)) == AllSources(output) + [f.index]
  {
    if Joins(output, f) {
      var m := |output| - 1;
      OneMoreTable(output[..m], Join(folding, output[m], f));
      OneMoreTable(output[..m], output[m]);
      assert output == output[..m] + [output[m]];
    } else {
      OneMoreTable(output, Build(folding, f));
    }
  }

  lemma {:induction false} StitchedSources(folding: Folding, fs: seq<Fragment>)
    ensures AllSources(Stitched(folding, fs)) == Indexes(fs)
    decreases |fs|
  {
    hide Step;
    hide AllSources;
    if fs != [] {
      var n := |fs| - 1;
      StitchedSources(folding, fs[..n]);
      StepSources(folding, Stitched(folding, fs[..n]), fs[n]);
      assert Indexes(fs) == Indexes(fs[..n]) + [fs[n].index];
    } else {
      NoSources();
    }
  }

  lemma NoSources()
    ensures AllSources([]) == []
  {
  }

  lemma {:induction false} EachIndexOnce(n: nat, i: nat)
    ensures multiset(seq(n, k => k))[i] == if i < n then 1 else 0
    decreases n
  {
    if n > 0 {
      EachIndexOnce(n - 1, i);
      assert seq(n, k => k) == seq(n - 1, k => k) + [n - 1];
    }
  }

  lemma {:induction false} IndexesKeepCount(s: seq<Fragment>, t: seq<Fragment>)
    requires multiset(s) == multiset(t)
    ensures multiset(Indexes(s)) == multiset(Indexes(t))
  {
    var p := FindPermutation(s, t);
    assert MatchedBy(p, Indexes(s), Indexes(t)) by {
      hide IsPermutation;
    }
    PermutationKeepsMultiset(p, Indexes(s), Indexes(t));
  }

  lemma SortedFragments(folding: Folding, tables: seq<Table>)
    ensures var fs := SortBy(Before, Fragments(folding, tables));
      && (forall i | 0 <= i < |fs| :: FragmentOf(tables, fs[i]))
      && multiset(Indexes(fs)) == multiset(seq(|tables|, k => k))
  {
    var all := Fragments(folding, tables);
    var fs := SortBy(Before, all);
    SortKeepsMultiset(Before, all);
    SortKeepsMembers(Before, all);
    hide SortBy;
    hide HeaderSignature;
    hide SinglePage;
    forall i | 0 <= i < |fs| ensures FragmentOf(tables, fs[i]) { assert fs[i] in all; }
    IndexesKeepCount(all, fs);
    assert Indexes(all) == seq(|tables|, k => k);
  }

  /** Reassembly partitions its input: each source table is in exactly one output; the pages of an output follow
      each other; and its cells are those of its sources, each exactly once, without the header block of every
      table but the first. */
  lemma ReassemblyPartitions(folding: Folding, tables: seq<Table>)
    ensures forall i: nat :: multiset(AllSources(Reassembled(folding, tables)))[i] == if i < |tables| then 1 else 0
    ensures forall k | 0 <= k < |Reassembled(folding, tables)| :: Faithful(tables, Reassembled(folding, tables)[k])
  {
    var fs := SortBy(Before, Fragments(folding, tables));
    SortedFragments(folding, tables);
    StitchedFaithful(folding, tables, fs);
    StitchedSources(folding, fs);
    assert Reassembled(folding, tables) == Stitched(folding, fs);
    hide *;
    SourcesOnce(|tables|, AllSources(Reassembled(folding, tables)));
  }

  lemma SourcesOnce(n: nat, sources: seq<nat>)
    requires multiset(sources) == multiset(seq(n, k => k))
    ensures forall i: nat :: multiset(sources)[i] == if i < n then 1 else 0
  {
    forall i: nat ensures multiset(sources)[i] == if i < n then 1 else 0 { EachIndexOnce(n, i); }
  }
}
