/** Which fragments are joined, and where their cells go. */
module JoinLaws {
  import opened Reassembly
  import opened Sorting
  import opened Sums
  import opened Texts

  // What src/modules/contracts/reassemble-multipage-tables.ts promises of its output, said of the tables themselves.

  // ---- which tables share an output ----------------------------------------------------------

  /** Every region of the table and of its cells is on page `p`, and there is one. */
  predicate OnPage(t: Table, p: nat) {
    && p > 0 && (t.pages != [] || exists c :: c in t.cells && c.pages != [])
    && (forall q | q in t.pages :: q == p)
    && forall c, q | c in t.cells && q in c.pages :: q == p
  }

  /** `b` carries on where `a` ends. */
  ghost predicate Continues(folding: Folding, a: Table, b: Table) {
    && (exists p, q :: OnPage(a, p) && OnPage(b, q) && q == p + 1)
    && a.columnCount == b.columnCount
    && HeaderSignature(folding, a) != [] && HeaderSignature(folding, a) == HeaderSignature(folding, b)
  }

  predicate SharesOutput(output: seq<PlacedTable>, i: nat, j: nat) {
    exists k :: 0 <= k < |output| && i in output[k].sources && j in output[k].sources
  }

  /** The page a table sorts under: tables without a single page come last. */
  ghost predicate SortsUnder(t: Table, page: nat) {
    || OnPage(t, page)
    || (page == 9007199254740991 && forall p :: !OnPage(t, p))
  }

  /** By page, then by position. */
  ghost predicate InPageOrder(tables: seq<Table>, order: seq<nat>) {
    forall i, j, p, q | 0 <= i < j < |order| && order[i] < |tables| && order[j] < |tables|
                        && SortsUnder(tables[order[i]], p) && SortsUnder(tables[order[j]], q) ::
      p < q || (p == q && order[i] < order[j])
  }

  lemma SinglePageMeaning(t: Table, p: Count)
    ensures SinglePage(t) == Some(p) <==> OnPage(t, p)
  {
    var pages := PagesOf(t);
    InPages(t);
    OnlyElement(t, p);
    hide PagesOf;
    hide SinglePage;
    if OnPage(t, p) {
      var q := SomePage(t);
      assert q == p;
      assert pages == {p};
    }
    if pages == {p} {
      assert p in pages;
      if p !in t.pages { var c :| c in t.cells && p in c.pages; }
      assert t.pages != [] || exists c :: c in t.cells && c.pages != [];
      forall c, q: Count | c in t.cells && q in c.pages ensures q == p { assert q in pages; }
      forall q: Count | q in t.pages ensures q == p { assert q in pages; }
      assert OnPage(t, p);
    }
  }

  lemma OnlyElement(t: Table, p: Count)
    ensures SinglePage(t) == Some(p) <==> PagesOf(t) == {p}
  {
  }

  lemma InPages(t: Table)
    ensures forall q: Count :: q in PagesOf(t) <==> q in t.pages || exists c :: c in t.cells && q in c.pages
  {
    forall q: Count | q in PagesOf(t) && q !in t.pages ensures exists c :: c in t.cells && q in c.pages {
      var c, r :| c in t.cells && r in c.pages && r == q;
    }
    forall q: Count | exists c :: c in t.cells && q in c.pages ensures q in PagesOf(t) {
      var c :| c in t.cells && q in c.pages;
    }
  }

  lemma SomePage(t: Table) returns (q: Count)
    requires t.pages != [] || exists c :: c in t.cells && c.pages != []
    ensures q in PagesOf(t)
  {
    if t.pages != [] {
      q := t.pages[0];
    } else {
      var c :| c in t.cells && c.pages != [];
      q := c.pages[0];
      assert q in c.pages;
    }
  }

  lemma NoPageMeaning(t: Table)
    ensures SinglePage(t) == None <==> forall p :: !OnPage(t, p)
  {
    forall p: nat | OnPage(t, p) ensures SinglePage(t) == Some(p) { SinglePageMeaning(t, p); }
    if SinglePage(t).Some? {
      var p := SinglePage(t).value;
      SinglePageMeaning(t, p);
      assert OnPage(t, p);
    }
  }

  /** The rule the loop follows, on two fragments. */
  predicate Follows(a: Fragment, b: Fragment) {
    && a.page.Some? && b.page.Some? && b.page.value == a.page.value + 1
    && a.table.columnCount == b.table.columnCount && a.header != [] && a.header == b.header
  }

  /** The last output ends with fragment `f`. */
  predicate EndsWith(output: seq<PlacedTable>, f: Fragment) {
    && output != []
    && var last := output[|output| - 1];
       && last.sources != [] && last.sources[|last.sources| - 1] == f.index
       && last.columnCount == f.table.columnCount && last.header == f.header
       && (f.page == None ==> last.pages == [])
       && (f.page.Some? ==> last.pages != [] && last.pages[|last.pages| - 1] == f.page.value)
  }

  ghost predicate DistinctIndexes(fs: seq<Fragment>) { forall i, j | 0 <= i < j < |fs| :: fs[i].index != fs[j].index }

  /** Outputs hold fragments only, and neighbours share one exactly when the later follows the earlier. */
  ghost predicate Grouped(output: seq<PlacedTable>, fs: seq<Fragment>) {
    && (fs == [] ==> output == [])
    && (fs != [] ==> EndsWith(output, fs[|fs| - 1]))
    && (forall k, x | 0 <= k < |output| && x in output[k].sources :: Indexed(fs, x))
    && forall i, j | 0 <= i && j == i + 1 < |fs| :: SharesOutput(output, fs[i].index, fs[j].index)
                                                    <==> Follows(fs[i], fs[j])
  }

  predicate Indexed(fs: seq<Fragment>, x: nat) { exists i :: 0 <= i < |fs| && fs[i].index == x }

  lemma EndJoins(output: seq<PlacedTable>, a: Fragment, b: Fragment)
    requires EndsWith(output, a)
    ensures Joins(output, b) <==> Follows(a, b)
  {
  }

  lemma StepEnds(folding: Folding, output: seq<PlacedTable>, f: Fragment)
    ensures EndsWith(Step(folding, output, f), f)
  {
    hide PlaceAll;
    hide FirstDataRow;
  }

  /** What a step does to the sources. */
  lemma StepSharing(folding: Folding, output: seq<PlacedTable>, f: Fragment, i: nat, j: nat)
    ensures i != f.index && j != f.index
        ==> (SharesOutput(Step(folding, output, f), i, j) <==> SharesOutput(output, i, j))
  {
    var u := Step(folding, output, f);
    if i != f.index && j != f.index {
      if SharesOutput(output, i, j) {
        var k :| 0 <= k < |output| && i in output[k].sources && j in output[k].sources;
        assert i in u[k].sources && j in u[k].sources by {
          if Joins(output, f) && k == |output| - 1 {
            assert u[k].sources == output[k].sources + [f.index];
          } else { assert u[k] == output[k]; }
        }
      }
      if SharesOutput(u, i, j) {
        var k :| 0 <= k < |u| && i in u[k].sources && j in u[k].sources;
        if k < |output| {
          assert u[k] == output[k] || (Joins(output, f) && u[k].sources == output[k].sources + [f.index]);
          assert i in output[k].sources && j in output[k].sources;
        } else {
          assert u[k].sources == [f.index];
        }
      }
    }
    hide PlaceAll;
  }

  /** The new fragment shares an output with the last one exactly when it is joined. */
  lemma NewSharing(folding: Folding, output: seq<PlacedTable>, a: Fragment, f: Fragment)
    requires EndsWith(output, a) && a.index != f.index
    requires forall k | 0 <= k < |output| :: f.index !in output[k].sources
    ensures SharesOutput(Step(folding, output, f), a.index, f.index) <==> Joins(output, f)
  {
    var u, n := Step(folding, output, f), |output| - 1;
    hide PlaceAll;
    if Joins(output, f) {
      assert u[n].sources == output[n].sources + [f.index];
      assert a.index in output[n].sources;
      assert a.index in u[n].sources && f.index in u[n].sources;
    } else {
      forall k | 0 <= k < |u| ensures !(a.index in u[k].sources && f.index in u[k].sources) {
        if k <= n { assert u[k] == output[k]; } else { assert u[k].sources == [f.index]; }
      }
    }
  }

  lemma StepIndexed(folding: Folding, output: seq<PlacedTable>, fs: seq<Fragment>, f: Fragment)
    requires forall k, x | 0 <= k < |output| && x in output[k].sources :: Indexed(fs, x)
    ensures forall k, x | 0 <= k < |Step(folding, output, f)| && x in Step(folding, output, f)[k].sources ::
              Indexed(fs + [f], x)
  {
    var u := Step(folding, output, f);
    hide PlaceAll;
    forall k, x | 0 <= k < |u| && x in u[k].sources ensures Indexed(fs + [f], x) {
      if x == f.index {
        assert (fs + [f])[|fs|].index == x;
      } else {
        assert k < |output| && x in output[k].sources;
        assert Indexed(fs, x);
        var i :| 0 <= i < |fs| && fs[i].index == x;
        assert (fs + [f])[i].index == x;
      }
    }
  }

  lemma {:induction false} StitchedGroups(folding: Folding, fs: seq<Fragment>)
    requires DistinctIndexes(fs)
    ensures Grouped(Stitched(folding, fs), fs)
    decreases |fs|
  {
    if fs != [] {
      var n := |fs| - 1;
      var before, f := fs[..n], fs[n];
      assert fs == before + [f];
      StitchedGroups(folding, before);
      OneMoreGroups(folding, Stitched(folding, before), before, f);
    }
  }

  lemma OneMoreGroups(folding: Folding, output: seq<PlacedTable>, before: seq<Fragment>, f: Fragment)
    requires Grouped(output, before) && DistinctIndexes(before + [f])
    ensures Grouped(Step(folding, output, f), before + [f])
  {
    hide Step;
    hide Joins;
    hide Follows;
    hide SharesOutput;
    hide EndsWith;
    var fs, u, n := before + [f], Step(folding, output, f), |before|;
    forall i | 0 <= i < n ensures fs[i] == before[i] && fs[i].index != f.index { assert fs[n] == f; }
    StepEnds(folding, output, f);
    StepIndexed(folding, output, before, f);
    forall i, j | 0 <= i && j == i + 1 < |fs|
      ensures SharesOutput(u, fs[i].index, fs[j].index) <==> Follows(fs[i], fs[j])
    {
      if j < n {
        StepSharing(folding, output, f, fs[i].index, fs[j].index);
      } else {
        EndJoins(output, before[i], f);
        assert !Indexed(before, f.index);
        NewSharing(folding, output, before[i], f);
      }
    }
  }

  lemma DistinctPositions(s: seq<nat>, i: nat, j: nat)
    requires i < j < |s| && forall x :: multiset(s)[x] <= 1
    ensures s[i] != s[j]
  {
    assert s == s[..j] + s[j..];
    assert s[i] in s[..j] && s[j] in s[j..];
    assert multiset(s)[s[i]] == multiset(s[..j])[s[i]] + multiset(s[j..])[s[i]];
  }

  lemma BeforeIsPreorder()
    ensures TotalPreorder(Before)
  {
  }

  /** The fragments in the order the loop takes them. */
  function Taken(folding: Folding, tables: seq<Table>): seq<Fragment> { SortBy(Before, Fragments(folding, tables)) }

  /** A fragment as it is read off its table. */
  predicate IsFragment(folding: Folding, tables: seq<Table>, f: Fragment) {
    && f.index < |tables| && f.table == tables[f.index]
    && f.page == SinglePage(f.table) && f.header == HeaderSignature(folding, f.table)
  }

  lemma TakenFragments(folding: Folding, tables: seq<Table>)
    ensures var fs := Taken(folding, tables);
      && |fs| == |tables| && SortedBy(Before, fs) && DistinctIndexes(fs)
      && forall i | 0 <= i < |fs| :: IsFragment(folding, tables, fs[i]) && fs[i].index < |tables|
  {
    var all := Fragments(folding, tables);
    hide *;
    assert forall f | f in all :: IsFragment(folding, tables, f) by { AllFragments(folding, tables); }
    TakenSorted(folding, tables);
    TakenDistinct(folding, tables);
    var fs := Taken(folding, tables);
    forall i | 0 <= i < |fs| ensures IsFragment(folding, tables, fs[i]) && fs[i].index < |tables| {
      assert fs[i] in all;
      FragmentIndex(folding, tables, fs[i]);
    }
  }

  lemma FragmentIndex(folding: Folding, tables: seq<Table>, f: Fragment)
    requires IsFragment(folding, tables, f)
    ensures f.index < |tables|
  {
  }

  lemma AllFragments(folding: Folding, tables: seq<Table>)
    ensures forall f | f in Fragments(folding, tables) :: IsFragment(folding, tables, f)
  {
    hide SinglePage;
    hide HeaderSignature;
  }

  lemma TakenSorted(folding: Folding, tables: seq<Table>)
    ensures var all, fs := Fragments(folding, tables), Taken(folding, tables);
      |fs| == |tables| && SortedBy(Before, fs) && forall f | f in fs :: f in all
  {
    var all := Fragments(folding, tables);
    BeforeIsPreorder();
    SortSorts(Before, all);
    SortKeepsMultiset(Before, all);
    SortKeepsMembers(Before, all);
    hide SortBy;
    hide SinglePage;
    hide HeaderSignature;
    hide SortedBy;
  }

  lemma TakenDistinct(folding: Folding, tables: seq<Table>)
    ensures DistinctIndexes(Taken(folding, tables))
  {
    SortedFragments(folding, tables);
    var fs := Taken(folding, tables);
    hide Fragments;
    hide SortBy;
    SourcesOnce(|tables|, Indexes(fs));
    forall i, j | 0 <= i < j < |fs| ensures fs[i].index != fs[j].index { DistinctPositions(Indexes(fs), i, j); }
  }

  lemma TakenInPageOrder(tables: seq<Table>, a: Fragment, b: Fragment, p: nat, q: nat)
    requires Before(a, b) && a.index != b.index && a.page == SinglePage(a.table) && b.page == SinglePage(b.table)
    requires SortsUnder(a.table, p) && SortsUnder(b.table, q)
    ensures p < q || (p == q && a.index < b.index)
  {
    SortsUnderPage(a, p);
    SortsUnderPage(b, q);
  }

  lemma SortsUnderPage(f: Fragment, p: nat)
    requires f.page == SinglePage(f.table) && SortsUnder(f.table, p)
    ensures PageOrLast(f) == p
  {
    NoPageMeaning(f.table);
    if OnPage(f.table, p) { SinglePageMeaning(f.table, p); }
  }

  lemma FollowsMeaning(folding: Folding, a: Fragment, b: Fragment)
    requires a.page == SinglePage(a.table) && a.header == HeaderSignature(folding, a.table)
    requires b.page == SinglePage(b.table) && b.header == HeaderSignature(folding, b.table)
    ensures Follows(a, b) <==> Continues(folding, a.table, b.table)
  {
    hide OnPage;
    hide SinglePage;
    hide HeaderSignature;
    forall p: nat ensures OnPage(a.table, p) <==> a.page.Some? && a.page.value == p { PageIs(a.table, p); }
    forall p: nat ensures OnPage(b.table, p) <==> b.page.Some? && b.page.value == p { PageIs(b.table, p); }
    if Follows(a, b) { assert OnPage(a.table, a.page.value) && OnPage(b.table, b.page.value); }
  }

  lemma PageIs(t: Table, p: nat)
    ensures OnPage(t, p) <==> SinglePage(t).Some? && SinglePage(t).value == p
  {
    if p > 0 { SinglePageMeaning(t, p); }
  }

  lemma TakenByPage(folding: Folding, tables: seq<Table>, fs: seq<Fragment>)
    requires SortedBy(Before, fs) && DistinctIndexes(fs)
    requires forall i | 0 <= i < |fs| :: IsFragment(folding, tables, fs[i])
    ensures Known(tables, Indexes(fs)) && InPageOrder(tables, Indexes(fs))
  {
    var order := Indexes(fs);
    hide SortsUnder;
    hide SinglePage;
    hide HeaderSignature;
    hide Before;
    forall i, j, p, q | 0 <= i < j < |order| && SortsUnder(tables[order[i]], p) && SortsUnder(tables[order[j]], q)
      ensures p < q || (p == q && order[i] < order[j])
    {
      assert IsFragment(folding, tables, fs[i]) && IsFragment(folding, tables, fs[j]);
      TakenInPageOrder(tables, fs[i], fs[j], p, q);
    }
  }

  lemma TakenSharing(folding: Folding, tables: seq<Table>, fs: seq<Fragment>, output: seq<PlacedTable>, i: nat, j: nat)
    requires forall k | 0 <= k < |fs| :: IsFragment(folding, tables, fs[k])
    requires Grouped(output, fs) && j == i + 1 < |fs| && fs[i].index < |tables| && fs[j].index < |tables|
    ensures SharesOutput(output, fs[i].index, fs[j].index)
       <==> Continues(folding, tables[fs[i].index], tables[fs[j].index])
  {
    hide SharesOutput;
    hide Follows;
    hide Continues;
    hide EndsWith;
    hide SinglePage;
    hide HeaderSignature;
    hide Indexed;
    assert IsFragment(folding, tables, fs[i]) && IsFragment(folding, tables, fs[j]);
    FollowsMeaning(folding, fs[i], fs[j]);
  }

  /** Tables are taken by page, then by position, those without a single page last; and a table shares its output with
      the one taken before it exactly when it carries on where that one ends: next page, as many columns, and the same
      header text, which is not empty. */
  lemma JoinedExactlyWhen(folding: Folding, tables: seq<Table>)
    ensures var output := Reassembled(folding, tables); var order := AllSources(output);
      && |order| == |tables| && Known(tables, order) && InPageOrder(tables, order)
      && forall i, j | 0 <= i && j == i + 1 < |order| ::
           SharesOutput(output, order[i], order[j]) <==> Continues(folding, tables[order[i]], tables[order[j]])
  {
    var fs := Taken(folding, tables);
    assert Reassembled(folding, tables) == Stitched(folding, fs);
    TakenFragments(folding, tables);
    StitchedGroups(folding, fs);
    StitchedSources(folding, fs);
    hide *;
    TakenByPage(folding, tables, fs);
    var output, order := Reassembled(folding, tables), Indexes(fs);
    IndexesAre(fs);
    forall i, j | 0 <= i && j == i + 1 < |order|
      ensures SharesOutput(output, order[i], order[j]) <==> Continues(folding, tables[order[i]], tables[order[j]])
    {
      TakenSharing(folding, tables, fs, output, i, j);
    }
  }

  lemma IndexesAre(fs: seq<Fragment>)
    ensures |Indexes(fs)| == |fs| && forall i | 0 <= i < |fs| :: Indexes(fs)[i] == fs[i].index
  {
  }

  // ---- what a header text says ---------------------------------------------------------------

  const BAR: Unit := 124

  /** The rows of the cells marked as column headers; row 0 if no cell is. */
  predicate InHeaderRow(t: Table, row: nat) {
    || (exists c :: c in t.cells && c.isHeader && c.row == row)
    || (row == 0 && forall c | c in t.cells :: !c.isHeader)
  }

  /** `column:text` of one header cell. */
  function Entry(folding: Folding, c: Cell): Text { NatText(c.column) + [COLON] + folding.header(c.content) }

  /** The entries one after another, a bar between them. */
  function Barred(folding: Folding, cells: seq<Cell>): Text {
    if cells == [] then []
    else
      var n := |cells| - 1;
      if n == 0 then Entry(folding, cells[0]) else Barred(folding, cells[..n]) + [BAR] + Entry(folding, cells[n])
  }

  /** The cells of the header rows, each as often as it occurs, by row and then by column. */
  ghost predicate ListsHeader(t: Table, hs: seq<Cell>) { HoldsHeader(t, hs) && InReadingOrder(hs) }

  ghost predicate HoldsHeader(t: Table, hs: seq<Cell>) {
    forall c: Cell :: multiset(hs)[c] == if InHeaderRow(t, c.row) then multiset(t.cells)[c] else 0
  }

  predicate InReadingOrder(hs: seq<Cell>) {
    forall i, j | 0 <= i < j < |hs| :: hs[i].row < hs[j].row || (hs[i].row == hs[j].row
                                                                 && hs[i].column <= hs[j].column)
  }

  lemma HeaderRowsMeaning(t: Table, row: nat)
    ensures row in HeaderRows(t) <==> InHeaderRow(t, row)
  {
    if exists c :: c in t.cells && c.isHeader {
      var c :| c in t.cells && c.isHeader;
      assert c.row in ExplicitHeaderRows(t.cells);
    }
  }

  lemma {:induction false} HeaderCellsCount(cells: seq<Cell>, rows: set<nat>, c: Cell)
    ensures multiset(HeaderCells(cells, rows))[c] == if c.row in rows then multiset(cells)[c] else 0
    decreases |cells|
  {
    if cells != [] {
      assert cells == [cells[0]] + cells[1..];
      HeaderCellsCount(cells[1..], rows, c);
    }
  }

  lemma CellBeforeIsPreorder()
    ensures TotalPreorder(CellBefore)
  {
  }

  lemma {:induction false} BarredFromFront(folding: Folding, cells: seq<Cell>)
    requires |cells| >= 2
    ensures Barred(folding, cells) == Entry(folding, cells[0]) + [BAR] + Barred(folding, cells[1..])
    decreases |cells|
  {
    var n := |cells| - 1;
    hide Entry;
    if n >= 2 {
      BarredFromFront(folding, cells[..n]);
      assert cells[..n][1..] == cells[1..][..n - 1];
    } else {
      assert cells[..1] == [cells[0]] && cells[1..] == [cells[1]];
    }
  }

  lemma {:induction false} SignedIsBarred(folding: Folding, cells: seq<Cell>)
    ensures Signed(folding, cells) == Barred(folding, cells)
    decreases |cells|
  {
    if cells != [] {
      assert Ascii(":") == [COLON] && Ascii("|") == [BAR];
      SignedIsBarred(folding, cells[1..]);
      if |cells| >= 2 { BarredFromFront(folding, cells); }
      hide Barred;
    }
  }

  lemma HeaderHeld(t: Table)
    ensures HoldsHeader(t, SortBy(CellBefore, HeaderCells(t.cells, HeaderRows(t))))
  {
    var kept := HeaderCells(t.cells, HeaderRows(t));
    SortKeepsMultiset(CellBefore, kept);
    hide SortBy;
    hide HeaderCells;
    hide HeaderRows;
    hide InHeaderRow;
    forall c: Cell ensures multiset(kept)[c] == if InHeaderRow(t, c.row) then multiset(t.cells)[c] else 0 {
      HeaderCellsCount(t.cells, HeaderRows(t), c);
      HeaderRowsMeaning(t, c.row);
    }
  }

  lemma HeaderSorted(cells: seq<Cell>)
    ensures InReadingOrder(SortBy(CellBefore, cells))
  {
    CellBeforeIsPreorder();
    SortSorts(CellBefore, cells);
    hide SortBy;
    hide TotalPreorder;
  }

  /** The header text of a table: column and folded text of every cell in a header row, in reading order. */
  lemma HeaderTextMeaning(folding: Folding, t: Table) returns (hs: seq<Cell>)
    ensures ListsHeader(t, hs) && HeaderSignature(folding, t) == Barred(folding, hs)
  {
    hs := SortBy(CellBefore, HeaderCells(t.cells, HeaderRows(t)));
    SignedIsBarred(folding, hs);
    HeaderSorted(HeaderCells(t.cells, HeaderRows(t)));
    HeaderHeld(t);
    hide SortBy;
    hide HeaderCells;
    hide HeaderRows;
    hide HoldsHeader;
    hide InReadingOrder;
    hide Barred;
    hide Signed;
  }

  predicate SameEntries(folding: Folding, a: seq<Cell>, b: seq<Cell>) {
    && |a| == |b|
    && forall i | 0 <= i < |a| :: a[i].column == b[i].column
                                  && folding.header(a[i].content) == folding.header(b[i].content)
  }

  predicate NoBars(folding: Folding, cells: seq<Cell>) { forall c | c in cells :: BAR !in folding.header(c.content) }

  lemma EntriesTell(folding: Folding, a: Cell, b: Cell)
    requires Entry(folding, a) == Entry(folding, b)
    ensures a.column == b.column && folding.header(a.content) == folding.header(b.content)
  {
    CutAt(COLON, NatText(a.column), folding.header(a.content), NatText(b.column), folding.header(b.content));
    NatTextInjective(a.column, b.column);
  }

  lemma EntryHasNoBar(folding: Folding, c: Cell)
    requires BAR !in folding.header(c.content)
    ensures BAR !in Entry(folding, c)
  {
    assert forall x | x in NatText(c.column) :: IsDigit(x);
  }

  lemma BarMeansTwo(folding: Folding, cells: seq<Cell>)
    requires NoBars(folding, cells) && cells != []
    ensures BAR in Barred(folding, cells) <==> |cells| >= 2
  {
    EntryHasNoBar(folding, cells[0]);
    hide Entry;
    if |cells| >= 2 {
      BarredFromFront(folding, cells);
      assert Barred(folding, cells)[|Entry(folding, cells[0])|] == BAR;
    }
  }

  lemma {:induction false} BarredTells(folding: Folding, a: seq<Cell>, b: seq<Cell>)
    requires NoBars(folding, a) && NoBars(folding, b) && Barred(folding, a) == Barred(folding, b)
    ensures SameEntries(folding, a, b)
    decreases |a|
  {
    if a != [] && b != [] {
      EntryHasNoBar(folding, a[0]);
      EntryHasNoBar(folding, b[0]);
      if |a| >= 2 { BarredFromFront(folding, a); }
      if |b| >= 2 { BarredFromFront(folding, b); }
      hide Entry;
      BarMeansTwo(folding, a);
      BarMeansTwo(folding, b);
      if |a| >= 2 {
        CutAt(BAR, Entry(folding, a[0]), Barred(folding, a[1..]), Entry(folding, b[0]), Barred(folding, b[1..]));
        BarredTells(folding, a[1..], b[1..]);
        EntriesTell(folding, a[0], b[0]);
        forall i | 0 <= i < |a|
          ensures a[i].column == b[i].column && folding.header(a[i].content) == folding.header(b[i].content)
        {
          if i > 0 { assert a[i] == a[1..][i - 1] && b[i] == b[1..][i - 1]; }
        }
      } else {
        EntriesTell(folding, a[0], b[0]);
      }
    } else {
      BarredIsText(folding, a);
      BarredIsText(folding, b);
    }
  }

  lemma BarredIsText(folding: Folding, cells: seq<Cell>)
    ensures Barred(folding, cells) == [] <==> cells == []
  {
  }

  lemma {:induction false} SameEntriesSameText(folding: Folding, a: seq<Cell>, b: seq<Cell>)
    requires SameEntries(folding, a, b)
    ensures Barred(folding, a) == Barred(folding, b)
    decreases |a|
  {
    if a != [] { SameEntriesSameText(folding, a[..|a| - 1], b[..|b| - 1]); }
  }

  /** Two header texts are equal exactly when the header cells agree one by one in column and folded text, as long as no
      folded text contains a bar; and a header text is empty exactly when no cell lies in a header row. */
  lemma EqualHeaders(folding: Folding, a: Table, b: Table) returns (ha: seq<Cell>, hb: seq<Cell>)
    ensures ListsHeader(a, ha) && ListsHeader(b, hb)
    ensures HeaderSignature(folding, a) == [] <==> forall c | c in a.cells :: !InHeaderRow(a, c.row)
    ensures SameEntries(folding, ha, hb) ==> HeaderSignature(folding, a) == HeaderSignature(folding, b)
    ensures NoBars(folding, ha) && NoBars(folding, hb) && HeaderSignature(folding, a) == HeaderSignature(folding, b)
        ==> SameEntries(folding, ha, hb)
  {
    ha := HeaderTextMeaning(folding, a);
    hb := HeaderTextMeaning(folding, b);
    BarredIsText(folding, ha);
    hide HeaderSignature;
    hide InHeaderRow;
    if SameEntries(folding, ha, hb) { SameEntriesSameText(folding, ha, hb); }
    if NoBars(folding, ha) && NoBars(folding, hb) && Barred(folding, ha) == Barred(folding, hb) {
      BarredTells(folding, ha, hb);
    }
    hide Barred;
    hide SameEntries;
    if ha != [] { assert ha[0] in multiset(ha); }
    forall c | c in a.cells && InHeaderRow(a, c.row) ensures ha != [] {
      assert c in multiset(a.cells);
      assert c in multiset(ha);
    }
  }

  /** A bar in a header text can hide a column boundary: a table headed `a|1:b` carries on as one headed `a` and `b`. */
  lemma HeadersCollide(folding: Folding) returns (a: Table, b: Table)
    requires forall t :: folding.header(t) == t
    ensures HeaderSignature(folding, a) == HeaderSignature(folding, b) != []
    ensures |a.cells| == 1 && |b.cells| == 2 && forall c | c in a.cells + b.cells :: c.isHeader
  {
    var one := Cell(0, 0, None, None, Ascii("a|1:b"), true, []);
    var first, second := Cell(0, 0, None, None, Ascii("a"), true, []), Cell(0, 1, None, None, Ascii("b"), true, []);
    a := Table(2, 2, [one], []);
    b := Table(2, 2, [first, second], []);
    OneHeader(a, one);
    TwoHeaders(b, first, second);
    assert Signed(folding, [one]) == NatText(0) + Ascii(":") + Ascii("a|1:b");
    assert [first, second][1..] == [second];
    assert Signed(folding, [first, second])
        == NatText(0) + Ascii(":") + Ascii("a") + Ascii("|") + (NatText(1) + Ascii(":") + Ascii("b"));
    assert Ascii("a|1:b") == Ascii("a") + Ascii("|") + (NatText(1) + Ascii(":") + Ascii("b"));
    assert one in a.cells && first in b.cells;
  }

  lemma OneHeader(t: Table, c: Cell)
    requires t.cells == [c] && c.isHeader
    ensures SortBy(CellBefore, HeaderCells(t.cells, HeaderRows(t))) == [c]
  {
    assert c in t.cells;
    assert c.row in ExplicitHeaderRows(t.cells);
    assert t.cells[1..] == [];
  }

  lemma TwoHeaders(t: Table, c: Cell, d: Cell)
    requires t.cells == [c, d] && c.isHeader && d.isHeader && CellBefore(c, d)
    ensures SortBy(CellBefore, HeaderCells(t.cells, HeaderRows(t))) == [c, d]
  {
    assert c in t.cells && d in t.cells;
    assert c.row in ExplicitHeaderRows(t.cells) && d.row in ExplicitHeaderRows(t.cells);
    var rows := HeaderRows(t);
    assert t.cells[1..] == [d] && [d][1..] == [] && [c, d][1..] == [d];
    assert HeaderCells([], rows) == [];
    assert HeaderCells([d], rows) == [d];
    assert HeaderCells(t.cells, rows) == [c, d];
    assert SortBy(CellBefore, [d]) == [d];
  }

  // ---- where the cells go --------------------------------------------------------------------

  /** The first row below the header rows. */
  lemma FirstDataRowMeaning(t: Table)
    ensures FirstDataRow(t) >= 1 && InHeaderRow(t, FirstDataRow(t) - 1)
    ensures forall row: nat | InHeaderRow(t, row) :: row < FirstDataRow(t)
  {
    var top := Highest(t.cells);
    if exists c :: c in t.cells && c.isHeader {
      var c :| c in t.cells && c.isHeader;
      assert c.row in ExplicitHeaderRows(t.cells);
    } else {
      assert ExplicitHeaderRows(t.cells) == {};
    }
  }

  /** The page a cell is said to be from: that of its table, else its own first region's, else 0. */
  ghost predicate SaysPage(t: Table, c: Cell, page: nat) {
    || OnPage(t, page)
    || ((forall p :: !OnPage(t, p)) && page == if c.pages == [] then 0 else c.pages[0])
  }

  /** `p` is cell `c` of table `index`, `offset` rows further down. */
  ghost predicate PlacedFrom(folding: Folding, t: Table, index: nat, c: Cell, offset: int, p: PlacedCell) {
    && p.row == c.row + offset && p.column == c.column
    && p.rowSpan == (if c.rowSpan.Some? then c.rowSpan.value else 1)
    && p.columnSpan == (if c.columnSpan.Some? then c.columnSpan.value else 1)
    && p.content == folding.content(c.content)
    && p.source.table == index && p.source.row == c.row && p.source.column == c.column && p.source.pages == c.pages
    && SaysPage(t, c, p.source.page)
  }

  /** Cells of the first source stay where they are; those of a later one move from below its header rows to below the
      rows that the earlier sources gave. */
  ghost predicate CellInPlace(folding: Folding, tables: seq<Table>, sources: seq<nat>, p: PlacedCell)
    requires Known(tables, sources)
  {
    exists n, c :: IsCell(folding, tables, sources, p, n, c)
  }

  ghost predicate IsCell(folding: Folding, tables: seq<Table>, sources: seq<nat>, p: PlacedCell, n: nat, c: Cell)
    requires Known(tables, sources)
  {
    && n < |sources| && c in tables[sources[n]].cells && (n == 0 || c.row >= FirstDataRow(tables[sources[n]]))
    && PlacedFrom(folding, tables[sources[n]], sources[n], c, OffsetAt(tables, sources, n), p)
  }

  function OffsetAt(tables: seq<Table>, sources: seq<nat>, n: nat): int
    requires Known(tables, sources) && n < |sources|
  {
    if n == 0 then 0 else ExpectedRows(tables, sources[..n]) - FirstDataRow(tables[sources[n]])
  }

  ghost predicate CellsInPlace(folding: Folding, tables: seq<Table>, t: PlacedTable) {
    && Known(tables, t.sources)
    && forall p | p in t.cells :: CellInPlace(folding, tables, t.sources, p)
  }

  lemma PlaceMeaning(folding: Folding, f: Fragment, c: Cell, offset: int)
    requires f.page == SinglePage(f.table)
    ensures PlacedFrom(folding, f.table, f.index, c, offset, Place(folding, c, f.index, f.page, c.row + offset))
  {
    NoPageMeaning(f.table);
    if f.page.Some? { SinglePageMeaning(f.table, f.page.value); }
    hide SinglePage;
    hide OnPage;
  }

  lemma {:induction false} PlacedAllFrom(folding: Folding, f: Fragment, first: nat, offset: int, p: PlacedCell)
    returns (c: Cell)
    requires f.page == SinglePage(f.table)
    requires p in PlaceAll(folding, f.table.cells, first, f.index, f.page, offset)
    ensures c in f.table.cells && c.row >= first && PlacedFrom(folding, f.table, f.index, c, offset, p)
  {
    var from := PlacedCells(folding, f.table.cells, first, f.index, f.page, offset);
    hide PlaceAll;
    hide PlacedFrom;
    var placed := PlaceAll(folding, f.table.cells, first, f.index, f.page, offset);
    var i :| 0 <= i < |placed| && placed[i] == p;
    c := f.table.cells[from[i]];
    PlaceMeaning(folding, f, c, offset);
  }

  lemma BuildInPlace(folding: Folding, tables: seq<Table>, f: Fragment)
    requires FragmentOf(tables, f)
    ensures CellsInPlace(folding, tables, Build(folding, f))
  {
    var t := Build(folding, f);
    hide PlacedFrom;
    hide PlaceAll;
    forall p | p in t.cells ensures CellInPlace(folding, tables, t.sources, p) {
      var c := PlacedAllFrom(folding, f, 0, 0, p);
      assert tables[t.sources[0]] == f.table;
      assert IsCell(folding, tables, t.sources, p, 0, c);
    }
  }

  lemma JoinInPlace(folding: Folding, tables: seq<Table>, prior: PlacedTable, f: Fragment)
    requires FragmentOf(tables, f) && CellsInPlace(folding, tables, prior) && Faithful(tables, prior)
    requires CanJoin(prior, f)
    ensures CellsInPlace(folding, tables, Join(folding, prior, f))
  {
    JoinShape(folding, prior, f);
    JoinFields(folding, prior, f);
    var t, n := Join(folding, prior, f), |prior.sources|;
    var first := FirstDataRow(f.table);
    assert prior.rowCount == ExpectedRows(tables, prior.sources);
    OneKnownMore(tables, prior.sources, f.index);
    hide Join;
    hide CanJoin;
    hide Faithful;
    hide FirstDataRow;
    hide PlacedFrom;
    hide PlaceAll;
    hide ExpectedRows;
    assert t.sources[..n] == prior.sources;
    forall p | p in t.cells ensures CellInPlace(folding, tables, t.sources, p) {
      if p in prior.cells {
        KeptInPlace(folding, tables, prior.sources, f.index, p);
      } else {
        var c := PlacedAllFrom(folding, f, first, prior.rowCount - first, p);
        assert t.sources[n] == f.index && tables[t.sources[n]] == f.table;
        assert OffsetAt(tables, t.sources, n) == prior.rowCount - first;
        assert IsCell(folding, tables, t.sources, p, n, c);
      }
    }
  }

  lemma KeptInPlace(folding: Folding, tables: seq<Table>, sources: seq<nat>, index: nat, p: PlacedCell)
    requires Known(tables, sources) && index < |tables| && CellInPlace(folding, tables, sources, p)
    ensures Known(tables, sources + [index]) && CellInPlace(folding, tables, sources + [index], p)
  {
    hide PlacedFrom;
    hide FirstDataRow;
    hide ExpectedRows;
    var n: nat, c :| IsCell(folding, tables, sources, p, n, c);
    OneKnownMore(tables, sources, index);
    assert (sources + [index])[n] == sources[n] && (sources + [index])[..n] == sources[..n];
    assert OffsetAt(tables, sources + [index], n) == OffsetAt(tables, sources, n);
    assert IsCell(folding, tables, sources + [index], p, n, c);
  }

  ghost predicate AllInPlace(folding: Folding, tables: seq<Table>, output: seq<PlacedTable>) {
    forall k | 0 <= k < |output| :: CellsInPlace(folding, tables, output[k])
  }

  lemma StepInPlace(folding: Folding, tables: seq<Table>, output: seq<PlacedTable>, f: Fragment)
    requires FragmentOf(tables, f) && AllInPlace(folding, tables, output) && AllFaithful(tables, output)
    ensures AllInPlace(folding, tables, Step(folding, output, f))
  {
    hide CellsInPlace;
    hide CanJoin;
    hide Join;
    hide Build;
    hide FragmentOf;
    hide Faithful;
    var n := |output| - 1;
    if Joins(output, f) {
      FaithfulPrefix(tables, output);
      JoinNeedsPage(output[n], f);
      JoinInPlace(folding, tables, output[n], f);
    } else {
      BuildInPlace(folding, tables, f);
    }
  }

  lemma {:induction false} StitchedInPlace(folding: Folding, tables: seq<Table>, fs: seq<Fragment>)
    requires forall i | 0 <= i < |fs| :: FragmentOf(tables, fs[i])
    ensures AllInPlace(folding, tables, Stitched(folding, fs))
    decreases |fs|
  {
    hide FragmentOf;
    hide AllFaithful;
    hide CellsInPlace;
    hide Step;
    if fs != [] {
      var n := |fs| - 1;
      StitchedInPlace(folding, tables, fs[..n]);
      StitchedFaithful(folding, tables, fs[..n]);
      StepInPlace(folding, tables, Stitched(folding, fs[..n]), fs[n]);
    }
  }

  /** Every cell of an output is a cell of one of its source tables, moved by the offset of that table, with its column,
      spans, folded content and provenance. */
  lemma CellsGoWhere(folding: Folding, tables: seq<Table>)
    ensures forall k | 0 <= k < |Reassembled(folding, tables)| ::
              CellsInPlace(folding, tables, Reassembled(folding, tables)[k])
  {
    var fs := SortBy(Before, Fragments(folding, tables));
    SortedFragments(folding, tables);
    StitchedInPlace(folding, tables, fs);
    assert Reassembled(folding, tables) == Stitched(folding, fs);
    hide Reassembled;
    hide Stitched;
    hide CellsInPlace;
  }
}
