/** Keyset pagination of the claims list: src/shared/cursor-pagination.ts and src/modules/claims/list-claims.ts. */
module Pagination {
  import opened Sorting
  import opened Sums

  type Id = nat

  /** A claim row; `openedAt` in microseconds. */
  datatype Row = Row(id: Id, account: Id, status: string, openedAt: int)

  /** The table in some storage order. */
  predicate Distinct(table: seq<Row>) { forall i, j | 0 <= i < j < |table| :: table[i].id != table[j].id }

  // ---- statements with positional parameters -------------------------------------------------

  datatype Param = IdParam(id: Id) | TextParam(text: string) | NumberParam(number: nat)

  /** Parameters are named by their placeholder: `$1` is the first. */
  datatype Condition = AccountIs(placeholder: nat) | StatusIs(placeholder: nat) | AfterAnchor

  datatype Anchor = Anchor(id: nat, account: nat)

  datatype Statement = Statement(conditions: seq<Condition>, anchor: Option<Anchor>, limit: nat, offset: Option<nat>)

  class Params {
    var values: seq<Param>

    constructor (first: Param)
      ensures values == [first]
    {
      values := [first];
    }

    method Push(p: Param) returns (placeholder: nat)
      modifies this
      ensures values == old(values) + [p] && placeholder == |values|
    {
      values := values + [p];
      placeholder := |values|;
    }
  }

  predicate Binds(params: seq<Param>, placeholder: nat, p: Param) {
    1 <= placeholder <= |params| && params[placeholder - 1] == p
  }

  function NumberAt(params: seq<Param>, placeholder: nat): nat {
    if 1 <= placeholder <= |params| && params[placeholder - 1].NumberParam? then params[placeholder - 1].number else 0
  }

  /** The rows the anchor subquery reads; at most one, as ids are unique. */
  function AnchorRows(s: Statement, params: seq<Param>, table: seq<Row>): seq<Row> {
    if s.anchor == None then []
    else Keep(table, (r: Row) => Binds(params, s.anchor.value.id, IdParam(r.id))
        && Binds(params, s.anchor.value.account, IdParam(r.account)))
  }

  predicate Past(r: Row, anchor: Row) {
    r.openedAt < anchor.openedAt || (r.openedAt == anchor.openedAt && r.id > anchor.id)
  }

  predicate Satisfies(c: Condition, params: seq<Param>, r: Row, anchors: seq<Row>) {
    match c
    case AccountIs(n) => Binds(params, n, IdParam(r.account))
    case StatusIs(n) => Binds(params, n, TextParam(r.status))
    case AfterAnchor => anchors != [] && Past(r, anchors[0])
  }

  /** `ORDER BY opened_at DESC, id ASC` */
  predicate InOrder(a: Row, b: Row) { a.openedAt > b.openedAt || (a.openedAt == b.openedAt && a.id <= b.id) }

  function Window<T>(s: seq<T>, offset: nat, limit: nat): seq<T> {
    var rest := if offset <= |s| then s[offset..] else [];
    if |rest| <= limit then rest else rest[..limit]
  }

  /** What the database answers. */
  function Answer(s: Statement, params: seq<Param>, table: seq<Row>): seq<Row> {
    var anchors := AnchorRows(s, params, table);
    if s.anchor.Some? && anchors == [] then []
    else
      var rows := Keep(table, r => forall c | c in s.conditions :: Satisfies(c, params, r, anchors));
      Window(SortBy(InOrder, rows), if s.offset == None then 0 else NumberAt(params, s.offset.value),
             NumberAt(params, s.limit))
  }

  // ---- what the list is asked for ------------------------------------------------------------

  predicate Wanted(account: Id, status: Option<string>, r: Row) {
    r.account == account && (status == None || status.value == "" || r.status == status.value)
  }

  function AnchorOf(table: seq<Row>, account: Id, id: Id): Option<Row> {
    if table == [] then None
    else if table[0].id == id && table[0].account == account then Some(table[0])
    else AnchorOf(table[1..], account, id)
  }

  /** The wanted rows past the anchor, in order; without a cursor, all wanted rows. */
  function Listing(table: seq<Row>, account: Id, status: Option<string>, cursor: Option<Id>): seq<Row> {
    if cursor == None then SortBy(InOrder, Keep(table, (r: Row) => Wanted(account, status, r)))
    else
      var anchor := AnchorOf(table, account, cursor.value);
      if anchor == None then []
          else SortBy(InOrder, Keep(table, (r: Row) => Wanted(account, status, r) && Past(r, anchor.value)))
  }

  lemma {:induction false} AnchorUnique(table: seq<Row>, account: Id, id: Id, p: Row -> bool)
    requires Distinct(table) && forall r | r in table :: p(r) <==> r.id == id && r.account == account
    ensures match AnchorOf(table, account, id)
            case None => Keep(table, p) == []
            case Some(r) => Keep(table, p) == [r] && r in table && r.id == id && r.account == account
    decreases |table|
  {
    if table != [] {
      assert forall i | 0 < i < |table| :: table[i] == table[1..][i - 1] && table[i].id != table[0].id;
      AnchorUnique(table[1..], account, id, p);
      if p(table[0]) {
        forall r | r in table[1..] ensures !p(r) {
          var i :| 0 <= i < |table[1..]| && table[1..][i] == r;
          assert table[i + 1].id != table[0].id;
        }
        KeepNone(table[1..], p);
      }
    }
  }

  lemma {:induction false} KeepSame<T(!new)>(s: seq<T>, p: T -> bool, q: T -> bool)
    requires forall x | x in s :: p(x) <==> q(x)
    ensures Keep(s, p) == Keep(s, q)
    decreases |s|
  {
    if s != [] { KeepSame(s[1..], p, q); }
  }

  /** `buildKeysetAnchorFrom`: binds the cursor id, and the tenant to the first parameter. */
  method BuildKeysetAnchorFrom(params: Params, cursorId: Id) returns (anchor: Anchor)
    modifies params
    ensures params.values == old(params.values) + [IdParam(cursorId)]
    ensures anchor == Anchor(|params.values|, 1)
  {
    var n := params.Push(IdParam(cursorId));
    anchor := Anchor(n, 1);
  }

  method BuildLimitOffsetClause(params: Params, limit: nat, offset: Option<nat>, hasCursor: bool)
    returns (l: nat, o: Option<nat>)
    modifies params
    ensures old(params.values) <= params.values
    ensures Binds(params.values, l, NumberParam(limit))
    ensures if hasCursor then o == None
        else o.Some? && Binds(params.values, o.value, NumberParam(if offset == None then 0 else offset.value))
  {
    l := params.Push(NumberParam(limit));
    o := None;
    if !hasCursor {
      var n := params.Push(NumberParam(if offset == None then 0 else offset.value));
      o := Some(n);
    }
  }

  const DEFAULT_LIMIT: nat := 50

  /** `listClaims`: grows conditions and parameters, then asks; with a cursor the offset is not used. */
  method ListClaims(table: seq<Row>, account: Id, status: Option<string>, limit: Option<nat>, offset: Option<nat>,
                    cursor: Option<Id>)
    returns (rows: seq<Row>)
    requires Distinct(table)
    ensures rows == Window(Listing(table, account, status, cursor), if cursor.Some? || offset == None then 0
        else offset.value,
                           if limit == None then DEFAULT_LIMIT else limit.value)
  {
    hide Listing;
    hide Answer;
    hide Window;
    hide Distinct;
    var params := new Params(IdParam(account));
    var conditions := [AccountIs(1)];
    if status.Some? && status.value != "" {
      var n := params.Push(TextParam(status.value));
      conditions := conditions + [StatusIs(n)];
    }
    var anchor: Option<Anchor> := None;
    if cursor.Some? {
      var a := BuildKeysetAnchorFrom(params, cursor.value);
      anchor := Some(a);
      conditions := conditions + [AfterAnchor];
    }
    var l, o := BuildLimitOffsetClause(params, if limit == None then DEFAULT_LIMIT else limit.value, offset,
                                       cursor.Some?);
    var s := Statement(conditions, anchor, l, o);
    rows := Answer(s, params.values, table);
    StatementMeaning(s, params.values, table, account, status, cursor);
  }

  /** The statement as built: which parameter each placeholder names. */
  predicate Built(s: Statement, params: seq<Param>, account: Id, status: Option<string>, cursor: Option<Id>) {
    && params != [] && params[0] == IdParam(account)
    && (cursor == None <==> s.anchor == None)
    && (cursor.Some? ==> Binds(params, s.anchor.value.id, IdParam(cursor.value)) && s.anchor.value.account == 1)
    && (if status.Some? && status.value != "" then
          |params| >= 2 && params[1] == TextParam(status.value)
          && s.conditions == [AccountIs(1), StatusIs(2)] + if cursor == None then [] else [AfterAnchor]
        else s.conditions == [AccountIs(1)] + if cursor == None then [] else [AfterAnchor])
  }

  lemma StatementMeaning(s: Statement, params: seq<Param>, table: seq<Row>, account: Id, status: Option<string>,
                         cursor: Option<Id>)
    requires Distinct(table) && Built(s, params, account, status, cursor)
    ensures Answer(s, params, table)
         == Window(Listing(table, account, status, cursor),
                   if s.offset == None then 0 else NumberAt(params, s.offset.value), NumberAt(params, s.limit))
  {
    var anchors := AnchorRows(s, params, table);
    var asked := (r: Row) => forall c | c in s.conditions :: Satisfies(c, params, r, anchors);
    if cursor == None {
      forall r | r in table ensures asked(r) <==> Wanted(account, status, r) {
        ConditionsMean(s, params, account, status, cursor, r, anchors);
      }
      KeepSame(table, asked, (r: Row) => Wanted(account, status, r));
    } else {
      var p := (r: Row) => Binds(params, s.anchor.value.id, IdParam(r.id))
          && Binds(params, s.anchor.value.account, IdParam(r.account));
      AnchorUnique(table, account, cursor.value, p);
      if anchors != [] {
        forall r | r in table ensures asked(r) <==> Wanted(account, status, r) && Past(r, anchors[0]) {
          ConditionsMean(s, params, account, status, cursor, r, anchors);
        }
        KeepSame(table, asked, (r: Row) => Wanted(account, status, r) && Past(r, anchors[0]));
      }
    }
  }

  lemma ConditionsMean(s: Statement, params: seq<Param>, account: Id, status: Option<string>, cursor: Option<Id>,
                       r: Row, anchors: seq<Row>)
    requires Built(s, params, account, status, cursor)
    ensures (forall c | c in s.conditions :: Satisfies(c, params, r, anchors))
       <==> Wanted(account, status, r) && (cursor.Some? ==> anchors != [] && Past(r, anchors[0]))
  {
    assert AccountIs(1) in s.conditions;
    assert status.Some? && status.value != "" ==> StatusIs(2) in s.conditions;
    assert cursor.Some? ==> AfterAnchor in s.conditions;
  }

  // ---- pages ---------------------------------------------------------------------------------

  /** `paginateKeyset` */
  function PaginateKeyset(rows: seq<Row>, limit: nat): (seq<Row>, Option<Id>)
    requires limit >= 1
  {
    if |rows| > limit then (rows[..limit], Some(rows[limit - 1].id)) else (rows, None)
  }

  /** One request of the route: one row more than the page is fetched. */
  function Page(table: seq<Row>, account: Id, status: Option<string>, cursor: Option<Id>, limit: nat): (seq<Row>,
      Option<Id>)
    requires limit >= 1
  {
    PaginateKeyset(Window(Listing(table, account, status, cursor), 0, limit + 1), limit)
  }

  method FetchPage(table: seq<Row>, account: Id, status: Option<string>, cursor: Option<Id>, limit: nat)
    returns (page: seq<Row>, next: Option<Id>)
    requires Distinct(table) && limit >= 1
    ensures (page, next) == Page(table, account, status, cursor, limit)
  {
    var rows := ListClaims(table, account, status, Some(limit + 1), None, cursor);
    page, next := PaginateKeyset(rows, limit).0, PaginateKeyset(rows, limit).1;
  }

  /** The key of a row: what the order looks at. */
  predicate SameKey(a: Row, b: Row) { a.id == b.id && a.openedAt == b.openedAt }

  predicate StrictlyBefore(a: Row, b: Row) { Past(b, a) }

  lemma OrderIsTotal()
    ensures TotalPreorder(InOrder)
  {
    forall a, b ensures InOrder(a, b) || InOrder(b, a) {}
    forall a, b, c | InOrder(a, b) && InOrder(b, c) ensures InOrder(a, c) {}
  }

  lemma {:induction false} KeepDistinct(table: seq<Row>, p: Row -> bool)
    requires Distinct(table)
    ensures Distinct(Keep(table, p))
    decreases |table|
  {
    if table != [] {
      KeepDistinct(table[1..], p);
      var rest := Keep(table[1..], p);
      forall i | 0 <= i < |rest| ensures rest[i].id != table[0].id {
        assert rest[i] in table[1..];
        var j :| 0 <= j < |table[1..]| && table[1..][j] == rest[i];
        assert table[j + 1].id != table[0].id;
      }
    }
  }

  lemma CountsDistinct(s: seq<Row>, t: seq<Row>)
    requires Distinct(s) && multiset(s) == multiset(t)
    ensures Distinct(t)
  {
    var p := FindPermutation(t, s);
    forall i, j | 0 <= i < j < |t| ensures t[i].id != t[j].id {
      assert t[i] == s[p[i]] && t[j] == s[p[j]];
    }
  }

  /** The listing holds exactly the wanted rows past the anchor, strictly in order. */
  lemma ListingMeaning(table: seq<Row>, account: Id, status: Option<string>, cursor: Option<Id>)
    requires Distinct(table)
    ensures var l := Listing(table, account, status, cursor);
      && (forall i, j | 0 <= i < j < |l| :: StrictlyBefore(l[i], l[j]))
      && forall r :: r in l <==>
           && r in table && Wanted(account, status, r)
           && (cursor.Some? ==>
                 && AnchorOf(table, account, cursor.value).Some?
                 && Past(r, AnchorOf(table, account, cursor.value).value))
  {
    if cursor.Some? && AnchorOf(table, account, cursor.value) == None { return; }
    var p: Row -> bool := if cursor == None then (r: Row) => Wanted(account, status, r)
        else ((r: Row) => Wanted(account, status, r) && Past(r, AnchorOf(table, account, cursor.value).value));
    var rows := Keep(table, p);
    var l := SortBy(InOrder, rows);
    assert Listing(table, account, status, cursor) == l;
    OrderIsTotal();
    SortSorts(InOrder, rows);
    SortKeepsMultiset(InOrder, rows);
    SortKeepsMembers(InOrder, rows);
    KeepDistinct(table, p);
    CountsDistinct(rows, l);
  }

  // ---- a walk over changing tables -----------------------------------------------------------

  /** The cursor of fetch `k`: none at first, then what the fetch before returned. */
  function CursorFor(nexts: seq<Option<Id>>, k: nat): Option<Id>
    requires k <= |nexts|
  {
    if k == 0 then None else nexts[k - 1]
  }

  /** Fetches from the first page on, following the cursor; fetch `k` sees the table `tables[k]`. */
  ghost predicate Walk(tables: seq<seq<Row>>, account: Id, status: Option<string>, limit: nat, pages: seq<seq<Row>>,
                       nexts: seq<Option<Id>>) {
    && limit >= 1 && |tables| == |pages| == |nexts| && |pages| > 0
    && (forall k | 0 <= k < |tables| :: Distinct(tables[k]))
    && (forall k {:trigger pages[k]} | 0 <= k < |pages| ::
        (pages[k], nexts[k]) == Page(tables[k], account, status, CursorFor(nexts, k), limit))
    && (forall k | 0 <= k < |pages| - 1 :: nexts[k].Some?)
  }

  /** The row a page ended with is still there, opened when it was. */
  predicate AnchorKept(table: seq<Row>, account: Id, page: seq<Row>) {
    && page != []
    && var last := page[|page| - 1];
       var anchor := AnchorOf(table, account, last.id);
       anchor.Some? && SameKey(anchor.value, last)
  }

  /** No anchor is deleted between the fetches. */
  ghost predicate AnchorsKept(tables: seq<seq<Row>>, account: Id, pages: seq<seq<Row>>)
    requires |tables| == |pages|
  {
    forall k, n | 0 <= k < |pages| - 1 && n == k + 1 :: AnchorKept(tables[n], account, pages[k])
  }

  function Flat<T>(pages: seq<seq<T>>): seq<T> {
    if pages == [] then [] else Flat(pages[..|pages| - 1]) + pages[|pages| - 1]
  }

  /** One page: in order, past its anchor, ending at the next cursor. */
  lemma PageMeaning(table: seq<Row>, account: Id, status: Option<string>, cursor: Option<Id>, limit: nat)
    requires Distinct(table) && limit >= 1
    ensures var (page, next) := Page(table, account, status, cursor, limit);
      && page == Window(Listing(table, account, status, cursor), 0, limit)
      && (next.Some? <==> |Listing(table, account, status, cursor)| > limit)
      && (next.Some? ==> |page| == limit && next.value == page[limit - 1].id)
  {
    hide Listing;
  }

  /** The page after a kept anchor lists what lies past it. */
  lemma NextListing(table: seq<Row>, account: Id, status: Option<string>, page: seq<Row>)
    requires Distinct(table) && AnchorKept(table, account, page)
    ensures var last := page[|page| - 1];
            var l := Listing(table, account, status, Some(last.id));
            && (forall i, j | 0 <= i < j < |l| :: StrictlyBefore(l[i], l[j]))
            && forall r :: r in l <==> r in table && Wanted(account, status, r) && Past(r, last)
  {
    ListingMeaning(table, account, status, Some(page[|page| - 1].id));
    hide Listing;
    hide Wanted;
  }

  function LastOf(page: seq<Row>): Row
    requires page != []
  {
    page[|page| - 1]
  }

  /** One fetch of a walk: its page is in order and past the page before, and whatever it could still have listed
      lies past its own last row. */
  ghost predicate Fetched(table: seq<Row>, account: Id, status: Option<string>, before: seq<Row>, isFirst: bool,
                          page: seq<Row>, next: Option<Id>) {
    && (isFirst || before != [])
    && (next.Some? ==> page != [])
    && (forall i, j | 0 <= i < j < |page| :: StrictlyBefore(page[i], page[j]))
    && (forall r | r in page :: isFirst || Past(r, LastOf(before)))
    && forall r | r in table && Wanted(account, status, r) && (isFirst || Past(r, LastOf(before))) ::
         r in page || (next.Some? && Past(r, LastOf(page)))
  }

  lemma WindowMeaning(l: seq<Row>, limit: nat)
    requires limit >= 1 && forall i, j | 0 <= i < j < |l| :: StrictlyBefore(l[i], l[j])
    ensures var page := Window(l, 0, limit);
      && page <= l && (|l| > limit ==> |page| == limit)
      && forall r | r in l :: r in page || (|l| > limit && Past(r, page[limit - 1]))
  {
    var page := Window(l, 0, limit);
    forall r | r in l ensures r in page || (|l| > limit && Past(r, page[limit - 1])) {
      var i :| 0 <= i < |l| && l[i] == r;
      if i < |page| { assert page[i] == r; } else { assert StrictlyBefore(l[limit - 1], l[i]); }
    }
  }

  lemma PageFetched(table: seq<Row>, account: Id, status: Option<string>, before: seq<Row>, cursor: Option<Id>,
                    limit: nat)
    requires Distinct(table) && limit >= 1
    requires cursor.Some? ==> AnchorKept(table, account, before) && LastOf(before).id == cursor.value
    ensures Fetched(table, account, status, before, cursor == None, Page(table, account, status, cursor, limit).0,
                    Page(table, account, status, cursor, limit).1)
  {
    PageMeaning(table, account, status, cursor, limit);
    var l := Listing(table, account, status, cursor);
    if cursor == None { ListingMeaning(table, account, status, cursor); } else {
      NextListing(table, account, status, before);
    }
    WindowMeaning(l, limit);
    hide Listing;
    hide Page;
    hide Window;
    hide Wanted;
    hide AnchorKept;
  }

  lemma WalkAt(tables: seq<seq<Row>>, account: Id, status: Option<string>, limit: nat, pages: seq<seq<Row>>,
               nexts: seq<Option<Id>>, k: nat)
    requires Walk(tables, account, status, limit, pages, nexts) && k < |pages|
    ensures Distinct(tables[k]) && (pages[k], nexts[k]) == Page(tables[k], account, status, CursorFor(nexts, k), limit)
    ensures nexts[k].Some? ==> pages[k] != [] && nexts[k].value == LastOf(pages[k]).id
  {
    hide Page;
    PageMeaning(tables[k], account, status, CursorFor(nexts, k), limit);
  }

  lemma AnchorAt(tables: seq<seq<Row>>, account: Id, status: Option<string>, limit: nat, pages: seq<seq<Row>>,
                 nexts: seq<Option<Id>>, k: nat)
    requires Walk(tables, account, status, limit, pages, nexts) && AnchorsKept(tables, account, pages)
        && 0 < k < |pages|
    ensures nexts[k - 1].Some? && AnchorKept(tables[k], account, pages[k - 1])
  {
    hide Page;
    hide AnchorKept;
    hide Distinct;
    var j := k - 1;
    assert nexts[j].Some? && AnchorKept(tables[k], account, pages[j]);
  }

  lemma WalkFetches(tables: seq<seq<Row>>, account: Id, status: Option<string>, limit: nat, pages: seq<seq<Row>>,
                    nexts: seq<Option<Id>>, k: nat)
    requires Walk(tables, account, status, limit, pages, nexts) && AnchorsKept(tables, account, pages) && k < |pages|
    ensures Fetched(tables[k], account, status, if k == 0 then [] else pages[k - 1], k == 0, pages[k], nexts[k])
  {
    WalkAt(tables, account, status, limit, pages, nexts, k);
    assert limit >= 1;
    if k > 0 {
      WalkAt(tables, account, status, limit, pages, nexts, k - 1);
      AnchorAt(tables, account, status, limit, pages, nexts, k);
    }
    hide Walk;
    hide AnchorsKept;
    hide Page;
    hide AnchorKept;
    hide Fetched;
    hide Distinct;
    hide LastOf;
    PageFetched(tables[k], account, status, if k == 0 then [] else pages[k - 1], CursorFor(nexts, k), limit);
  }

  lemma FlatGrows<T>(pages: seq<seq<T>>, m: nat)
    requires 0 < m <= |pages|
    ensures Flat(pages[..m]) == Flat(pages[..m - 1]) + pages[m - 1]
  {
    assert pages[..m][..m - 1] == pages[..m - 1];
  }

  predicate InSequence(rows: seq<Row>) { forall i, j | 0 <= i < j < |rows| :: StrictlyBefore(rows[i], rows[j]) }

  /** The rows returned so far are in order, and end with the last page. */
  lemma {:induction false} WalkInOrder(tables: seq<seq<Row>>, account: Id, status: Option<string>, limit: nat,
                                       pages: seq<seq<Row>>, nexts: seq<Option<Id>>, m: nat)
    requires Walk(tables, account, status, limit, pages, nexts) && AnchorsKept(tables, account, pages)
        && 0 < m <= |pages|
    ensures InSequence(Flat(pages[..m]))
    ensures pages[m - 1] != [] ==> Flat(pages[..m]) != [] && LastOf(Flat(pages[..m])) == LastOf(pages[m - 1])
    decreases m
  {
    WalkFetches(tables, account, status, limit, pages, nexts, m - 1);
    FlatGrows(pages, m);
    if m > 1 {
      WalkInOrder(tables, account, status, limit, pages, nexts, m - 1);
      hide Walk;
      hide AnchorsKept;
      hide Flat;
      PagesInOrder(Flat(pages[..m - 1]), pages[m - 2], tables[m - 1], account, status, pages[m - 1], nexts[m - 1]);
    } else {
      assert pages[..0] == [];
    }
  }

  lemma PagesInOrder(before: seq<Row>, last: seq<Row>, table: seq<Row>, account: Id, status: Option<string>,
                     page: seq<Row>, next: Option<Id>)
    requires InSequence(before) && Fetched(table, account, status, last, false, page, next)
    requires last != [] ==> before != [] && LastOf(before) == LastOf(last)
    ensures InSequence(before + page)
  {
    forall i, j | 0 <= i < |before| && 0 <= j < |page| ensures StrictlyBefore(before[i], page[j]) {
      assert page[j] in page;
      assert i < |before| - 1 ==> StrictlyBefore(before[i], before[|before| - 1]);
    }
  }

  /** A row that every fetch finds wanted: present each time under one key. */
  ghost predicate PresentThroughout(tables: seq<seq<Row>>, account: Id, status: Option<string>, key: Row) {
    forall k | 0 <= k < |tables| :: PresentIn(tables[k], account, status, key)
  }

  predicate PresentIn(table: seq<Row>, account: Id, status: Option<string>, key: Row) {
    exists r :: r in table && SameKey(r, key) && Wanted(account, status, r)
  }

  lemma PresentAt(tables: seq<seq<Row>>, account: Id, status: Option<string>, key: Row, k: nat)
    requires PresentThroughout(tables, account, status, key) && k < |tables|
    ensures PresentIn(tables[k], account, status, key)
  {
    hide PresentIn;
  }

  predicate Returned(rows: seq<Row>, key: Row) { exists i :: 0 <= i < |rows| && SameKey(rows[i], key) }

  /** Returned already, or past the last row of the last page with a cursor to go on. */
  predicate ReturnedOrAhead(rows: seq<Row>, key: Row, page: seq<Row>, next: Option<Id>) {
    Returned(rows, key) || (next.Some? && page != [] && Past(key, LastOf(page)))
  }

  lemma {:induction false} ReturnedOrStillToCome(tables: seq<seq<Row>>, account: Id, status: Option<string>, limit: nat,
                                                 pages: seq<seq<Row>>, nexts: seq<Option<Id>>, key: Row, m: nat)
    requires Walk(tables, account, status, limit, pages, nexts) && AnchorsKept(tables, account, pages)
    requires PresentThroughout(tables, account, status, key) && 0 < m <= |pages|
    ensures ReturnedOrAhead(Flat(pages[..m]), key, pages[m - 1], nexts[m - 1])
    decreases m
  {
    hide *;
    WalkSize(tables, account, status, limit, pages, nexts);
    var k := m - 1;
    if m > 1 { ReturnedOrStillToCome(tables, account, status, limit, pages, nexts, key, k); }
    FlatGrows(pages, m);
    WalkFetches(tables, account, status, limit, pages, nexts, k);
    PresentAt(tables, account, status, key, k);
    OneMorePage(Flat(pages[..k]), if m == 1 then [] else pages[m - 2], if m == 1 then None else nexts[m - 2], m == 1,
                tables[k], account, status, pages[k], nexts[k], key);
  }

  lemma OneMorePage(before: seq<Row>, last: seq<Row>, cursor: Option<Id>, isFirst: bool,
                    table: seq<Row>, account: Id, status: Option<string>, page: seq<Row>, next: Option<Id>, key: Row)
    requires Fetched(table, account, status, last, isFirst, page, next)
    requires PresentIn(table, account, status, key)
    requires !isFirst ==> ReturnedOrAhead(before, key, last, cursor)
    ensures ReturnedOrAhead(before + page, key, page, next)
  {
    var r :| r in table && SameKey(r, key) && Wanted(account, status, r);
    hide Wanted;
    if Returned(before, key) {
      var i :| 0 <= i < |before| && SameKey(before[i], key);
      assert SameKey((before + page)[i], key);
    } else if r in page {
      var i :| 0 <= i < |page| && page[i] == r;
      assert (before + page)[|before| + i] == r;
    }
  }

  /** Following the cursor to its end, while rows come and go: what is returned is in (opened_at descending, id
      ascending) order without repetition, and every row present throughout is in it exactly once. */
  lemma WalkEnumerates(tables: seq<seq<Row>>, account: Id, status: Option<string>, limit: nat, pages: seq<seq<Row>>,
                       nexts: seq<Option<Id>>, key: Row)
    requires Walk(tables, account, status, limit, pages, nexts) && AnchorsKept(tables, account, pages)
        && nexts[|nexts| - 1] == None
    ensures InSequence(Flat(pages))
    ensures PresentThroughout(tables, account, status, key) ==> Returned(Flat(pages), key)
    ensures forall i, j | 0 <= i < |Flat(pages)| && 0 <= j < |Flat(pages)| && SameKey(Flat(pages)[i], key)
        && SameKey(Flat(pages)[j], key) :: i == j
  {
    WalkSize(tables, account, status, limit, pages, nexts);
    assert pages[..|pages|] == pages;
    WalkInOrder(tables, account, status, limit, pages, nexts, |pages|);
    if PresentThroughout(tables, account, status, key) {
      ReturnedOrStillToCome(tables, account, status, limit, pages, nexts, key, |pages|);
    }
    hide *;
    KeysOnce(Flat(pages), key);
    AheadNeedsCursor(Flat(pages), key, pages[|pages| - 1]);
  }

  lemma WalkSize(tables: seq<seq<Row>>, account: Id, status: Option<string>, limit: nat, pages: seq<seq<Row>>,
                 nexts: seq<Option<Id>>)
    requires Walk(tables, account, status, limit, pages, nexts)
    ensures |tables| == |pages| == |nexts| > 0
  {
    hide Page;
    hide Distinct;
  }

  lemma AheadNeedsCursor(rows: seq<Row>, key: Row, page: seq<Row>)
    ensures ReturnedOrAhead(rows, key, page, None) ==> Returned(rows, key)
  {
    hide Returned;
  }

  lemma KeysOnce(rows: seq<Row>, key: Row)
    requires InSequence(rows)
    ensures forall i, j | 0 <= i < |rows| && 0 <= j < |rows| && SameKey(rows[i], key) && SameKey(rows[j], key) :: i == j
  {
  }

  /** A cursor whose row is gone, or belongs to another tenant, ends the walk at once: everything past it is lost. */
  lemma LostAnchorEndsTheWalk(table: seq<Row>, account: Id, status: Option<string>, id: Id, limit: nat)
    requires limit >= 1 && Distinct(table)
    ensures Page(table, account, status, Some(id), limit) == ([], None)
       <==> forall r | r in table && Wanted(account, status, r) ::
              forall a | a in table && a.id == id && a.account == account :: !Past(r, a)
  {
    ListingMeaning(table, account, status, Some(id));
    AnchorFound(table, account, id);
    PageMeaning(table, account, status, Some(id), limit);
    var l := Listing(table, account, status, Some(id));
    if l != [] { assert l[0] in l; }
    hide Listing;
  }

  lemma AnchorFound(table: seq<Row>, account: Id, id: Id)
    requires Distinct(table)
    ensures forall a :: a in table && a.id == id && a.account == account <==> AnchorOf(table, account, id) == Some(a)
  {
    AnchorUnique(table, account, id, (r: Row) => r.id == id && r.account == account);
    var kept := Keep(table, (r: Row) => r.id == id && r.account == account);
    forall a ensures a in table && a.id == id && a.account == account <==> AnchorOf(table, account, id) == Some(a) {
      assert a in kept <==> a in table && a.id == id && a.account == account;
    }
  }

  // ---- a walk over a table that does not change ----------------------------------------------

  /** What the first `k` pages hold when they are full. */
  function FullPages(k: nat, limit: nat): (r: nat)
    ensures r == k * limit
  {
    if k == 0 then 0 else FullPages(k - 1, limit) + limit
  }

  lemma {:induction false} SameSequence(s: seq<Row>, t: seq<Row>)
    requires InSequence(s) && InSequence(t) && forall r :: r in s <==> r in t
    ensures s == t
    decreases |s|
  {
    assert s != [] ==> s[0] in t;
    assert t != [] ==> t[0] in s;
    if s != [] {
      assert s[0] == t[0];
      RestMembers(s);
      RestMembers(t);
      SameSequence(s[1..], t[1..]);
      assert s == [s[0]] + s[1..] && t == [t[0]] + t[1..];
    }
  }

  lemma RestMembers(s: seq<Row>)
    requires InSequence(s) && s != []
    ensures InSequence(s[1..]) && forall r :: r in s[1..] <==> r in s && r != s[0]
  {
    forall r | r in s && r != s[0] ensures r in s[1..] {
      var i :| 0 <= i < |s| && s[i] == r;
      assert s[1..][i - 1] == r;
    }
    forall r | r in s[1..] ensures r != s[0] {
      var i :| 0 <= i < |s[1..]| && s[1..][i] == r;
      assert StrictlyBefore(s[0], s[i + 1]);
    }
  }

  lemma PastThe(l: seq<Row>, i: nat)
    requires InSequence(l) && 0 < i <= |l|
    ensures InSequence(l[i..]) && forall r :: r in l[i..] <==> r in l && Past(r, l[i - 1])
  {
    forall a | 0 <= a < i ensures !Past(l[a], l[i - 1]) { assert a < i - 1 ==> StrictlyBefore(l[a], l[i - 1]); }
    forall r | r in l && Past(r, l[i - 1]) ensures r in l[i..] {
      var j :| 0 <= j < |l| && l[j] == r;
      assert l[i..][j - i] == r;
    }
    forall r | r in l[i..] ensures r in l && Past(r, l[i - 1]) {
      var j :| 0 <= j < |l[i..]| && l[i..][j] == r;
      assert StrictlyBefore(l[i - 1], l[i + j]);
    }
  }

  /** The listing from the cursor on a row is what follows that row. */
  lemma ListingAfter(table: seq<Row>, account: Id, status: Option<string>, i: nat)
    requires Distinct(table) && 0 < i <= |Listing(table, account, status, None)|
    ensures var l := Listing(table, account, status, None); Listing(table, account, status, Some(l[i - 1].id)) == l[i..]
  {
    var l := Listing(table, account, status, None);
    var next := Listing(table, account, status, Some(l[i - 1].id));
    ListingMeaning(table, account, status, None);
    ListingMeaning(table, account, status, Some(l[i - 1].id));
    AnchorFound(table, account, l[i - 1].id);
    assert l[i - 1] in l;
    assert AnchorOf(table, account, l[i - 1].id) == Some(l[i - 1]);
    hide Listing;
    hide AnchorOf;
    PastThe(l, i);
    hide Past;
    SameSequence(next, l[i..]);
  }

  /** A walk that sees one table. */
  ghost predicate Steady(tables: seq<seq<Row>>, table: seq<Row>) { forall k | 0 <= k < |tables| :: tables[k] == table }

  /** Page `k` is the stretch of the listing from `start`, and the cursor after it the last row of it. */
  ghost predicate Stretch(l: seq<Row>, start: nat, limit: nat, page: seq<Row>, next: Option<Id>) {
    && limit >= 1 && start <= |l| && (start > 0 ==> start < |l|) && page == Window(l[start..], 0, limit)
    && (next.Some? <==> |l| > start + limit) && (next.Some? ==> next.value == l[start + limit - 1].id)
  }

  lemma PageIsStretch(table: seq<Row>, account: Id, status: Option<string>, cursor: Option<Id>, limit: nat, l: seq<Row>,
                      start: nat)
    requires Distinct(table) && limit >= 1 && start <= |l| && (start > 0 ==> start < |l|)
    requires Listing(table, account, status, cursor) == l[start..]
    ensures var (page, next) := Page(table, account, status, cursor, limit); Stretch(l, start, limit, page, next)
  {
    PageMeaning(table, account, status, cursor, limit);
    hide Listing;
    hide Page;
  }

  lemma NextCursor(table: seq<Row>, account: Id, status: Option<string>, limit: nat, start: nat, page: seq<Row>,
                   next: Option<Id>)
    requires Distinct(table) && next.Some? && Stretch(Listing(table, account, status, None), start, limit, page, next)
    ensures var l := Listing(table, account, status, None);
            start + limit < |l| && Listing(table, account, status, next) == l[start + limit..]
  {
    ListingAfter(table, account, status, start + limit);
    hide Listing;
    hide Window;
  }

  lemma {:induction false} SteadyPage(table: seq<Row>, tables: seq<seq<Row>>, account: Id, status: Option<string>,
                                      limit: nat,
                                      pages: seq<seq<Row>>, nexts: seq<Option<Id>>, k: nat)
    requires Walk(tables, account, status, limit, pages, nexts) && Steady(tables, table) && k < |pages| == |nexts|
    ensures Stretch(Listing(table, account, status, None), FullPages(k, limit), limit, pages[k], nexts[k])
    decreases k
  {
    WalkAt(tables, account, status, limit, pages, nexts, k);
    SteadyAt(tables, table, account, status, limit, pages, nexts, k);
    var l := Listing(table, account, status, None);
    if k > 0 {
      SteadyPage(table, tables, account, status, limit, pages, nexts, k - 1);
      WalkGoesOn(tables, account, status, limit, pages, nexts, k - 1);
      hide *;
      NextCursor(table, account, status, limit, FullPages(k - 1, limit), pages[k - 1], nexts[k - 1]);
      FullPagesStep(k, limit);
      CursorIs(nexts, k);
      PageIsStretch(table, account, status, nexts[k - 1], limit, l, FullPages(k, limit));
    } else {
      hide Walk;
      hide Listing;
      assert l[0..] == l;
      PageIsStretch(table, account, status, None, limit, l, 0);
      hide Page;
    }
  }

  lemma SteadyAt(tables: seq<seq<Row>>, table: seq<Row>, account: Id, status: Option<string>, limit: nat,
                 pages: seq<seq<Row>>, nexts: seq<Option<Id>>, k: nat)
    requires Walk(tables, account, status, limit, pages, nexts) && Steady(tables, table) && k < |pages|
    ensures limit >= 1 && |tables| == |pages| && tables[k] == table
  {
    hide Page;
    hide Distinct;
  }

  lemma FullPagesStep(k: nat, limit: nat)
    requires k > 0
    ensures FullPages(k, limit) == FullPages(k - 1, limit) + limit
  {
  }

  lemma CursorIs(nexts: seq<Option<Id>>, k: nat)
    requires k <= |nexts|
    ensures CursorFor(nexts, k) == if k == 0 then None else nexts[k - 1]
  {
  }

  lemma WalkGoesOn(tables: seq<seq<Row>>, account: Id, status: Option<string>, limit: nat,
                   pages: seq<seq<Row>>, nexts: seq<Option<Id>>, k: nat)
    requires Walk(tables, account, status, limit, pages, nexts) && k < |pages| - 1
    ensures nexts[k].Some?
  {
    hide Page;
    hide Distinct;
  }

  /** The first rows of the listing, as far as it goes. */
  function UpTo(l: seq<Row>, n: nat): seq<Row> { l[..if n < |l| then n else |l|] }

  lemma OneStretchMore(l: seq<Row>, start: nat, limit: nat, page: seq<Row>, next: Option<Id>)
    requires Stretch(l, start, limit, page, next)
    ensures UpTo(l, start) + page == UpTo(l, start + limit)
  {
  }

  lemma {:induction false} SteadyRows(table: seq<Row>, tables: seq<seq<Row>>, account: Id, status: Option<string>,
                                      limit: nat,
                                      pages: seq<seq<Row>>, nexts: seq<Option<Id>>, m: nat)
    requires Walk(tables, account, status, limit, pages, nexts) && Steady(tables, table) && 0 < m <= |pages| == |nexts|
    ensures Flat(pages[..m]) == UpTo(Listing(table, account, status, None), FullPages(m, limit))
    decreases m
  {
    var l := Listing(table, account, status, None);
    SteadyPage(table, tables, account, status, limit, pages, nexts, m - 1);
    FlatGrows(pages, m);
    if m > 1 {
      SteadyRows(table, tables, account, status, limit, pages, nexts, m - 1);
    } else {
      NothingBefore(pages, l, limit);
    }
    hide *;
    FullPagesStep(m, limit);
    OneStretchMore(l, FullPages(m - 1, limit), limit, pages[m - 1], nexts[m - 1]);
  }

  lemma NothingBefore(pages: seq<seq<Row>>, l: seq<Row>, limit: nat)
    ensures Flat(pages[..0]) == UpTo(l, FullPages(0, limit))
  {
  }

  /** On a table that does not change, following the cursor ends, after as many pages as the listing fills, at least
      one; the pages are then the listing, row for row. */
  lemma SteadyWalkEnds(table: seq<Row>, tables: seq<seq<Row>>, account: Id, status: Option<string>, limit: nat,
                       pages: seq<seq<Row>>, nexts: seq<Option<Id>>)
    requires Walk(tables, account, status, limit, pages, nexts) && Steady(tables, table)
    ensures |pages| == |nexts| > 0
    ensures var l, m := Listing(table, account, status, None), |pages|;
      && (nexts[m - 1] == None <==> |l| <= m * limit)
      && (m > 1 ==> (m - 1) * limit < |l|)
      && (nexts[m - 1] == None ==> Flat(pages) == l)
  {
    WalkSize(tables, account, status, limit, pages, nexts);
    hide Walk;
    hide Listing;
    hide Flat;
    hide Window;
    hide Page;
    var m := |pages|;
    SteadyPage(table, tables, account, status, limit, pages, nexts, m - 1);
    SteadyRows(table, tables, account, status, limit, pages, nexts, m);
    assert pages[..m] == pages;
    FullPagesStep(m, limit);
    var l := Listing(table, account, status, None);
    assert l[..|l|] == l;
    assert m > 1 ==> (m - 1) * limit > 0 by { PositiveProduct(m - 1, limit); }
  }

  lemma PositiveProduct(a: nat, b: nat)
    ensures a > 0 && b > 0 ==> a * b > 0
  {
  }
}
