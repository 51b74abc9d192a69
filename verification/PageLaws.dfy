/** Which rows a page of claims holds. */
module PageLaws {
  import opened Pagination
  import opened Sums

  // src/modules/claims/list-claims.ts, lines 49-96, and src/shared/cursor-pagination.ts, lines 45-55, said of the rows
  // of the table.

  /** A claim of the tenant, in the status asked for, if one is. */
  predicate Asked(account: Id, status: Option<string>, r: Row) {
    r.account == account && (status.None? || status.value == "" || r.status == status.value)
  }

  /** Opened earlier, or at the same time under a greater id. */
  predicate ComesAfter(r: Row, a: Row) { r.openedAt < a.openedAt || (r.openedAt == a.openedAt && a.id < r.id) }

  /** Behind the row of the cursor, which must be there and be the tenant's; without a cursor, always. */
  predicate BehindCursor(table: seq<Row>, account: Id, cursor: Option<Id>, r: Row) {
    cursor.Some? ==> exists a :: a in table && a.id == cursor.value && a.account == account && ComesAfter(r, a)
  }

  /** The listing: the claims asked for that lie behind the cursor, newest first, by id among those opened together,
      each once. */
  lemma ListingSays(table: seq<Row>, account: Id, status: Option<string>, cursor: Option<Id>)
    requires Distinct(table)
    ensures var l := Listing(table, account, status, cursor);
      && (forall i, j | 0 <= i < j < |l| :: ComesAfter(l[j], l[i]))
      && forall r :: r in l <==> r in table && Asked(account, status, r) && BehindCursor(table, account, cursor, r)
  {
    ListingMeaning(table, account, status, cursor);
    if cursor.Some? { AnchorSays(table, account, cursor.value); }
    hide Listing;
    hide AnchorOf;
    hide Distinct;
  }

  lemma AnchorSays(table: seq<Row>, account: Id, id: Id)
    requires Distinct(table)
    ensures forall a :: a in table && a.id == id && a.account == account <==> AnchorOf(table, account, id) == Some(a)
  {
  }

  /** A window: from the offset on, so many elements or as many as there are. */
  lemma WindowSays<T>(s: seq<T>, offset: nat, limit: nat)
    ensures var w := Window(s, offset, limit);
      && |w| == (if |s| <= offset then 0 else if |s| - offset <= limit then |s| - offset else limit)
      && forall i | 0 <= i < |w| :: w[i] == s[offset + i]
  {
  }

  /** A page: the first rows of the listing, at most `limit`; and a next cursor exactly if the listing goes on, which is
      then the last row of the page. */
  lemma PageSays(table: seq<Row>, account: Id, status: Option<string>, cursor: Option<Id>, limit: nat)
    requires Distinct(table) && limit >= 1
    ensures var l := Listing(table, account, status, cursor);
            var (page, next) := Page(table, account, status, cursor, limit);
      && |page| == (if |l| <= limit then |l| else limit) && (forall i | 0 <= i < |page| :: page[i] == l[i])
      && (next.Some? <==> |l| > limit) && (next.Some? ==> page != [] && next.value == page[|page| - 1].id)
  {
    PageMeaning(table, account, status, cursor, limit);
    WindowSays(Listing(table, account, status, cursor), 0, limit);
    hide Listing;
    hide Page;
    hide Window;
  }
}
