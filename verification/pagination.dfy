/** Keyset (cursor) pagination as the feed queries do it: ask the store for `limit + 1` rows of the
    table, ordered newest first, starting AT the cursor row (the cursor row itself is included,
    because the queries pass no `skip`); if more than `limit` rows came back, drop the last one and
    hand its id to the client as the next cursor. The client passes that id back unchanged as the
    cursor of the following request.

    The model is generic in the row type: `key` gives a row's id. A table is a sequence already in
    the store's order (`createdAt` descending). */
module Pagination {
  import opened Common

  /** The id of the row at position `i`. */
  function KeyAt<T>(rows: seq<T>, key: T -> Id, i: int): Id
    requires 0 <= i < |rows|
  {
    key(rows[i])
  }

  /** No two rows share an id (the id column is the primary key). */
  predicate UniqueKeys<T>(rows: seq<T>, key: T -> Id) {
    forall i, j :: 0 <= i < j < |rows| ==> KeyAt(rows, key, i) != KeyAt(rows, key, j)
  }

  /** Every id is non-empty (the store generates them). */
  predicate PresentKeys<T>(rows: seq<T>, key: T -> Id) {
    forall i :: 0 <= i < |rows| ==> KeyAt(rows, key, i) != ""
  }

  /** Dropping the first row keeps ids unique and present. */
  lemma TailKeys<T>(rows: seq<T>, key: T -> Id)
    requires |rows| > 0
    requires UniqueKeys(rows, key) && PresentKeys(rows, key)
    ensures UniqueKeys(rows[1..], key) && PresentKeys(rows[1..], key)
  {
    var tail := rows[1..];
    forall i, j | 0 <= i < j < |tail|
      ensures KeyAt(tail, key, i) != KeyAt(tail, key, j)
    {
      assert KeyAt(rows, key, i + 1) != KeyAt(rows, key, j + 1);
    }
    forall i | 0 <= i < |tail|
      ensures KeyAt(tail, key, i) != ""
    {
      assert KeyAt(rows, key, i + 1) != "";
    }
  }

  /** A row with a present id that no row of the table has can join the table at its head. */
  lemma PrependKeys<T>(row: T, rows: seq<T>, key: T -> Id)
    requires UniqueKeys(rows, key) && PresentKeys(rows, key)
    requires key(row) != "" && forall i :: 0 <= i < |rows| ==> KeyAt(rows, key, i) != key(row)
    ensures UniqueKeys([row] + rows, key) && PresentKeys([row] + rows, key)
  {
    var grown := [row] + rows;
    forall i, j | 0 <= i < j < |grown|
      ensures KeyAt(grown, key, i) != KeyAt(grown, key, j)
    {
      assert KeyAt(grown, key, j) == KeyAt(rows, key, j - 1);
      if i > 0 {
        assert KeyAt(grown, key, i) == KeyAt(rows, key, i - 1);
      }
    }
    forall i | 0 <= i < |grown|
      ensures KeyAt(grown, key, i) != ""
    {
      if i > 0 {
        assert KeyAt(grown, key, i) == KeyAt(rows, key, i - 1);
      }
    }
  }

  /** Position of the first row at or after `from` whose id is `c`, if any. */
  function IndexFrom<T>(rows: seq<T>, key: T -> Id, c: Id, from: nat): (r: Option<nat>)
    requires from <= |rows|
    ensures r.Some? ==> from <= r.value < |rows| && KeyAt(rows, key, r.value) == c
    ensures r.Some? ==> forall j :: from <= j < r.value ==> KeyAt(rows, key, j) != c
    ensures r.None? ==> forall j :: from <= j < |rows| ==> KeyAt(rows, key, j) != c
    decreases |rows| - from
  {
    if from == |rows| then None
    else if KeyAt(rows, key, from) == c then Some(from)
    else IndexFrom(rows, key, c, from + 1)
  }

  /** Position of the first row whose id is `c`, if any. */
  function IndexOf<T>(rows: seq<T>, key: T -> Id, c: Id): (r: Option<nat>)
    ensures r.Some? ==> r.value < |rows| && KeyAt(rows, key, r.value) == c
    ensures r.Some? ==> forall j :: 0 <= j < r.value ==> KeyAt(rows, key, j) != c
    ensures r.None? ==> forall j :: 0 <= j < |rows| ==> KeyAt(rows, key, j) != c
  {
    IndexFrom(rows, key, c, 0)
  }

  /** With unique ids, the row at position `k` is found at position `k`. */
  lemma IndexOfUnique<T>(rows: seq<T>, key: T -> Id, k: nat)
    requires UniqueKeys(rows, key) && k < |rows|
    ensures IndexOf(rows, key, KeyAt(rows, key, k)) == Some(k)
  {
  }

  /** The store's `findMany({ take, orderBy: createdAt desc, cursor })`: at most `take` rows, read
      from the top of the table, or from the cursor row (inclusive) when a cursor is given. A cursor
      that names no row yields no rows. */
  function FindMany<T>(rows: seq<T>, key: T -> Id, take: nat, cursor: Option<Id>): (r: seq<T>)
    ensures |r| <= take
    ensures cursor.None? ==> r == rows[..Min(take, |rows|)]
    ensures cursor.Some? && IndexOf(rows, key, cursor.value).None? ==> r == []
    ensures cursor.Some? && IndexOf(rows, key, cursor.value).Some? ==>
      var i := IndexOf(rows, key, cursor.value).value;
      r == rows[i..Min(i + take, |rows|)]
  {
    if cursor.None? then rows[..Min(take, |rows|)]
    else
      match IndexOf(rows, key, cursor.value)
      case None => []
      case Some(i) => rows[i..Min(i + take, |rows|)]
  }

  /** The routers write `cursor ? { id: cursor } : undefined`: an absent cursor and the empty
      string (falsy in JavaScript) both mean "from the top". */
  function CursorArg(cursor: Option<Id>): (r: Option<Id>)
    ensures r.Some? ==> r == cursor && r.value != ""
    ensures cursor.Some? && cursor.value != "" ==> r == cursor
  {
    if cursor.Some? && cursor.value != "" then cursor else None
  }

  /** Where a page starts in the table, as a client sees it: position 0 without a cursor, the
      cursor row's position otherwise, nothing when the cursor names no row. */
  function StartOf<T>(rows: seq<T>, key: T -> Id, cursor: Option<Id>): (r: Option<nat>)
    ensures r.Some? ==> r.value <= |rows|
    ensures cursor.None? || cursor == Some("") ==> r == Some(0)
    ensures cursor.Some? && cursor.value != "" ==> r == IndexOf(rows, key, cursor.value)
  {
    var arg := CursorArg(cursor);
    if arg.None? then Some(0) else IndexOf(rows, key, arg.value)
  }

  /** The store query, read through the client's start position. */
  lemma FetchFromStart<T>(rows: seq<T>, key: T -> Id, take: nat, cursor: Option<Id>)
    ensures StartOf(rows, key, cursor).None? ==> FindMany(rows, key, take, CursorArg(cursor)) == []
    ensures StartOf(rows, key, cursor).Some? ==>
      var i := StartOf(rows, key, cursor).value;
      FindMany(rows, key, take, CursorArg(cursor)) == rows[i..Min(i + take, |rows|)]
  {
  }

  datatype Page<T> = Page(items: seq<T>, nextCursor: Option<Id>)

  /** One paginated query, after its `limit` passed validation: fetch `limit + 1` rows, and if that
      many came back pop the last one and use its id as `nextCursor`.
      The contract states the page in terms of the table: the `limit` rows from the start
      position, and a next cursor exactly when a row follows them, naming that row. */
  function Paginate<T>(rows: seq<T>, key: T -> Id, limit: nat, cursor: Option<Id>): (r: Page<T>)
    ensures |r.items| <= limit
    ensures r.nextCursor.Some? <==> |FindMany(rows, key, limit + 1, CursorArg(cursor))| == limit + 1
    ensures StartOf(rows, key, cursor).None? ==> r == Page([], None)
    ensures StartOf(rows, key, cursor).Some? ==>
      var i := StartOf(rows, key, cursor).value;
      && r.items == rows[i..Min(i + limit, |rows|)]
      && (r.nextCursor.Some? <==> i + limit < |rows|)
      && (r.nextCursor.Some? ==> r.nextCursor.value == KeyAt(rows, key, i + limit))
  {
    var fetched := FindMany(rows, key, limit + 1, CursorArg(cursor));
    FetchFromStart(rows, key, limit + 1, cursor);
    if |fetched| > limit then
      Page(fetched[..|fetched| - 1], Some(key(fetched[|fetched| - 1])))
    else
      Page(fetched, None)
  }

  /** Every row of a page is the table row at the matching offset from the start position. */
  lemma PageRows<T>(rows: seq<T>, key: T -> Id, limit: nat, cursor: Option<Id>)
    ensures var page := Paginate(rows, key, limit, cursor);
            forall k :: 0 <= k < |page.items| ==>
              && StartOf(rows, key, cursor).Some?
              && StartOf(rows, key, cursor).value + k < |rows|
              && page.items[k] == rows[StartOf(rows, key, cursor).value + k]
    ensures forall x :: x in Paginate(rows, key, limit, cursor).items ==> x in rows
  {
    var page := Paginate(rows, key, limit, cursor);
    if StartOf(rows, key, cursor).Some? {
      var s := StartOf(rows, key, cursor).value;
      assert page.items == rows[s..Min(s + limit, |rows|)];
    }
  }

  /** How many rows a crawl from `cursor` still has ahead of it. */
  function Remaining<T>(rows: seq<T>, key: T -> Id, cursor: Option<Id>): nat {
    match StartOf(rows, key, cursor)
    case None => 0
    case Some(i) => |rows| - i
  }

  /** A page with a next cursor: that cursor starts the next page `limit` rows further on, so the
      rows left to crawl shrink. */
  lemma NextPageStart<T>(rows: seq<T>, key: T -> Id, limit: nat, cursor: Option<Id>)
    requires 1 <= limit
    requires UniqueKeys(rows, key) && PresentKeys(rows, key)
    requires Paginate(rows, key, limit, cursor).nextCursor.Some?
    ensures StartOf(rows, key, cursor).Some?
    ensures var i := StartOf(rows, key, cursor).value;
            && i + limit < |rows|
            && Paginate(rows, key, limit, cursor).nextCursor == Some(KeyAt(rows, key, i + limit))
            && StartOf(rows, key, Paginate(rows, key, limit, cursor).nextCursor) == Some(i + limit)
    ensures Remaining(rows, key, Paginate(rows, key, limit, cursor).nextCursor) < Remaining(rows, key, cursor)
  {
    var i := StartOf(rows, key, cursor).value;
    IndexOfUnique(rows, key, i + limit);
  }

  /** The client's infinite query: request a page, then keep requesting with the previous page's
      `nextCursor` until none is returned; the result is the concatenation of all pages. */
  function Crawl<T>(rows: seq<T>, key: T -> Id, limit: nat, cursor: Option<Id>): (r: seq<T>)
    requires 1 <= limit
    requires UniqueKeys(rows, key) && PresentKeys(rows, key)
    ensures StartOf(rows, key, cursor).None? ==> r == []
    ensures StartOf(rows, key, cursor).Some? ==>
      var i := StartOf(rows, key, cursor).value;
      rows[i..Min(i + limit, |rows|)] <= r
    decreases Remaining(rows, key, cursor)
  {
    var page := Paginate(rows, key, limit, cursor);
    if page.nextCursor.None? then page.items
    else
      NextPageStart(rows, key, limit, cursor);
      page.items + Crawl(rows, key, limit, page.nextCursor)
  }

  /** One step of a crawl that has a next page: the page from `i`, then the crawl from the row
      after it, which the next cursor locates at `i + limit`. */
  lemma CrawlStep<T>(rows: seq<T>, key: T -> Id, limit: nat, cursor: Option<Id>, i: nat)
    requires 1 <= limit
    requires UniqueKeys(rows, key) && PresentKeys(rows, key)
    requires StartOf(rows, key, cursor) == Some(i) && i + limit < |rows|
    ensures StartOf(rows, key, Some(KeyAt(rows, key, i + limit))) == Some(i + limit)
    ensures Crawl(rows, key, limit, cursor) == rows[i..i + limit] + Crawl(rows, key, limit, Some(KeyAt(rows, key, i + limit)))
  {
    PageAt(rows, key, limit, cursor, i);
    NextPageStart(rows, key, limit, cursor);
  }

  /** A page that ends before the table does: `limit` rows, and the next row's id as cursor. */
  lemma PageAt<T>(rows: seq<T>, key: T -> Id, limit: nat, cursor: Option<Id>, i: nat)
    requires StartOf(rows, key, cursor) == Some(i) && i + limit < |rows|
    ensures Paginate(rows, key, limit, cursor) == Page(rows[i..i + limit], Some(KeyAt(rows, key, i + limit)))
  {
  }

  /** A crawl whose first page reaches the end of the table is that page. */
  lemma CrawlLast<T>(rows: seq<T>, key: T -> Id, limit: nat, cursor: Option<Id>, i: nat)
    requires 1 <= limit
    requires UniqueKeys(rows, key) && PresentKeys(rows, key)
    requires StartOf(rows, key, cursor) == Some(i) && i + limit >= |rows|
    ensures Crawl(rows, key, limit, cursor) == rows[i..]
  {
  }

  /** A crawl that is the rows from `i` to `j` followed by a crawl that is the rows from `j` on is
      the rows from `i` on: the step of `CrawlFrom` that joins one page to the crawl after it. */
  lemma JoinPages<T>(rows: seq<T>, i: nat, j: nat, whole: seq<T>, rest: seq<T>)
    requires i <= j <= |rows|
    requires whole == rows[i..j] + rest && rest == rows[j..]
    ensures whole == rows[i..]
  {
  }

  /** A crawl that starts at table position `i` returns the rest of the table from `i`, each row
      once and in order. */
  lemma {:induction false} CrawlFrom<T>(rows: seq<T>, key: T -> Id, limit: nat, cursor: Option<Id>, i: nat)
    requires 1 <= limit
    requires UniqueKeys(rows, key) && PresentKeys(rows, key)
    requires StartOf(rows, key, cursor) == Some(i) && i <= |rows|
    ensures Crawl(rows, key, limit, cursor) == rows[i..]
    decreases |rows| - i
  {
    if i + limit < |rows| {
      var next := Some(KeyAt(rows, key, i + limit));
      CrawlStep(rows, key, limit, cursor, i);
      CrawlFrom(rows, key, limit, next, i + limit);
      JoinPages(rows, i, i + limit, Crawl(rows, key, limit, cursor), Crawl(rows, key, limit, next));
    } else {
      CrawlLast(rows, key, limit, cursor, i);
    }
  }

  /** Headline property: starting without a cursor and feeding each `nextCursor` back, the
      concatenated pages are exactly the ordered table, with no row missing and none repeated. */
  lemma CrawlEnumeratesTable<T>(rows: seq<T>, key: T -> Id, limit: nat)
    requires 1 <= limit
    requires UniqueKeys(rows, key) && PresentKeys(rows, key)
    ensures Crawl(rows, key, limit, None) == rows
  {
    CrawlFrom(rows, key, limit, None, 0);
  }

  /** A crawl never returns a row twice. */
  lemma CrawlHasNoDuplicates<T>(rows: seq<T>, key: T -> Id, limit: nat)
    requires 1 <= limit
    requires UniqueKeys(rows, key) && PresentKeys(rows, key)
    ensures UniqueKeys(Crawl(rows, key, limit, None), key)
  {
    CrawlEnumeratesTable(rows, key, limit);
  }

  /** Keyset stability: a row inserted at the head of the table (a newer post) does not change the
      page a client gets for a cursor it already holds. */
  lemma PageStableUnderNewerRow<T>(rows: seq<T>, key: T -> Id, limit: nat, cursor: Id, newer: T)
    requires cursor != "" && key(newer) != cursor
    requires IndexOf(rows, key, cursor).Some?
    ensures Paginate([newer] + rows, key, limit, Some(cursor)) == Paginate(rows, key, limit, Some(cursor))
  {
    assert CursorArg(Some(cursor)) == Some(cursor);
    FetchStableUnderNewerRow(rows, key, limit + 1, cursor, newer);
  }

  /** The store query from a cursor ignores rows inserted ahead of the cursor. */
  lemma FetchStableUnderNewerRow<T>(rows: seq<T>, key: T -> Id, take: nat, cursor: Id, newer: T)
    requires key(newer) != cursor
    requires IndexOf(rows, key, cursor).Some?
    ensures FindMany([newer] + rows, key, take, Some(cursor)) == FindMany(rows, key, take, Some(cursor))
  {
    var i := IndexOf(rows, key, cursor).value;
    IndexOfBehindNewerRow(rows, key, cursor, newer);
    SliceBehindNewerRow(rows, newer, i, Min(i + take, |rows|));
    FetchAt([newer] + rows, key, take, cursor, i + 1);
    FetchAt(rows, key, take, cursor, i);
  }

  lemma FetchAt<T>(rows: seq<T>, key: T -> Id, take: nat, cursor: Id, i: nat)
    requires IndexOf(rows, key, cursor) == Some(i)
    ensures FindMany(rows, key, take, Some(cursor)) == rows[i..Min(i + take, |rows|)]
  {
  }

  /** A row inserted ahead, with another id, moves the cursor row back by one. */
  lemma IndexOfBehindNewerRow<T>(rows: seq<T>, key: T -> Id, cursor: Id, newer: T)
    requires key(newer) != cursor
    requires IndexOf(rows, key, cursor).Some?
    ensures IndexOf([newer] + rows, key, cursor) == Some(IndexOf(rows, key, cursor).value + 1)
  {
    var grown := [newer] + rows;
    var i := IndexOf(rows, key, cursor).value;
    var r := IndexOf(grown, key, cursor);
    assert KeyAt(grown, key, 0) == key(newer);
    assert KeyAt(grown, key, i + 1) == KeyAt(rows, key, i);
    forall j | 1 <= j < |grown|
      ensures KeyAt(grown, key, j) == KeyAt(rows, key, j - 1)
    {
    }
  }

  /** Behind a new head row, the table's slice `i..j` sits one place later: the step of
      `FetchStableUnderNewerRow` that matches the old query's rows with the new one's. */
  lemma SliceBehindNewerRow<T>(rows: seq<T>, newer: T, i: nat, j: nat)
    requires i <= j <= |rows|
    ensures ([newer] + rows)[i + 1..j + 1] == rows[i..j]
  {
  }
}
