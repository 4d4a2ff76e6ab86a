/** Keyset pages over the companies, and what following their cursors adds up to. */
module CompanyPages {
  import opened Results
  import opened Ordering

  /** Company identifiers, in the order the database compares them. */
  type CompanyId = nat

  type Cursor = Option<CompanyId>

  predicate IdLess(a: CompanyId, b: CompanyId) {
    a < b
  }

  predicate Beyond(after: Cursor, id: CompanyId) {
    after.Some? ==> after.value < id
  }

  function Selected(table: set<CompanyId>, after: Cursor): set<CompanyId> {
    set id | id in table && Beyond(after, id)
  }

  /** The rows beyond the cursor, in id order. */
  function Listing(table: set<CompanyId>, after: Cursor): (ids: seq<CompanyId>)
    ensures |ids| == |Selected(table, after)|
  {
    Sorted(Selected(table, after), IdLess)
  }

  lemma ListingHolds(table: set<CompanyId>, after: Cursor)
    ensures Ascending(Listing(table, after), IdLess)
    ensures forall id :: id in Listing(table, after) <==> id in table && Beyond(after, id)
  {
    forall id ensures id in Listing(table, after) <==> id in table && Beyond(after, id) {
      assert id in Listing(table, after) <==> id in Elements(Listing(table, after));
    }
  }

  datatype PageOf = PageOf(items: seq<CompanyId>, next: Cursor)

  /** One page: fetch one row more than asked for, and hand out a cursor only if it was there. */
  function Page(table: set<CompanyId>, limit: nat, after: Cursor): PageOf
    requires limit >= 1
  {
    var listing := Listing(table, after);
    var rows := if |listing| > limit + 1 then listing[..limit + 1] else listing;
    var items := if |rows| > limit then rows[..limit] else rows;
    PageOf(items, if |rows| > limit then Some(items[|items| - 1]) else None)
  }

  /** The part of the table a page covers. */
  predicate Between(after: Cursor, id: CompanyId, next: Cursor) {
    Beyond(after, id) && (next.Some? ==> id <= next.value)
  }

  /** A page is the stretch of the table from its cursor to the next, in order; it stops short of the end exactly
      when more than `limit` rows were left, and then it is full. */
  lemma PageIsAStretch(table: set<CompanyId>, limit: nat, after: Cursor)
    requires limit >= 1
    ensures var page := Page(table, limit, after);
      && Ascending(page.items, IdLess)
      && (forall id :: id in page.items <==> id in table && Between(after, id, page.next))
      && (page.next.Some? <==> |Listing(table, after)| > limit)
      && (page.next.Some? ==> |page.items| == limit && page.next.value in page.items)
  {
    ListingHolds(table, after);
    var listing, page := Listing(table, after), Page(table, limit, after);
    if |listing| > limit {
      StretchOf(listing, limit);
      assert listing[..limit + 1][..limit] == listing[..limit] == page.items;
    }
  }

  lemma StretchOf(listing: seq<CompanyId>, limit: nat)
    requires Ascending(listing, IdLess) && 1 <= limit < |listing|
    ensures Ascending(listing[..limit], IdLess)
    ensures forall id :: id in listing[..limit] <==> id in listing && id <= listing[limit - 1]
  {
    forall i, j | 0 <= i < j < limit ensures IdLess(listing[..limit][i], listing[..limit][j]) {
      assert IdLess(listing[i], listing[j]);
    }
    forall id ensures id in listing[..limit] <==> id in listing && id <= listing[limit - 1] {
      if id in listing {
        var k :| 0 <= k < |listing| && listing[k] == id;
        if k < limit - 1 { assert IdLess(listing[k], listing[limit - 1]); }
        if k >= limit { assert IdLess(listing[limit - 1], listing[k]); }
        if k < limit { assert listing[..limit][k] == id; }
      }
    }
  }

  /** What is left after a page is the rest of the listing. */
  lemma NextListing(table: set<CompanyId>, limit: nat, after: Cursor)
    requires limit >= 1 && |Listing(table, after)| > limit
    ensures Listing(table, Page(table, limit, after).next) == Listing(table, after)[limit..]
  {
    var listing, next := Listing(table, after), Page(table, limit, after).next;
    ListingHolds(table, after);
    ListingHolds(table, next);
    RestOf(listing, limit);
    assert listing[..limit + 1][..limit] == listing[..limit];
    assert next == Some(listing[limit - 1]);
    assert listing[limit - 1] in listing;
    assert Elements(listing[limit..]) == Elements(Listing(table, next));
    AscendingIsUnique(listing[limit..], Listing(table, next), IdLess);
  }

  lemma RestOf(listing: seq<CompanyId>, limit: nat)
    requires Ascending(listing, IdLess) && 1 <= limit < |listing|
    ensures Ascending(listing[limit..], IdLess)
    ensures forall id :: id in listing[limit..] <==> id in listing && listing[limit - 1] < id
  {
    StretchOf(listing, limit);
    var rest := listing[limit..];
    assert listing == listing[..limit] + rest;
    forall i, j | 0 <= i < j < |rest| ensures IdLess(rest[i], rest[j]) {
      assert IdLess(listing[limit + i], listing[limit + j]);
    }
    forall i | 0 <= i < |rest| ensures listing[limit - 1] < rest[i] {
      assert IdLess(listing[limit - 1], listing[limit + i]);
    }
  }

  // ---------------------------------------------------------------- a table at rest

  function Concat(pages: seq<seq<CompanyId>>): seq<CompanyId> {
    if pages == [] then [] else pages[0] + Concat(pages[1..])
  }

  /** Follow the cursors to the end. */
  function Walk(table: set<CompanyId>, limit: nat, after: Cursor): seq<seq<CompanyId>>
    requires limit >= 1
    decreases |Listing(table, after)|
  {
    var page := Page(table, limit, after);
    if page.next == None then [page.items]
    else
      NextListing(table, limit, after);
      [page.items] + Walk(table, limit, page.next)
  }

  /** Following next_cursor yields the whole table in id order. */
  lemma {:induction false} WalkReadsTheTable(table: set<CompanyId>, limit: nat, after: Cursor)
    requires limit >= 1
    ensures Concat(Walk(table, limit, after)) == Listing(table, after)
    decreases |Listing(table, after)|
  {
    var page := Page(table, limit, after);
    if page.next == None {
      ConcatFirst(page.items, []);
    } else {
      NextItems(table, limit, after);
      WalkReadsTheTable(table, limit, page.next);
      ConcatFirst(page.items, Walk(table, limit, page.next));
    }
  }

  lemma ConcatFirst(first: seq<CompanyId>, rest: seq<seq<CompanyId>>)
    ensures Concat([first] + rest) == first + Concat(rest)
  {
    assert ([first] + rest)[1..] == rest;
  }

  lemma NextItems(table: set<CompanyId>, limit: nat, after: Cursor)
    requires limit >= 1 && Page(table, limit, after).next != None
    ensures var page := Page(table, limit, after);
      && Listing(table, after) == page.items + Listing(table, page.next)
      && |Listing(table, page.next)| == |Listing(table, after)| - limit
  {
    NextListing(table, limit, after);
    var listing := Listing(table, after);
    assert listing[..limit + 1][..limit] == listing[..limit];
    assert listing == listing[..limit] + listing[limit..];
  }

  function RequestsFor(n: nat, limit: nat): nat
    requires limit >= 1
  {
    if n <= limit then 1 else 1 + RequestsFor(n - limit, limit)
  }

  /** max(1, ceil(n / limit)), said without division. */
  lemma {:induction false} RequestsForIsCeiling(n: nat, limit: nat)
    requires limit >= 1
    ensures var requests := RequestsFor(n, limit);
      requests >= 1 && n <= requests * limit && (requests > 1 ==> (requests - 1) * limit < n)
  {
    if n > limit {
      RequestsForIsCeiling(n - limit, limit);
      OneMoreRequest(n - limit, RequestsFor(n - limit, limit), limit);
    }
  }

  lemma OneMoreRequest(n: nat, requests: nat, limit: nat)
    requires limit >= 1 && n >= 1 && requests >= 1 && n <= requests * limit
    requires requests > 1 ==> (requests - 1) * limit < n
    ensures n + limit <= (requests + 1) * limit && requests * limit < n + limit
  {
    assert requests * limit == (requests - 1) * limit + limit;
  }

  lemma NextLength(table: set<CompanyId>, limit: nat, after: Cursor)
    requires limit >= 1 && Page(table, limit, after).next != None
    ensures |Listing(table, Page(table, limit, after).next)| == |Listing(table, after)| - limit
    ensures |Walk(table, limit, after)| == 1 + |Walk(table, limit, Page(table, limit, after).next)|
  {
    NextListing(table, limit, after);
  }

  lemma {:induction false} WalkLength(table: set<CompanyId>, limit: nat, after: Cursor)
    requires limit >= 1
    ensures |Walk(table, limit, after)| == RequestsFor(|Listing(table, after)|, limit)
    decreases |Listing(table, after)|
  {
    var page := Page(table, limit, after);
    if page.next != None {
      NextLength(table, limit, after);
      WalkLength(table, limit, page.next);
    }
  }

  /** From the start: every row of the table, in id order, in max(1, ceil(n / limit)) requests. */
  lemma WalkFromTheStart(table: set<CompanyId>, limit: nat)
    requires limit >= 1
    ensures var pages := Walk(table, limit, None);
      && Ascending(Concat(pages), IdLess) && Elements(Concat(pages)) == table
      && |pages| == RequestsFor(|table|, limit)
  {
    WalkReadsTheTable(table, limit, None);
    WalkLength(table, limit, None);
    assert Selected(table, None) == table;
  }

  // ---------------------------------------------------------------- a table that grows between requests

  /** Requests `0..|tables|`: each finds the table as it then stands and starts from the cursor of the one before. */
  ghost predicate Requests(tables: seq<set<CompanyId>>, limit: nat, cursors: seq<Cursor>, pages: seq<seq<CompanyId>>)
    requires limit >= 1
  {
    && |pages| == |tables| && |cursors| == |tables| + 1 && cursors[0] == None
    && (forall i :: 0 < i < |tables| ==> cursors[i].Some?)
    && forall i :: 0 <= i < |tables| ==> PageOf(pages[i], cursors[i + 1]) == Page(tables[i], limit, cursors[i])
  }

  ghost predicate OnlyInserts(tables: seq<set<CompanyId>>) {
    forall i, j :: 0 <= i <= j < |tables| ==> tables[i] <= tables[j]
  }

  lemma RequestIsAStretch(tables: seq<set<CompanyId>>, limit: nat, cursors: seq<Cursor>,
                          pages: seq<seq<CompanyId>>, i: nat)
    requires limit >= 1 && Requests(tables, limit, cursors, pages) && i < |tables|
    ensures Ascending(pages[i], IdLess)
    ensures forall id :: id in pages[i] <==> id in tables[i] && Between(cursors[i], id, cursors[i + 1])
    ensures cursors[i].Some? && cursors[i + 1].Some? ==> cursors[i].value < cursors[i + 1].value
  {
    PageIsAStretch(tables[i], limit, cursors[i]);
    assert PageOf(pages[i], cursors[i + 1]) == Page(tables[i], limit, cursors[i]);
  }

  /** Cursors only grow along the walk. */
  lemma {:induction false} CursorsGrow(tables: seq<set<CompanyId>>, limit: nat, cursors: seq<Cursor>,
                                       pages: seq<seq<CompanyId>>, i: nat, j: nat)
    requires limit >= 1 && Requests(tables, limit, cursors, pages)
    requires 0 < i <= j <= |tables| && cursors[i].Some? && cursors[j].Some?
    ensures cursors[i].value <= cursors[j].value
    decreases j - i
  {
    if i < j {
      RequestIsAStretch(tables, limit, cursors, pages, i);
      CursorsGrow(tables, limit, cursors, pages, i + 1, j);
    }
  }

  /** No row is returned twice, and rows come in id order across pages, whatever happens to the table. */
  lemma PagesAscend(tables: seq<set<CompanyId>>, limit: nat, cursors: seq<Cursor>, pages: seq<seq<CompanyId>>,
                    i: nat, j: nat, a: CompanyId, b: CompanyId)
    requires limit >= 1 && Requests(tables, limit, cursors, pages)
    requires i < j < |tables| && a in pages[i] && b in pages[j]
    ensures a < b
  {
    RequestIsAStretch(tables, limit, cursors, pages, i);
    RequestIsAStretch(tables, limit, cursors, pages, j);
    CursorsGrow(tables, limit, cursors, pages, i + 1, j);
  }

  /** The request whose stretch an id falls in, if the walk reached the end. */
  lemma {:induction false} SomeRequestCovers(tables: seq<set<CompanyId>>, limit: nat, cursors: seq<Cursor>,
                                             pages: seq<seq<CompanyId>>, id: CompanyId, n: nat) returns (k: nat)
    requires limit >= 1 && Requests(tables, limit, cursors, pages) && 0 < n <= |tables|
    requires cursors[n].Some? ==> id <= cursors[n].value
    ensures k < n && Between(cursors[k], id, cursors[k + 1])
  {
    if n == 1 || cursors[n - 1].value < id {
      k := n - 1;
    } else {
      k := SomeRequestCovers(tables, limit, cursors, pages, id, n - 1);
    }
  }

  /** A walk that reaches a null cursor over a table that only gains rows returns each row present at the
      start exactly once: on one page, and there only once. */
  lemma InitialRowsExactlyOnce(tables: seq<set<CompanyId>>, limit: nat, cursors: seq<Cursor>,
                               pages: seq<seq<CompanyId>>, id: CompanyId) returns (k: nat)
    requires limit >= 1 && Requests(tables, limit, cursors, pages) && OnlyInserts(tables)
    requires tables != [] && cursors[|tables|] == None && id in tables[0]
    ensures k < |tables| && multiset(pages[k])[id] == 1
    ensures forall j :: 0 <= j < |tables| && id in pages[j] ==> j == k
  {
    k := SomeRequestCovers(tables, limit, cursors, pages, id, |tables|);
    assert tables[0] <= tables[k];
    RequestIsAStretch(tables, limit, cursors, pages, k);
    AscendingIsDistinct(pages[k], IdLess);
    OnceIn(pages[k], id);
    forall j | 0 <= j < |tables| && id in pages[j] ensures j == k {
      if j < k { PagesAscend(tables, limit, cursors, pages, j, k, id, id); }
      if k < j { PagesAscend(tables, limit, cursors, pages, k, j, id, id); }
    }
  }

  lemma {:induction false} OnceIn(s: seq<CompanyId>, id: CompanyId)
    requires Distinct(s) && id in s
    ensures multiset(s)[id] == 1
  {
    assert s == [s[0]] + s[1..];
    if s[0] == id {
      assert id !in s[1..];
    } else {
      OnceIn(s[1..], id);
    }
  }

  /** A row inserted during the walk is returned exactly when its id lies beyond the cursor of the first request to
      see it, as a time-ordered id does. */
  lemma InsertedRowReturnedIff(tables: seq<set<CompanyId>>, limit: nat, cursors: seq<Cursor>,
                               pages: seq<seq<CompanyId>>, id: CompanyId, first: nat)
    requires limit >= 1 && Requests(tables, limit, cursors, pages) && OnlyInserts(tables)
    requires first < |tables| && cursors[|tables|] == None
    requires id in tables[first] && (forall i :: 0 <= i < first ==> id !in tables[i])
    ensures (exists k :: 0 <= k < |tables| && id in pages[k]) <==> Beyond(cursors[first], id)
  {
    if Beyond(cursors[first], id) {
      var k := SomeRequestCovers(tables, limit, cursors, pages, id, |tables|);
      RequestIsAStretch(tables, limit, cursors, pages, k);
      if k < first { CursorsGrow(tables, limit, cursors, pages, k + 1, first); }
      assert first <= k && tables[first] <= tables[k];
      assert id in pages[k];
    } else {
      forall k | 0 <= k < |tables| ensures id !in pages[k] {
        RequestIsAStretch(tables, limit, cursors, pages, k);
        if first <= k && cursors[k].Some? { CursorsGrow(tables, limit, cursors, pages, first, k); }
      }
    }
  }
}
