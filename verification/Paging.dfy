/** The paginating calls of the SDK, over any server. */
module Paging {
  import opened Wrappers
  import opened Text
  import opened Json
  import opened Walk

  /** The keys that describe a page instead of carrying its records. */
  const PAGE_KEYS: set<string> := {
    "next_page_token", "nextPageToken", "page_size", "pageSize", "page_number", "pageNumber",
    "total_records", "totalRecords", "total_pages", "totalPages"}

  function FirstString(payload: Entries, first: string, second: string): string {
    if Get(payload, first).Str? then payload[first].s
    else if Get(payload, second).Str? then payload[second].s
    else ""
  }

  predicate IsCollection(payload: Entries, key: string) {
    key !in PAGE_KEYS && Get(payload, key).Arr?
  }

  /** Every list is a list of records, but for those under the ten names. */
  lemma CollectionsAre(payload: Entries, key: string)
    ensures IsCollection(payload, key) <==>
            && key in payload && payload[key].Arr?
            && key != "next_page_token" && key != "nextPageToken" && key != "page_size" && key != "pageSize"
            && key != "page_number" && key != "pageNumber" && key != "total_records" && key != "totalRecords"
            && key != "total_pages" && key != "totalPages"
  {
  }

  /** The alphabetically first key that holds a list of records. */
  ghost predicate IsPreferredKey(payload: Entries, key: string) {
    IsCollection(payload, key) && forall other :: IsCollection(payload, other) ==> AtMost(key, other)
  }

  /** The records of a page: those under the preferred key, or none when no key holds a list. */
  ghost predicate ArePreferred(payload: Entries, items: seq<Json>) {
    || (exists key :: IsPreferredKey(payload, key) && items == payload[key].items)
    || (items == [] && forall key :: !IsCollection(payload, key))
  }

  method PreferredCollection(payload: Entries) returns (items: seq<Json>)
    ensures ArePreferred(payload, items)
  {
    var keys := SortedKeys(payload.Keys);
    SortedKeysAreSorted(payload.Keys);
    for i := 0 to |keys|
      invariant NoCollections(payload, keys[..i])
    {
      assert keys[..i + 1] == keys[..i] + [keys[i]];
      if IsCollection(payload, keys[i]) {
        return payload[keys[i]].items;
      }
    }
    assert keys[..|keys|] == keys;
    return [];
  }

  ghost predicate NoCollections(payload: Entries, keys: seq<string>) {
    forall key :: key in keys ==> !IsCollection(payload, key)
  }

  /** The cursor under the first of its two names that holds a string, else none. */
  ghost predicate CursorIn(p: Entries, cursor: string) {
    || Get(p, "next_page_token") == Str(cursor)
    || (!Get(p, "next_page_token").Str? && Get(p, "nextPageToken") == Str(cursor))
    || (!Get(p, "next_page_token").Str? && !Get(p, "nextPageToken").Str? && cursor == "")
  }

  /** A page shows its body, and of an object the cursor and the preferred records. */
  ghost predicate Shows(value: Json, page: Page) {
    && page.value == value
    && (value.Obj? ==> CursorIn(value.entries, page.nextPageToken) && ArePreferred(value.entries, page.items))
    && (!value.Obj? ==> page.nextPageToken == "" && page.items == [])
  }

  method BuildSDKPage(value: Json) returns (page: Page)
    ensures Shows(value, page)
  {
    page := Page(value, [], "");
    if value.Obj? {
      page := page.(nextPageToken := FirstString(value.entries, "next_page_token", "nextPageToken"));
      var items := PreferredCollection(value.entries);
      page := page.(items := items);
    }
  }

  /** Every body has one page. */
  ghost function PageOf(value: Json): Page {
    if page :| Shows(value, page) then page else Page(value, [], "")
  }

  lemma OnePage(value: Json, page: Page)
    requires Shows(value, page)
    ensures page == PageOf(value)
  {
    var other := PageOf(value);
    assert Shows(value, other);
    if value.Obj? {
      OnePreferred(value.entries, page.items, other.items);
    }
  }

  lemma OnePreferred(payload: Entries, a: seq<Json>, b: seq<Json>)
    requires ArePreferred(payload, a) && ArePreferred(payload, b)
    ensures a == b
  {
    if key :| IsPreferredKey(payload, key) && a == payload[key].items {
      if other :| IsPreferredKey(payload, other) && b == payload[other].items {
        if key != other {
          LessAsymmetric(key, other);
        }
      }
    }
  }

  /* ---- The walk ---- */

  /** A server answers a query with a body or an error; it is a parameter of everything below. */
  type Server = Entries -> Option<Json>

  /** The server seen through the page reader. */
  ghost function Reader(serve: Server): Fetcher {
    query => match serve(query) case Some(value) => Some(PageOf(value)) case None => None
  }

  /** `sent` is the log of the queries handed to the request engine. */
  method Paginate(serve: Server, query: Entries, ghost n: nat) returns (pages: Option<seq<Page>>, sent: seq<Entries>)
    requires EndsWithin(Reader(serve), query, n)
    ensures pages == Pages(Reader(serve), query, n) && sent == Queries(Reader(serve), query, n)
  {
    ghost var fetch := Reader(serve);
    var currentQuery := query;
    var collected: seq<Page> := [];
    sent := [];
    ghost var left, allPages, allQueries := n, Pages(fetch, query, n), Queries(fetch, query, n);
    PrependNothing(allPages);
    assert sent + allQueries == allQueries;
    while true
      invariant EndsWithin(fetch, currentQuery, left)
      invariant Prepend(collected, Pages(fetch, currentQuery, left)) == allPages
      invariant sent + Queries(fetch, currentQuery, left) == allQueries
      decreases left
    {
      WalkStep(fetch, currentQuery, left, collected, sent);
      sent := sent + [currentQuery];
      var value := serve(currentQuery);
      if value.None? {
        return None, sent;
      }
      var page := BuildSDKPage(value.value);
      OnePage(value.value, page);
      assert fetch(currentQuery) == Some(page);
      collected := collected + [page];
      if page.nextPageToken == "" {
        break;
      }
      currentQuery := currentQuery["next_page_token" := Str(page.nextPageToken)];
      left := left - 1;
    }
    return Some(collected), sent;
  }

  method IterAll(serve: Server, query: Entries, ghost n: nat) returns (items: Option<seq<Json>>, sent: seq<Entries>)
    requires EndsWithin(Reader(serve), query, n)
    ensures sent == Queries(Reader(serve), query, n)
    ensures var pages := Pages(Reader(serve), query, n);
            items == if pages.None? then None else Some(ItemsOf(pages.value))
  {
    var pages;
    pages, sent := Paginate(serve, query, n);
    if pages.None? {
      return None, sent;
    }
    var all: seq<Json> := [];
    for i := 0 to |pages.value|
      invariant all == ItemsOf(pages.value[..i])
    {
      assert pages.value[..i + 1][..i] == pages.value[..i];
      all := all + pages.value[i].items;
    }
    assert pages.value[..|pages.value|] == pages.value;
    return Some(all), sent;
  }

  /* ---- A server that splits a list ---- */

  /** One array field carries the records. */
  ghost predicate RecordsIn(p: Entries, items: seq<Json>) {
    exists field :: IsCollection(p, field) && p[field].items == items && forall other :: IsCollection(p, other) ==> other == field
  }

  ghost predicate IsPage(value: Json, items: seq<Json>, cursor: string) {
    value.Obj? && CursorIn(value.entries, cursor) && RecordsIn(value.entries, items)
  }

  ghost predicate ServesChunk(serve: Server, q: Entries, items: seq<Json>, cursor: string) {
    serve(q).Some? && IsPage(serve(q).value, items, cursor)
  }

  /** Asked with `query`, and then with each cursor it handed out, the server gives the chunks one
      by one: a non-empty cursor on every page but the last. */
  ghost predicate ServesList(serve: Server, query: Entries, chunks: seq<seq<Json>>, cursors: seq<string>) {
    && |chunks| == |cursors| + 1
    && (forall i :: 0 <= i < |cursors| ==> cursors[i] != "")
    && forall i :: 0 <= i < |chunks| ==> ServesChunk(serve, Asking(query, cursors, i), chunks[i], CursorOf(cursors, i))
  }

  lemma PageIsRead(value: Json, items: seq<Json>, cursor: string)
    requires IsPage(value, items, cursor)
    ensures PageOf(value) == Page(value, items, cursor)
  {
    var p := value.entries;
    var field :| IsCollection(p, field) && p[field].items == items && forall other :: IsCollection(p, other) ==> other == field;
    assert IsPreferredKey(p, field);
    OnePage(value, Page(value, items, cursor));
  }

  /** Against a server that splits a list the walk ends after one request per chunk and returns
      exactly the list: nothing lost, nothing twice, in order. */
  lemma IterAllReturnsTheList(serve: Server, query: Entries, chunks: seq<seq<Json>>, cursors: seq<string>)
    requires ServesList(serve, query, chunks, cursors)
    ensures Gives(Reader(serve), query, |chunks|, chunks)
  {
    forall k | 0 <= k < |chunks|
      ensures Fetches(Reader(serve), Asking(query, cursors, k), chunks[k], CursorOf(cursors, k))
    {
      assert ServesChunk(serve, Asking(query, cursors, k), chunks[k], CursorOf(cursors, k));
      PageIsRead(serve(Asking(query, cursors, k)).value, chunks[k], CursorOf(cursors, k));
    }
    EachHandedOut(Reader(serve), query, chunks, cursors, 0);
    WalkFrom(Reader(serve), query, chunks, cursors, 0);
    assert chunks[0..] == chunks;
  }
}
