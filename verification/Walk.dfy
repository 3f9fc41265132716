/** Following cursors from page to page, whatever the pages are read from. */
module Walk {
  import opened Wrappers
  import opened Json

  datatype Page = Page(value: Json, items: seq<Json>, nextPageToken: string)

  /** The page a query leads to, or an error. */
  type Fetcher = Entries -> Option<Page>

  function WithCursor(query: Entries, cursor: string): Entries {
    query["next_page_token" := Str(cursor)]
  }

  /** The cursor a query's reply hands out; "" where the walk stops, be it for an error. */
  function CursorAfter(fetch: Fetcher, query: Entries): string {
    match fetch(query)
    case Some(page) => page.nextPageToken
    case None => ""
  }

  function NextQuery(fetch: Fetcher, query: Entries): Entries {
    WithCursor(query, CursorAfter(fetch, query))
  }

  /** The walk ends, by an error or an empty cursor, within `n` requests. */
  ghost predicate EndsWithin(fetch: Fetcher, query: Entries, n: nat)
    decreases n
  {
    n > 0 && (CursorAfter(fetch, query) != "" ==> EndsWithin(fetch, NextQuery(fetch, query), n - 1))
  }

  /** The queries a walk sends, one after the other. */
  function Queries(fetch: Fetcher, query: Entries, ghost n: nat): (queries: seq<Entries>)
    requires EndsWithin(fetch, query, n)
    decreases n
  {
    [query] + if CursorAfter(fetch, query) != "" then Queries(fetch, NextQuery(fetch, query), n - 1) else []
  }

  function Prepend(pages: seq<Page>, rest: Option<seq<Page>>): Option<seq<Page>> {
    if rest.Some? then Some(pages + rest.value) else None
  }

  /** The pages a walk collects; an error anywhere loses them all. */
  function Pages(fetch: Fetcher, query: Entries, ghost n: nat): (pages: Option<seq<Page>>)
    requires EndsWithin(fetch, query, n)
    decreases n
  {
    match fetch(query)
    case None => None
    case Some(page) =>
      Prepend([page], if CursorAfter(fetch, query) != "" then Pages(fetch, NextQuery(fetch, query), n - 1) else Some([]))
  }

  function ItemsOf(pages: seq<Page>): seq<Json> {
    if pages == [] then [] else ItemsOf(pages[..|pages| - 1]) + pages[|pages| - 1].items
  }

  /* ---- One turn of the loop ---- */

  lemma PrependNothing(rest: Option<seq<Page>>)
    ensures Prepend([], rest) == rest
  {
    if rest.Some? {
      assert [] + rest.value == rest.value;
    }
  }

  lemma Associate<T>(a: seq<T>, b: seq<T>, c: seq<T>)
    ensures a + (b + c) == a + b + c
  {
  }

  lemma PrependTwice(a: seq<Page>, b: seq<Page>, rest: Option<seq<Page>>)
    ensures Prepend(a, Prepend(b, rest)) == Prepend(a + b, rest)
    ensures Prepend(a, Prepend(b, Some([]))) == Some(a + b)
  {
    if rest.Some? {
      Associate(a, b, rest.value);
    }
    assert b + [] == b;
  }

  /** One turn of the loop moves the first page and query from the rest to what is collected. */
  lemma WalkStep(fetch: Fetcher, query: Entries, n: nat, collected: seq<Page>, sent: seq<Entries>)
    requires EndsWithin(fetch, query, n)
    ensures CursorAfter(fetch, query) == "" ==> sent + Queries(fetch, query, n) == sent + [query]
    ensures CursorAfter(fetch, query) != "" ==>
      sent + Queries(fetch, query, n) == sent + [query] + Queries(fetch, NextQuery(fetch, query), n - 1)
    ensures fetch(query).None? ==> Prepend(collected, Pages(fetch, query, n)) == None
    ensures fetch(query).Some? && CursorAfter(fetch, query) == "" ==>
      Prepend(collected, Pages(fetch, query, n)) == Some(collected + [fetch(query).value])
    ensures fetch(query).Some? && CursorAfter(fetch, query) != "" ==>
      Prepend(collected, Pages(fetch, query, n))
      == Prepend(collected + [fetch(query).value], Pages(fetch, NextQuery(fetch, query), n - 1))
  {
    if CursorAfter(fetch, query) == "" {
      assert Queries(fetch, query, n) == [query];
    } else {
      Associate(sent, [query], Queries(fetch, NextQuery(fetch, query), n - 1));
    }
    if fetch(query).Some? {
      PrependTwice(collected, [fetch(query).value],
        if CursorAfter(fetch, query) != "" then Pages(fetch, NextQuery(fetch, query), n - 1) else Some([]));
    }
  }

  /* ---- What every walk does ---- */

  /** The first request is the caller's query; each later one carries the cursor that the page before it
      handed out, and otherwise what the request before it carried; requests go on exactly while pages come
      with a cursor. */
  lemma {:induction false} EveryRequest(fetch: Fetcher, query: Entries, n: nat, k: nat)
    requires EndsWithin(fetch, query, n) && k < |Queries(fetch, query, n)|
    ensures var sent := Queries(fetch, query, n);
            && sent[0] == query
            && (k < |sent| - 1 <==> fetch(sent[k]).Some? && fetch(sent[k]).value.nextPageToken != "")
            && (k < |sent| - 1 ==>
                  && Get(sent[k + 1], "next_page_token") == Str(fetch(sent[k]).value.nextPageToken)
                  && forall field :: field != "next_page_token" ==>
                       (field in sent[k + 1] <==> field in sent[k]) && Get(sent[k + 1], field) == Get(sent[k], field))
    decreases n
  {
    if k > 0 {
      EveryRequest(fetch, NextQuery(fetch, query), n - 1, k - 1);
    }
  }

  /** A page comes back for every request, in order; the walk is lost exactly when the last request fails. */
  lemma {:induction false} EveryPage(fetch: Fetcher, query: Entries, n: nat, k: nat)
    requires EndsWithin(fetch, query, n) && k < |Queries(fetch, query, n)|
    ensures var sent, pages := Queries(fetch, query, n), Pages(fetch, query, n);
            && (pages.None? <==> fetch(sent[|sent| - 1]).None?)
            && (pages.Some? ==> |pages.value| == |sent| && fetch(sent[k]) == Some(pages.value[k]))
    decreases n
  {
    if CursorAfter(fetch, query) != "" {
      EveryPage(fetch, NextQuery(fetch, query), n - 1, if k > 0 then k - 1 else 0);
    }
  }

  /** No request differs from the caller's query in anything but the cursor. */
  lemma {:induction false} OtherFieldsKept(fetch: Fetcher, query: Entries, n: nat, k: nat)
    requires EndsWithin(fetch, query, n) && k < |Queries(fetch, query, n)|
    ensures Queries(fetch, query, n)[k] - {"next_page_token"} == query - {"next_page_token"}
    decreases n
  {
    if k > 0 {
      OtherFieldsKept(fetch, NextQuery(fetch, query), n - 1, k - 1);
      assert NextQuery(fetch, query) - {"next_page_token"} == query - {"next_page_token"};
    }
  }

  /** How far the bound reaches beyond the end of the walk never matters. */
  lemma {:induction false} BoundDoesNotMatter(fetch: Fetcher, query: Entries, m: nat, n: nat)
    requires EndsWithin(fetch, query, m) && EndsWithin(fetch, query, n)
    ensures Pages(fetch, query, m) == Pages(fetch, query, n) && Queries(fetch, query, m) == Queries(fetch, query, n)
    decreases m
  {
    if CursorAfter(fetch, query) != "" {
      BoundDoesNotMatter(fetch, NextQuery(fetch, query), m - 1, n - 1);
    }
  }

  /* ---- When a walk ends ---- */

  /** The query a walk would send after `k` others, if nothing stopped it. */
  ghost function QueryAt(fetch: Fetcher, query: Entries, k: nat): Entries {
    if k == 0 then query else NextQuery(fetch, QueryAt(fetch, query, k - 1))
  }

  ghost function CursorAt(fetch: Fetcher, query: Entries, k: nat): string {
    CursorAfter(fetch, QueryAt(fetch, query, k))
  }

  lemma {:induction false} QueryAfterNext(fetch: Fetcher, query: Entries, k: nat)
    ensures QueryAt(fetch, NextQuery(fetch, query), k) == QueryAt(fetch, query, k + 1)
  {
    if k > 0 {
      QueryAfterNext(fetch, query, k - 1);
    }
  }

  lemma {:induction false} EndingQuery(fetch: Fetcher, query: Entries, n: nat) returns (k: nat)
    requires EndsWithin(fetch, query, n)
    ensures CursorAt(fetch, query, k) == ""
    decreases n
  {
    if CursorAfter(fetch, query) == "" {
      k := 0;
    } else {
      var later := EndingQuery(fetch, NextQuery(fetch, query), n - 1);
      QueryAfterNext(fetch, query, later);
      k := later + 1;
    }
  }

  lemma {:induction false} EndsBy(fetch: Fetcher, query: Entries, k: nat)
    requires CursorAt(fetch, query, k) == ""
    ensures EndsWithin(fetch, query, k + 1)
    decreases k
  {
    if CursorAfter(fetch, query) != "" {
      QueryAfterNext(fetch, query, k - 1);
      EndsBy(fetch, NextQuery(fetch, query), k - 1);
    }
  }

  ghost predicate Ends(fetch: Fetcher, query: Entries) {
    exists n: nat :: EndsWithin(fetch, query, n)
  }

  ghost predicate LosesCursor(fetch: Fetcher, query: Entries) {
    exists k: nat :: CursorAt(fetch, query, k) == ""
  }

  /** A walk ends exactly when some query on its way gets no cursor. */
  lemma EndsExactly(fetch: Fetcher, query: Entries)
    ensures Ends(fetch, query) <==> LosesCursor(fetch, query)
  {
    if Ends(fetch, query) {
      var n: nat :| EndsWithin(fetch, query, n);
      var k := EndingQuery(fetch, query, n);
      assert LosesCursor(fetch, query);
    }
    if LosesCursor(fetch, query) {
      var k: nat :| CursorAt(fetch, query, k) == "";
      EndsBy(fetch, query, k);
      assert Ends(fetch, query);
    }
  }

  lemma {:induction false} QueryAtIs(fetch: Fetcher, query: Entries, k: nat)
    ensures QueryAt(fetch, query, k + 1) == WithCursor(query, CursorAt(fetch, query, k))
  {
    if k > 0 {
      QueryAtIs(fetch, query, k - 1);
    }
  }

  lemma {:induction false} QueriesRepeat(fetch: Fetcher, query: Entries, i: nat, j: nat, t: nat)
    requires QueryAt(fetch, query, i) == QueryAt(fetch, query, j)
    ensures QueryAt(fetch, query, i + t) == QueryAt(fetch, query, j + t)
  {
    if t > 0 {
      QueriesRepeat(fetch, query, i, j, t - 1);
    }
  }

  lemma {:induction false} CursorsGoOn(fetch: Fetcher, query: Entries, i: nat, j: nat, k: nat)
    requires i < j && QueryAt(fetch, query, i) == QueryAt(fetch, query, j)
    requires forall m: nat :: m < j ==> CursorAt(fetch, query, m) != ""
    ensures CursorAt(fetch, query, k) != ""
    decreases k
  {
    if k >= j {
      CursorsGoOn(fetch, query, i, j, k - (j - i));
      QueriesRepeat(fetch, query, i, j, k - j);
    }
  }

  /** Cursors come up to the query after `j` others. */
  ghost predicate GoesOn(fetch: Fetcher, query: Entries, j: nat) {
    forall m: nat :: m <= j ==> CursorAt(fetch, query, m) != ""
  }

  /** The same cursor is handed out twice on the way. */
  ghost predicate Repeats(fetch: Fetcher, query: Entries) {
    exists i: nat, j: nat :: i < j && GoesOn(fetch, query, j) && CursorAt(fetch, query, i) == CursorAt(fetch, query, j)
  }

  /** All cursors handed out on the way are among these. */
  ghost predicate CursorsAmong(fetch: Fetcher, query: Entries, cursors: set<string>) {
    forall k: nat :: GoesOn(fetch, query, k) ==> CursorAt(fetch, query, k) in cursors
  }

  /** A server that hands out the same cursor twice on the way keeps the walk going for ever. */
  lemma RepeatedCursorNeverEnds(fetch: Fetcher, query: Entries, i: nat, j: nat)
    requires i < j && CursorAt(fetch, query, i) == CursorAt(fetch, query, j) && GoesOn(fetch, query, j)
    ensures !Ends(fetch, query)
  {
    QueryAtIs(fetch, query, i);
    QueryAtIs(fetch, query, j);
    EndsExactly(fetch, query);
    if LosesCursor(fetch, query) {
      var k: nat :| CursorAt(fetch, query, k) == "";
      CursorsGoOn(fetch, query, i + 1, j + 1, k);
    }
  }

  ghost function FirstCursors(fetch: Fetcher, query: Entries, n: nat): set<string> {
    if n == 0 then {} else FirstCursors(fetch, query, n - 1) + {CursorAt(fetch, query, n - 1)}
  }

  lemma {:induction false} FirstCursorsAre(fetch: Fetcher, query: Entries, n: nat, cursor: string)
    ensures cursor in FirstCursors(fetch, query, n) <==> exists k: nat :: k < n && CursorAt(fetch, query, k) == cursor
  {
    if n > 0 {
      FirstCursorsAre(fetch, query, n - 1, cursor);
    }
  }

  /** A walk that neither ends nor repeats itself hands out a new cursor every time. */
  lemma {:induction false} CursorsPileUp(fetch: Fetcher, query: Entries, n: nat)
    requires !LosesCursor(fetch, query) && !Repeats(fetch, query)
    ensures |FirstCursors(fetch, query, n)| == n
  {
    if n > 0 {
      CursorsPileUp(fetch, query, n - 1);
      FirstCursorsAre(fetch, query, n - 1, CursorAt(fetch, query, n - 1));
      assert GoesOn(fetch, query, n - 1);
    }
  }

  lemma {:induction false} FirstCursorsAmong(fetch: Fetcher, query: Entries, cursors: set<string>, n: nat)
    requires CursorsAmong(fetch, query, cursors) && !LosesCursor(fetch, query)
    ensures FirstCursors(fetch, query, n) <= cursors
  {
    if n > 0 {
      FirstCursorsAmong(fetch, query, cursors, n - 1);
      assert GoesOn(fetch, query, n - 1);
    }
  }

  lemma SubsetIsNotLarger(small: set<string>, large: set<string>)
    requires small <= large
    ensures |small| <= |large|
  {
    assert large == small + (large - small);
  }

  /** Against a server that hands out finitely many cursors a walk ends exactly when no cursor comes twice. */
  lemma EndsUnlessRepeated(fetch: Fetcher, query: Entries, cursors: set<string>)
    requires CursorsAmong(fetch, query, cursors)
    ensures Ends(fetch, query) <==> !Repeats(fetch, query)
  {
    EndsExactly(fetch, query);
    if Repeats(fetch, query) {
      var i: nat, j: nat :| i < j && GoesOn(fetch, query, j) && CursorAt(fetch, query, i) == CursorAt(fetch, query, j);
      RepeatedCursorNeverEnds(fetch, query, i, j);
    } else if !LosesCursor(fetch, query) {
      CursorsPileUp(fetch, query, |cursors| + 1);
      FirstCursorsAmong(fetch, query, cursors, |cursors| + 1);
      SubsetIsNotLarger(FirstCursors(fetch, query, |cursors| + 1), cursors);
      assert false;
    }
  }

  /* ---- A list handed out chunk by chunk ---- */

  function Flatten(chunks: seq<seq<Json>>): seq<Json> {
    if chunks == [] then [] else Flatten(chunks[..|chunks| - 1]) + chunks[|chunks| - 1]
  }

  /** The query that asks for chunk `i`. */
  ghost function Asking(query: Entries, cursors: seq<string>, i: nat): Entries
    requires i <= |cursors|
  {
    if i == 0 then query else query["next_page_token" := Str(cursors[i - 1])]
  }

  /** The cursor on the page of chunk `i`: empty on the last. */
  ghost function CursorOf(cursors: seq<string>, i: nat): string {
    if i < |cursors| then cursors[i] else ""
  }

  ghost predicate Fetches(fetch: Fetcher, q: Entries, items: seq<Json>, cursor: string) {
    fetch(q).Some? && fetch(q).value.items == items && fetch(q).value.nextPageToken == cursor
  }

  /** The walk from `q` ends within `n` requests, one per chunk, and gives the given chunks. */
  ghost predicate Gives(fetch: Fetcher, q: Entries, n: nat, chunks: seq<seq<Json>>) {
    && EndsWithin(fetch, q, n)
    && Pages(fetch, q, n).Some?
    && ItemsOf(Pages(fetch, q, n).value) == Flatten(chunks)
    && |Queries(fetch, q, n)| == |chunks|
  }

  lemma LastPageGives(fetch: Fetcher, q: Entries, items: seq<Json>)
    requires Fetches(fetch, q, items, "")
    ensures Gives(fetch, q, 1, [items])
  {
    var page := fetch(q).value;
    assert [page] + [] == [page];
    assert Pages(fetch, q, 1) == Some([page]);
    assert [page][..0] == [] && [items][..0] == [];
  }

  lemma OneMorePageGives(fetch: Fetcher, q: Entries, n: nat, items: seq<Json>, cursor: string, rest: seq<seq<Json>>)
    requires Fetches(fetch, q, items, cursor) && cursor != ""
    requires Gives(fetch, WithCursor(q, cursor), n, rest)
    ensures Gives(fetch, q, n + 1, [items] + rest)
  {
    var page, later := fetch(q).value, Pages(fetch, WithCursor(q, cursor), n);
    assert Pages(fetch, q, n + 1) == Prepend([page], later);
    FlattenFront(items, rest);
    ItemsOfFront(page, later.value);
  }

  lemma {:induction false} FlattenFront(items: seq<Json>, rest: seq<seq<Json>>)
    ensures Flatten([items] + rest) == items + Flatten(rest)
  {
    var all := [items] + rest;
    if rest == [] {
      assert all[..0] == [] && items + [] == items;
    } else {
      FlattenFront(items, rest[..|rest| - 1]);
      assert all[..|all| - 1] == [items] + rest[..|rest| - 1];
    }
  }

  lemma {:induction false} ItemsOfFront(page: Page, rest: seq<Page>)
    ensures ItemsOf([page] + rest) == page.items + ItemsOf(rest)
  {
    var all := [page] + rest;
    if rest == [] {
      assert all[..0] == [] && page.items + [] == page.items;
    } else {
      ItemsOfFront(page, rest[..|rest| - 1]);
      assert all[..|all| - 1] == [page] + rest[..|rest| - 1];
    }
  }

  /** Asked with `query`, and then with each cursor handed out, the fetcher gives the chunks one by one,
      from chunk `i` on. */
  ghost predicate HandsOutFrom(fetch: Fetcher, query: Entries, chunks: seq<seq<Json>>, cursors: seq<string>, i: nat)
    requires |chunks| == |cursors| + 1 && i < |chunks|
    decreases |chunks| - i
  {
    && Fetches(fetch, Asking(query, cursors, i), chunks[i], CursorOf(cursors, i))
    && (i < |cursors| ==> cursors[i] != "" && HandsOutFrom(fetch, query, chunks, cursors, i + 1))
  }

  lemma {:induction false} EachHandedOut(fetch: Fetcher, query: Entries, chunks: seq<seq<Json>>, cursors: seq<string>, i: nat)
    requires |chunks| == |cursors| + 1 && i < |chunks| && forall k :: 0 <= k < |cursors| ==> cursors[k] != ""
    requires forall k :: 0 <= k < |chunks| ==> Fetches(fetch, Asking(query, cursors, k), chunks[k], CursorOf(cursors, k))
    ensures HandsOutFrom(fetch, query, chunks, cursors, i)
    decreases |chunks| - i
  {
    if i < |cursors| {
      EachHandedOut(fetch, query, chunks, cursors, i + 1);
    }
  }

  /** Every record exactly once, in order: from chunk `i` on. */
  lemma {:induction false} WalkFrom(fetch: Fetcher, query: Entries, chunks: seq<seq<Json>>, cursors: seq<string>, i: nat)
    requires |chunks| == |cursors| + 1 && i < |chunks| && HandsOutFrom(fetch, query, chunks, cursors, i)
    ensures Gives(fetch, Asking(query, cursors, i), |chunks| - i, chunks[i..])
    decreases |chunks| - i
  {
    ChunkByChunk(chunks, i);
    if i < |cursors| {
      WalkFrom(fetch, query, chunks, cursors, i + 1);
      WalkOnePageMore(fetch, query, chunks, cursors, i, |chunks| - i - 1);
    } else {
      LastPageGives(fetch, Asking(query, cursors, i), chunks[i]);
    }
  }

  lemma WalkOnePageMore(fetch: Fetcher, query: Entries, chunks: seq<seq<Json>>, cursors: seq<string>, i: nat, n: nat)
    requires i < |cursors| && i + 1 < |chunks| && cursors[i] != ""
    requires Fetches(fetch, Asking(query, cursors, i), chunks[i], cursors[i])
    requires Gives(fetch, Asking(query, cursors, i + 1), n, chunks[i + 1..])
    ensures Gives(fetch, Asking(query, cursors, i), n + 1, [chunks[i]] + chunks[i + 1..])
  {
    NextAsking(query, cursors, i);
    OneMorePageGives(fetch, Asking(query, cursors, i), n, chunks[i], cursors[i], chunks[i + 1..]);
  }

  lemma ChunkByChunk(chunks: seq<seq<Json>>, i: nat)
    requires i < |chunks|
    ensures chunks[i..] == [chunks[i]] + chunks[i + 1..]
    ensures i == |chunks| - 1 ==> chunks[i..] == [chunks[i]]
  {
  }

  lemma NextAsking(query: Entries, cursors: seq<string>, i: nat)
    requires i < |cursors|
    ensures WithCursor(Asking(query, cursors, i), cursors[i]) == Asking(query, cursors, i + 1)
  {
  }
}
