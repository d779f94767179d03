/**
 Cursor pagination over a table ordered by key.
 */
module Pagination {
  import opened Wrappers

  datatype Entry<V> = Entry(key: int, value: V)

  datatype Direction = Forward | Reverse

  datatype Page<V> = Page(edges: seq<Entry<V>>, hasPreviousPage: bool, hasNextPage: bool)

  datatype PaginationError = BothFirstAndLast | AfterWithLast | BeforeWithFirst | WholeRange

  /* ---------- the stream of entries ---------- */

  // Keys are distinct and in order.
  predicate Ordered<V>(table: seq<Entry<V>>)
  {
    forall i, j :: 0 <= i < j < |table| ==> table[i].key < table[j].key
  }

  function Reversed<V>(s: seq<Entry<V>>): (r: seq<Entry<V>>)
    ensures |r| == |s|
    ensures forall i :: 0 <= i < |s| ==> r[i] == s[|s| - 1 - i]
  {
    seq(|s|, i requires 0 <= i < |s| => s[|s| - 1 - i])
  }

  function Directed<V>(table: seq<Entry<V>>, d: Direction): (r: seq<Entry<V>>)
  {
    if d.Forward? then table else Reversed(table)
  }

  // Whether an iteration in this direction that starts at `start` includes `key`.
  predicate NotBefore(key: int, start: int, d: Direction)
  {
    if d.Forward? then key >= start else key <= start
  }

  // From the first entry at or past `start` on.
  function From<V>(s: seq<Entry<V>>, start: int, d: Direction): (r: seq<Entry<V>>)
  {
    if s == [] || NotBefore(s[0].key, start, d) then s else From(s[1..], start, d)
  }

  // What the table's iterator yields.
  function Entries<V>(table: seq<Entry<V>>, start: Option<int>, d: Direction): (r: seq<Entry<V>>)
  {
    if start.None? then Directed(table, d) else From(Directed(table, d), start.value, d)
  }

  /* ---------- one page ---------- */

  // Leading entries with the start key are not part of the page.
  function Skipped<V>(s: seq<Entry<V>>, start: Option<int>): (r: seq<Entry<V>>)
  {
    if start.Some? && s != [] && s[0].key == start.value then Skipped(s[1..], start) else s
  }

  // The number of entries before the end key.
  function UpTo<V>(s: seq<Entry<V>>, end: Option<int>): (r: nat)
    ensures r <= |s|
  {
    if s == [] || (end.Some? && s[0].key == end.value) then 0 else 1 + UpTo(s[1..], end)
  }

  // A page of at most `count` entries: there is a next page exactly when entries remain.
  function PageOf<V>(s: seq<Entry<V>>, start: Option<int>, end: Option<int>, count: nat): (r: Page<V>)
  {
    var rest := Skipped(s, start);
    var n := if UpTo(rest, end) <= count then UpTo(rest, end) else count;
    Page(rest[..n], |rest| < |s|, n < |rest|)
  }

  method SkipStart<V>(s: seq<Entry<V>>, start: Option<int>) returns (i: nat, hasPreviousPage: bool)
    ensures i <= |s| && s[i..] == Skipped(s, start)
    ensures hasPreviousPage <==> i > 0
  {
    i, hasPreviousPage := 0, false;
    assert s[0..] == s;
    while i < |s| && start.Some? && s[i].key == start.value
      invariant i <= |s|
      invariant Skipped(s, start) == Skipped(s[i..], start)
      invariant hasPreviousPage <==> i > 0
    {
      assert s[i..][1..] == s[i + 1..];
      hasPreviousPage := true;
      i := i + 1;
    }
  }

  method TakePage<V>(rest: seq<Entry<V>>, end: Option<int>, first: nat)
    returns (edges: seq<Entry<V>>, hasNextPage: bool)
    ensures edges == rest[..if UpTo(rest, end) <= first then UpTo(rest, end) else first]
    ensures hasNextPage <==> |edges| < |rest|
  {
    // one more, to see whether there is a next page
    var count, i := first + 1, 0;
    edges, hasNextPage := [], false;
    assert rest[0..] == rest;
    while i < |rest| && i < first + 1
      invariant 0 <= i <= |rest| && edges == rest[..i] && i + count == first + 1 && count > 0
      invariant UpTo(rest, end) == i + UpTo(rest[i..], end)
      invariant !hasNextPage
    {
      assert rest[i..][1..] == rest[i + 1..];
      if end.Some? && rest[i].key == end.value {
        hasNextPage := true;
        break;
      }
      count := count - 1;
      if count == 0 {
        hasNextPage := true;
        break;
      }
      edges := edges + [rest[i]];
      i := i + 1;
    }
  }

  method PageFrom<V>(s: seq<Entry<V>>, start: Option<int>, end: Option<int>, first: nat) returns (page: Page<V>)
    ensures page == PageOf(s, start, end, first)
  {
    var i, hasPreviousPage := SkipStart(s, start);
    var edges, hasNextPage := TakePage(s[i..], end, first);
    page := Page(edges, hasPreviousPage, hasNextPage);
  }

  // Which combinations of arguments are served.
  method QueryPagination<V>(table: seq<Entry<V>>, after: Option<int>, before: Option<int>, first: Option<nat>,
                            last: Option<nat>)
    returns (r: Result<Page<V>, PaginationError>)
    ensures r.Ok? <==> (first.Some? && last.None? && before.None?) || (first.None? && last.Some? && after.None?)
    ensures r == Err(BothFirstAndLast) <==> first.Some? && last.Some?
    ensures r == Err(AfterWithLast) <==> first.None? && last.Some? && after.Some?
    ensures r == Err(BeforeWithFirst) <==> first.Some? && last.None? && before.Some?
    ensures r == Err(WholeRange) <==> first.None? && last.None?
    ensures r.Ok? && first.Some? ==> r.value == PageOf(Entries(table, after, Forward), after, None, first.value)
    ensures r.Ok? && last.Some? ==> r.value == PageOf(Entries(table, before, Reverse), before, None, last.value)
  {
    if first.Some? && last.Some? {
      return Err(BothFirstAndLast);
    }
    if after.Some? && last.Some? {
      return Err(AfterWithLast);
    }
    if before.Some? && first.Some? {
      return Err(BeforeWithFirst);
    }
    if first.None? && last.None? {
      return Err(WholeRange);
    }
    var count, direction, start, end;
    if first.Some? {
      count, direction, start, end := first.value, Forward, after, before;
    } else {
      count, direction, start, end := last.value, Reverse, before, after;
    }
    var page := PageFrom(Entries(table, start, direction), start, end, count);
    r := Ok(page);
  }

  /* ---------- all pages ---------- */

  function PageAfter<V>(table: seq<Entry<V>>, cursor: Option<int>, d: Direction, count: nat): (r: Page<V>)
  {
    PageOf(Entries(table, cursor, d), cursor, None, count)
  }

  lemma {:induction false} UpToNone<V>(s: seq<Entry<V>>)
    ensures UpTo(s, None) == |s|
    decreases |s|
  {
    if s != [] {
      UpToNone(s[1..]);
    }
  }

  lemma {:induction false} FromKeyAt<V>(s: seq<Entry<V>>, d: Direction, i: nat)
    requires i < |s|
    requires forall a, b :: 0 <= a < b < |s| ==> if d.Forward? then s[a].key < s[b].key else s[a].key > s[b].key
    ensures From(s, s[i].key, d) == s[i..]
    decreases |s|
  {
    if i > 0 {
      assert !NotBefore(s[0].key, s[i].key, d);
      FromKeyAt(s[1..], d, i - 1);
    }
  }

  // The page after the entry at position `n - 1` starts at position `n`.
  lemma PageAtPosition<V>(table: seq<Entry<V>>, d: Direction, count: nat, n: nat)
    requires Ordered(table) && n <= |table|
    ensures var s := Directed(table, d);
            PageAfter(table, CursorAt(s, n), d, count) == PageAt(s, count, n)
  {
    var s := Directed(table, d);
    SkipsToPosition(table, d, n);
    PageOfRest(Entries(table, CursorAt(s, n), d), CursorAt(s, n), count, s, n);
  }

  lemma PageOfRest<V>(e: seq<Entry<V>>, start: Option<int>, count: nat, s: seq<Entry<V>>, n: nat)
    requires n <= |s| && Skipped(e, start) == s[n..] && (|s[n..]| < |e| <==> n > 0)
    ensures PageOf(e, start, None, count) == PageAt(s, count, n)
  {
    PageOfSkipped(e, start, count, s, n);
  }

  lemma PageOfSkipped<V>(e: seq<Entry<V>>, start: Option<int>, count: nat, s: seq<Entry<V>>, n: nat)
    requires n <= |s| && Skipped(e, start) == s[n..]
    ensures var m := if n + count <= |s| then n + count else |s|;
            PageOf(e, start, None, count) == Page(s[n..m], |s| - n < |e|, m < |s|)
  {
    UpToNone(s[n..]);
    var m := if n + count <= |s| then n + count else |s|;
    assert s[n..][..m - n] == s[n..m];
  }

  lemma SkipsToPosition<V>(table: seq<Entry<V>>, d: Direction, n: nat)
    requires Ordered(table) && n <= |table|
    ensures var s := Directed(table, d);
            var e := Entries(table, CursorAt(s, n), d);
            Skipped(e, CursorAt(s, n)) == s[n..] && (|s[n..]| < |e| <==> n > 0)
  {
    var s := Directed(table, d);
    if n == 0 {
      assert s[0..] == s;
    } else {
      FromKeyAt(s, d, n - 1);
      SkipsOne(s, n);
    }
  }

  lemma SkipsOne<V>(s: seq<Entry<V>>, n: nat)
    requires 0 < n <= |s| && (n < |s| ==> s[n].key != s[n - 1].key)
    ensures Skipped(s[n - 1..], Some(s[n - 1].key)) == s[n..]
  {
    var e, k := s[n - 1..], s[n - 1].key;
    assert e[0] == s[n - 1] && e[1..] == s[n..];
    assert Skipped(e, Some(k)) == Skipped(e[1..], Some(k));
  }

  function CursorAt<V>(s: seq<Entry<V>>, n: nat): (r: Option<int>)
    requires n <= |s|
  {
    if n == 0 then None else Some(s[n - 1].key)
  }

  // `key` comes after `cursor` in the direction of the iteration.
  predicate Past(key: int, cursor: int, d: Direction)
  {
    if d.Forward? then cursor < key else key < cursor
  }

  lemma {:induction false} FromSplits<V>(s: seq<Entry<V>>, start: int, d: Direction) returns (n: nat)
    requires forall a, b :: 0 <= a < b < |s| ==> Past(s[b].key, s[a].key, d)
    ensures n <= |s| && Skipped(From(s, start, d), Some(start)) == s[n..]
    ensures forall i :: 0 <= i < |s| ==> (i < n <==> !Past(s[i].key, start, d))
    ensures |From(s, start, d)| > |s| - n <==> exists i :: 0 <= i < |s| && s[i].key == start
    decreases |s|
  {
    if s == [] {
      n := 0;
    } else if s[0].key == start {
      n := 1;
      assert From(s, start, d) == s;
      SkipsOne(s, 1);
      assert s[0..] == s;
    } else if Past(s[0].key, start, d) {
      n := 0;
      assert s[0..] == s && From(s, start, d) == s;
    } else {
      var m := FromSplits(s[1..], start, d);
      n := m + 1;
      assert From(s, start, d) == From(s[1..], start, d);
      assert forall i :: 0 < i < |s| ==> s[i] == s[1..][i - 1];
      if i :| 0 <= i < |s| - 1 && s[1..][i].key == start {
        assert s[i + 1].key == start;
      }
    }
  }

  // The page after a cursor, whether or not its key is still in the table: it starts with the first
  // entry past the cursor, and announces a previous page exactly when the key is still there.
  lemma PageAfterCursor<V>(table: seq<Entry<V>>, d: Direction, count: nat, cursor: int) returns (n: nat)
    requires Ordered(table)
    ensures var s, page := Directed(table, d), PageAfter(table, Some(cursor), d, count);
            && n <= |s| && (forall i :: 0 <= i < |s| ==> (i < n <==> !Past(s[i].key, cursor, d)))
            && page.edges == s[n..if n + count <= |s| then n + count else |s|]
            && (page.hasNextPage <==> n + count < |s|)
            && (page.hasPreviousPage <==> exists i :: 0 <= i < |s| && s[i].key == cursor)
  {
    var s := Directed(table, d);
    DirectedGoesOn(table, d);
    n := FromSplits(s, cursor, d);
    PageOfSkipped(From(s, cursor, d), Some(cursor), count, s, n);
  }

  lemma DirectedGoesOn<V>(table: seq<Entry<V>>, d: Direction)
    requires Ordered(table)
    ensures var s := Directed(table, d);
            forall a, b :: 0 <= a < b < |s| ==> Past(s[b].key, s[a].key, d)
  {
  }

  // The pages that a client gets by following the last cursor of each page until there is no
  // next page.
  predicate Follows<V(==)>(table: seq<Entry<V>>, d: Direction, count: nat, cursor: Option<int>, pages: seq<Page<V>>)
    decreases |pages|
  {
    && pages != []
    && pages[0] == PageAfter(table, cursor, d, count)
    && if pages[0].hasNextPage then
         && pages[0].edges != []
         && Follows(table, d, count, Some(pages[0].edges[|pages[0].edges| - 1].key), pages[1..])
       else |pages| == 1
  }

  function Edges<V>(pages: seq<Page<V>>): (r: seq<Entry<V>>)
  {
    if pages == [] then [] else pages[0].edges + Edges(pages[1..])
  }

  // The flags and the sizes of the pages.
  predicate WellFormed<V>(pages: seq<Page<V>>, count: nat, started: bool)
    decreases |pages|
  {
    && pages != []
    && (pages[0].hasPreviousPage <==> started)
    && (pages[0].hasNextPage <==> |pages| > 1)
    && (|pages| > 1 ==> |pages[0].edges| == count && WellFormed(pages[1..], count, true))
  }

  function PageAt<V>(s: seq<Entry<V>>, count: nat, n: nat): (r: Page<V>)
    requires n <= |s|
  {
    var m := if n + count <= |s| then n + count else |s|;
    Page(s[n..m], n > 0, m < |s|)
  }

  // The pages cut the stream, from position `n` on, into consecutive pieces.
  predicate Cuts<V(==)>(s: seq<Entry<V>>, count: nat, n: nat, pages: seq<Page<V>>)
    requires n <= |s|
    decreases |pages|
  {
    && pages != []
    && pages[0] == PageAt(s, count, n)
    && if n + count < |s| then Cuts(s, count, n + count, pages[1..]) else |pages| == 1
  }

  // The pages after the entries of `s` are pieces of `s`.
  ghost predicate Paged<V>(table: seq<Entry<V>>, d: Direction, count: nat, s: seq<Entry<V>>)
  {
    forall n :: 0 <= n <= |s| ==> PageAfter(table, CursorAt(s, n), d, count) == PageAt(s, count, n)
  }

  lemma DirectedIsPaged<V>(table: seq<Entry<V>>, d: Direction, count: nat)
    requires Ordered(table)
    ensures Paged(table, d, count, Directed(table, d))
  {
    var s := Directed(table, d);
    forall n | 0 <= n <= |s| ensures PageAfter(table, CursorAt(s, n), d, count) == PageAt(s, count, n) {
      PageAtPosition(table, d, count, n);
    }
  }

  lemma PageEnd<V>(s: seq<Entry<V>>, count: nat, n: nat)
    requires n <= |s| && count > 0
    ensures var page := PageAt(s, count, n);
            && (page.hasNextPage <==> n + count < |s|)
            && (page.hasNextPage ==>
                page.edges != [] && Some(page.edges[|page.edges| - 1].key) == CursorAt(s, n + count))
  {
  }

  lemma {:induction false} FollowingCuts<V>(table: seq<Entry<V>>, d: Direction, count: nat, s: seq<Entry<V>>,
                                            n: nat, pages: seq<Page<V>>)
    requires count > 0 && n <= |s| && Paged(table, d, count, s)
    requires Follows(table, d, count, CursorAt(s, n), pages)
    ensures Cuts(s, count, n, pages)
    decreases |pages|
  {
    assert pages[0] == PageAt(s, count, n);
    PageEnd(s, count, n);
    if n + count < |s| {
      FollowingCuts(table, d, count, s, n + count, pages[1..]);
    }
    CutsFirst(s, count, n, pages);
  }

  lemma CutsFirst<V>(s: seq<Entry<V>>, count: nat, n: nat, pages: seq<Page<V>>)
    requires n <= |s| && pages != [] && pages[0] == PageAt(s, count, n)
    requires if n + count < |s| then Cuts(s, count, n + count, pages[1..]) else |pages| == 1
    ensures Cuts(s, count, n, pages)
  {
  }

  lemma {:induction false} CutsCover<V>(s: seq<Entry<V>>, count: nat, n: nat, pages: seq<Page<V>>)
    requires count > 0 && n <= |s| && Cuts(s, count, n, pages)
    ensures Edges(pages) == s[n..] && WellFormed(pages, count, n > 0)
    decreases |pages|
  {
    if n + count < |s| {
      CutsCover(s, count, n + count, pages[1..]);
      assert s[n..] == s[n..n + count] + s[n + count..];
    } else {
      assert pages[1..] == [];
      assert s[n..|s|] == s[n..];
    }
  }

  // The pages tile the table: together they hold every entry once, in the order of iteration;
  // all but the last are full and announce a next page, all but the first a previous one.
  lemma PagesTile<V>(table: seq<Entry<V>>, d: Direction, count: nat, pages: seq<Page<V>>)
    requires Ordered(table) && count > 0
    requires Follows(table, d, count, None, pages)
    ensures Edges(pages) == Directed(table, d)
    ensures WellFormed(pages, count, false)
  {
    var s := Directed(table, d);
    DirectedIsPaged(table, d, count);
    FollowingCuts(table, d, count, s, 0, pages);
    CutsCover(s, count, 0, pages);
    assert s[0..] == s;
  }

  // Following the cursors comes to an end.
  lemma {:induction false} PagesEnd<V>(table: seq<Entry<V>>, d: Direction, count: nat, n: nat)
    returns (pages: seq<Page<V>>)
    requires Ordered(table) && count > 0 && n <= |table|
    ensures Follows(table, d, count, CursorAt(Directed(table, d), n), pages)
    decreases |table| - n
  {
    var s := Directed(table, d);
    var page, cursor := PageAt(s, count, n), CursorAt(s, n);
    PageAtPosition(table, d, count, n);
    PageEnd(s, count, n);
    if n + count < |s| {
      var rest := PagesEnd(table, d, count, n + count);
      FollowsCons(table, d, count, cursor, page, CursorAt(s, n + count), rest);
      pages := [page] + rest;
    } else {
      FollowsAlone(table, d, count, cursor, page);
      pages := [page];
    }
  }

  lemma FollowsAlone<V>(table: seq<Entry<V>>, d: Direction, count: nat, cursor: Option<int>, page: Page<V>)
    requires page == PageAfter(table, cursor, d, count) && !page.hasNextPage
    ensures Follows(table, d, count, cursor, [page])
  {
  }

  lemma FollowsCons<V>(table: seq<Entry<V>>, d: Direction, count: nat, cursor: Option<int>, page: Page<V>,
                       next: Option<int>, rest: seq<Page<V>>)
    requires page == PageAfter(table, cursor, d, count) && page.hasNextPage
    requires page.edges != [] && Some(page.edges[|page.edges| - 1].key) == next
    requires Follows(table, d, count, next, rest)
    ensures Follows(table, d, count, cursor, [page] + rest)
  {
    assert ([page] + rest)[1..] == rest;
  }
}
