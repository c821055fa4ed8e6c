/** The paginator: the window of page links, and the walk from page to page. */
module Paginator {
  import opened Options
  import opened Bytes
  import PageParam
  import PageUrl

  // ----- the window -----

  const ON_EACH_SIDE := 3

  /** Stands for the ellipsis in a list of pages. */
  const GAP := 0

  function Range(first: int, last: int): seq<int>
    decreases last - first
  {
    if first > last then [] else [first] + Range(first + 1, last)
  }

  function Window(current: int, last: int): seq<int> {
    var side := ON_EACH_SIDE + 4;
    if last < ON_EACH_SIDE * 2 + 8 then Range(1, last)
    else if current <= side then Range(1, side + ON_EACH_SIDE) + [GAP] + [last - 1, last]
    else if current > last - side then Range(1, 2) + [GAP] + Range(last - (side + ON_EACH_SIDE - 1), last)
    else Range(1, 2) + [GAP] + Range(current - ON_EACH_SIDE, current + ON_EACH_SIDE) + [GAP] + [last - 1, last]
  }

  lemma {:induction false} RangeAt(first: int, last: int)
    ensures |Range(first, last)| == if first > last then 0 else last - first + 1
    ensures forall i :: 0 <= i < |Range(first, last)| ==> Range(first, last)[i] == first + i
    decreases last - first
  {
    if first <= last {
      RangeAt(first + 1, last);
    }
  }

  /** Entry i goes on from the one before: by one page, or over a gap that
      stands between two pages and hides at least two. */
  ghost predicate GoesOn(w: seq<int>, i: nat)
    requires 0 < i < |w|
  {
    if w[i] == GAP then i < |w| - 1 && w[i - 1] != GAP && w[i + 1] != GAP && w[i - 1] + 3 <= w[i + 1]
    else w[i - 1] == GAP || w[i] == w[i - 1] + 1
  }

  /** Pages and gaps from one page to another. */
  ghost predicate IsTrail(w: seq<int>, first: int, last: int) {
    && w != [] && w[0] == first != GAP && w[|w| - 1] == last != GAP
    && forall i :: 0 < i < |w| ==> GoesOn(w, i)
  }

  /** From the first page to the last, one page after the other, and at each gap
      at least two pages are skipped. */
  ghost predicate IsWindow(w: seq<int>, last: int) { IsTrail(w, 1, last) }

  lemma RangeIsTrail(first: int, last: int)
    requires 1 <= first <= last
    ensures IsTrail(Range(first, last), first, last)
  {
    var w := Range(first, last);
    RangeAt(first, last);
    forall i | 0 < i < |w| ensures GoesOn(w, i) {
      assert w[i] == first + i && w[i - 1] == first + (i - 1);
    }
  }

  lemma PairIsRange(last: int)
    requires last >= 2
    ensures [last - 1, last] == Range(last - 1, last)
  {
    RangeAt(last - 1, last);
    assert Range(last - 1, last)[0] == last - 1 && Range(last - 1, last)[1] == last;
  }

  /** Two trails with a gap between them are a trail. */
  lemma TrailsJoin(a: seq<int>, b: seq<int>, first: int, middle: int, next: int, last: int)
    requires IsTrail(a, first, middle) && IsTrail(b, next, last) && middle + 3 <= next
    ensures IsTrail(a + [GAP] + b, first, last)
  {
    var w, n := a + [GAP] + b, |a|;
    forall i | 0 < i < |w| ensures GoesOn(w, i) {
      if i < n {
        assert w[i] == a[i] && w[i - 1] == a[i - 1] && GoesOn(a, i);
        if i < n - 1 { assert w[i + 1] == a[i + 1]; }
      } else if i == n {
        assert w[n] == GAP && w[n - 1] == middle && w[n + 1] == next;
      } else if i == n + 1 {
        assert w[n] == GAP && w[n + 1] == next;
      } else {
        var k := i - n - 1;
        assert w[i] == b[k] && w[i - 1] == b[k - 1] && GoesOn(b, k);
        if k < |b| - 1 { assert w[i + 1] == b[k + 1]; }
      }
    }
  }

  lemma WindowIsWindow(current: int, last: int)
    requires last >= 1
    ensures IsWindow(Window(current, last), last)
  {
    if last < ON_EACH_SIDE * 2 + 8 {
      RangeIsTrail(1, last);
    } else if current <= ON_EACH_SIDE + 4 {
      WindowAtStart(current, last);
    } else if current > last - (ON_EACH_SIDE + 4) {
      WindowAtEnd(current, last);
    } else {
      WindowInMiddle(current, last);
    }
  }

  lemma WindowAtStart(current: int, last: int)
    requires last >= 14 && current <= 7
    ensures IsWindow(Window(current, last), last)
  {
    RangeIsTrail(1, 10);
    RangeIsTrail(last - 1, last);
    PairIsRange(last);
    TrailsJoin(Range(1, 10), [last - 1, last], 1, 10, last - 1, last);
  }

  lemma WindowAtEnd(current: int, last: int)
    requires last >= 14 && current > last - 7
    ensures IsWindow(Window(current, last), last)
  {
    RangeIsTrail(1, 2);
    RangeIsTrail(last - 9, last);
    TrailsJoin(Range(1, 2), Range(last - 9, last), 1, 2, last - 9, last);
  }

  lemma WindowInMiddle(current: int, last: int)
    requires last >= 14 && 7 < current <= last - 7
    ensures IsWindow(Window(current, last), last)
  {
    var pages := Range(current - 3, current + 3);
    RangeIsTrail(1, 2);
    RangeIsTrail(current - 3, current + 3);
    TrailsJoin(Range(1, 2), pages, 1, 2, current - 3, current + 3);
    RangeIsTrail(last - 1, last);
    PairIsRange(last);
    TrailsJoin(Range(1, 2) + [GAP] + pages, [last - 1, last], 1, current + 3, last - 1, last);
  }

  /** Every page within three of the current one has its link, and no page has two. */
  lemma WindowShowsNeighbours(current: int, last: int, page: int)
    requires last >= 1 && 1 <= page <= last && current - 3 <= page <= current + 3
    ensures page in Window(current, last)
  {
    var w := Window(current, last);
    RangeAt(1, last);
    RangeAt(1, 10);
    RangeAt(1, 2);
    RangeAt(last - 9, last);
    RangeAt(current - 3, current + 3);
    if last < 14 {
      assert w[page - 1] == page;
    } else if current <= 7 {
      assert w[page - 1] == page;
    } else if current > last - 7 {
      assert w[3 + page - (last - 9)] == page;
    } else {
      assert w[3 + page - (current - 3)] == page;
    }
  }

  /** A window climbs: later entries are larger, gaps aside. */
  lemma {:induction false} WindowClimbs(w: seq<int>, last: int, i: nat, j: nat)
    requires IsWindow(w, last) && i < j < |w| && w[i] != GAP && w[j] != GAP
    ensures w[i] < w[j]
    decreases j - i
  {
    assert GoesOn(w, i + 1);
    var next := if w[i + 1] != GAP then i + 1 else i + 2;
    if next == i + 2 { assert GoesOn(w, i + 2); }
    if next < j { WindowClimbs(w, last, next, j); }
  }

  // ----- the links -----

  datatype PageField = Absent | Null | Page(page: int)

  datatype Link = Link(url: Option<Text>, caption: Text, page: PageField, active: bool)

  function UrlOf(basePath: Text, rawQuery: Text, page: int): Text {
    basePath + (if '?' in basePath then "&" else "?") + PageUrl.NewQuery(rawQuery, page)
  }

  function PageLink(basePath: Text, rawQuery: Text, current: int, page: int): Link {
    if page == GAP then Link(None, "...", Absent, false)
    else Link(Some(UrlOf(basePath, rawQuery, page)), Caption(page), Page(page), page == current)
  }

  function Caption(page: int): Text {
    if page < 0 then "-" + Decimal(-page) else Decimal(page)
  }

  function PreviousLink(basePath: Text, rawQuery: Text, current: int): Link {
    if current <= 1 then Link(None, "&laquo; Previous", Null, false)
    else Link(Some(UrlOf(basePath, rawQuery, current - 1)), "&laquo; Previous", Page(current - 1), false)
  }

  function NextLink(basePath: Text, rawQuery: Text, current: int, last: int): Link {
    if current >= last then Link(None, "Next &raquo;", Null, false)
    else Link(Some(UrlOf(basePath, rawQuery, current + 1)), "Next &raquo;", Page(current + 1), false)
  }

  /** The links are the window between the two arrows. */
  ghost predicate AreLinks(links: seq<Link>, basePath: Text, rawQuery: Text, current: int, last: int) {
    && links != []
    && StartLinks(links[..|links| - 1], basePath, rawQuery, current, Window(current, last))
    && links[|links| - 1] == NextLink(basePath, rawQuery, current, last)
  }

  /** The arrow back, then one link for each of the pages. */
  ghost predicate StartLinks(links: seq<Link>, basePath: Text, rawQuery: Text, current: int, pages: seq<int>) {
    && |links| == |pages| + 1
    && links[0] == PreviousLink(basePath, rawQuery, current)
    && forall i :: 0 <= i < |pages| ==> links[i + 1] == PageLink(basePath, rawQuery, current, pages[i])
  }

  lemma OneMoreLink(links: seq<Link>, basePath: Text, rawQuery: Text, current: int, pages: seq<int>, page: int)
    requires StartLinks(links, basePath, rawQuery, current, pages)
    ensures StartLinks(links + [PageLink(basePath, rawQuery, current, page)], basePath, rawQuery, current,
                       pages + [page])
  {
  }

  /** Only links to the current page are active. */
  ghost predicate OnlyCurrentActive(links: seq<Link>, w: seq<int>, current: int) {
    forall i :: 0 <= i < |links| && links[i].active ==> 1 <= i <= |w| && w[i - 1] == current
  }

  /** Some link is active exactly when the current page is in range, and never two. */
  lemma OneActiveLink(links: seq<Link>, basePath: Text, rawQuery: Text, current: int, last: int)
    requires last >= 1 && current >= 1 && AreLinks(links, basePath, rawQuery, current, last)
    ensures current <= last <==> exists i :: 0 <= i < |links| && links[i].active
    ensures forall i, j :: 0 <= i < j < |links| && links[i].active ==> !links[j].active
  {
    forall i | 0 <= i < |links| && links[i].active
      ensures 1 <= i <= |Window(current, last)| && Window(current, last)[i - 1] == current
    {
      ActiveIsCurrent(links, basePath, rawQuery, current, last, i);
    }
    AtMostOneActive(links, Window(current, last), current, last);
    if current <= last {
      CurrentIsActive(links, basePath, rawQuery, current, last);
    }
  }

  lemma AtMostOneActive(links: seq<Link>, w: seq<int>, current: int, last: int)
    requires last >= 1 && current >= 1 && w == Window(current, last) && OnlyCurrentActive(links, w, current)
    ensures current > last ==> forall i :: 0 <= i < |links| ==> !links[i].active
    ensures forall i, j :: 0 <= i < j < |links| && links[i].active ==> !links[j].active
  {
    WindowIsWindow(current, last);
    forall i | 0 <= i < |links| && links[i].active ensures current <= last {
      WindowInRange(w, last, i - 1);
    }
    forall i, j | 0 <= i < j < |links| && links[i].active ensures !links[j].active {
      if links[j].active {
        WindowClimbs(w, last, i - 1, j - 1);
      }
    }
  }

  lemma WindowInRange(w: seq<int>, last: int, i: nat)
    requires IsWindow(w, last) && i < |w| && w[i] != GAP
    ensures 1 <= w[i] <= last
  {
    if 0 < i { WindowClimbs(w, last, 0, i); }
    if i < |w| - 1 { WindowClimbs(w, last, i, |w| - 1); }
  }

  lemma CurrentIsActive(links: seq<Link>, basePath: Text, rawQuery: Text, current: int, last: int)
    requires 1 <= current <= last && AreLinks(links, basePath, rawQuery, current, last)
    ensures exists i :: 0 <= i < |links| && links[i].active
  {
    var w := Window(current, last);
    WindowShowsNeighbours(current, last, current);
    var i :| 0 <= i < |w| && w[i] == current;
    assert links[i + 1] == PageLink(basePath, rawQuery, current, w[i]);
  }

  lemma ActiveIsCurrent(links: seq<Link>, basePath: Text, rawQuery: Text, current: int, last: int, i: nat)
    requires last >= 1 && current >= 1 && AreLinks(links, basePath, rawQuery, current, last)
    requires i < |links| && links[i].active
    ensures 1 <= i <= |Window(current, last)| && Window(current, last)[i - 1] == current
  {
    if 1 <= i < |links| - 1 {
      assert links[(i - 1) + 1] == PageLink(basePath, rawQuery, current, Window(current, last)[i - 1]);
    }
  }

  // ----- walking the pages -----

  /** A page size of zero or less reads as 15. */
  function PerPage(perPage: int): nat { if perPage <= 0 then 15 else perPage }

  function LastPage(total: nat, perPage: nat): nat
    requires perPage > 0
  {
    var pages := total / perPage + if total % perPage != 0 then 1 else 0;
    if pages < 1 then 1 else pages
  }

  /** The rows a handler selects for a page: LIMIT perPage OFFSET (page - 1) * perPage. */
  function Slice<T>(rows: seq<T>, perPage: nat, page: nat): seq<T>
    requires perPage > 0 && page >= 1
  {
    var start := (page - 1) * perPage;
    assert start >= 0;
    if start >= |rows| then [] else if start + perPage <= |rows| then rows[start..start + perPage] else rows[start..]
  }

  datatype Body<T> = Body(current: int, data: seq<T>, firstUrl: Text, from: Option<int>, last: int, lastUrl: Text,
                          links: seq<Link>, next: Option<Text>, path: Text, perPage: int, previous: Option<Text>,
                          to: Option<int>, total: int)

  lemma LastPageBounds(total: nat, perPage: nat)
    requires perPage > 0
    ensures total <= LastPage(total, perPage) * perPage
    ensures total > 0 ==> (LastPage(total, perPage) - 1) * perPage < total
    ensures total == 0 ==> LastPage(total, perPage) == 1
  {
    var q, r := total / perPage, total % perPage;
    assert total == q * perPage + r;
    assert (q + 1) * perPage == q * perPage + perPage;
    if total > 0 && r == 0 {
      assert (q - 1) * perPage == q * perPage - perPage;
    }
  }

  /** Where the pages of the walk start. */
  lemma PageStartsInside(total: nat, perPage: nat, page: nat)
    requires perPage > 0 && 1 <= page <= LastPage(total, perPage)
    ensures 0 <= (page - 1) * perPage <= total
    ensures page < LastPage(total, perPage) ==> page * perPage < total
    ensures page == LastPage(total, perPage) ==> total <= page * perPage
    ensures page * perPage == (page - 1) * perPage + perPage
  {
    var last := LastPage(total, perPage);
    LastPageBounds(total, perPage);
    if total > 0 {
      MultiplyOrdered(page - 1, last - 1, perPage);
      if page < last { MultiplyOrdered(page, last - 1, perPage); }
    }
  }

  lemma MultiplyOrdered(a: nat, b: nat, c: nat)
    requires a <= b
    ensures a * c <= b * c
  {
  }

  function FromOf(count: nat, perPage: nat, page: int): Option<int> {
    if count > 0 then Some((page - 1) * perPage + 1) else None
  }

  function ToOf(count: nat, perPage: nat, page: int): Option<int> {
    if count > 0 then Some((page - 1) * perPage + count) else None
  }

  /** The shown ranges join up: the first starts at 1, each next one starts
      right after the one before, and the last ends at the total. */
  lemma RangesJoin<T>(rows: seq<T>, perPage: nat, page: nat)
    requires perPage > 0 && 1 <= page <= LastPage(|rows|, perPage) && rows != []
    ensures var n := |Slice(rows, perPage, page)|;
      && n > 0
      && (page == 1 ==> FromOf(n, perPage, page) == Some(1))
      && (page < LastPage(|rows|, perPage) ==>
            FromOf(|Slice(rows, perPage, page + 1)|, perPage, page + 1) == Some(ToOf(n, perPage, page).value + 1))
      && (page == LastPage(|rows|, perPage) ==> ToOf(n, perPage, page) == Some(|rows|))
  {
    PageStartsInside(|rows|, perPage, page);
    LastPageBounds(|rows|, perPage);
    if page < LastPage(|rows|, perPage) {
      PageStartsInside(|rows|, perPage, page + 1);
    }
  }

  // ----- following next -----

  /** What the paginator promises of a body, its links aside. */
  ghost predicate IsBody<T>(body: Body<T>, total: nat, perPage: int, currentPage: int, basePath: Text, rawQuery: Text,
                            items: seq<T>) {
    && body.data == items && body.total == total && body.path == basePath && body.perPage == PerPage(perPage)
    && body.current == (if currentPage < 1 then 1 else currentPage)
    && body.last == LastPage(total, PerPage(perPage))
    && body.firstUrl == UrlOf(basePath, rawQuery, 1) && body.lastUrl == UrlOf(basePath, rawQuery, body.last)
    && body.from == FromOf(|items|, PerPage(perPage), body.current)
    && body.to == ToOf(|items|, PerPage(perPage), body.current)
    && body.next == (if body.current < body.last then Some(UrlOf(basePath, rawQuery, body.current + 1)) else None)
    && body.previous == (if body.current > 1 then Some(UrlOf(basePath, rawQuery, body.current - 1)) else None)
  }

  /** A listing: its rows, its page size, its URL without a query, and whether
      its handler hands the caller's query on to the paginator. */
  datatype Listing<T> = Listing(rows: seq<T>, perPage: int, basePath: Text, keepQuery: bool) {
    function Size(): nat { PerPage(perPage) }

    function Last(): nat { LastPage(|rows|, Size()) }
  }

  /** The body a handler answers to a query: the page it asks for, with the rows
      selected for that page. */
  ghost predicate Answers<T>(body: Body<T>, l: Listing<T>, query: Text) {
    var page := PageParam.Requested(query);
    IsBody(body, |l.rows|, l.perPage, page, l.basePath, if l.keepQuery then query else [],
           Slice(l.rows, l.Size(), page))
  }

  /** What follows the first question mark of a URL. */
  function QueryOf(url: Text): Text {
    if url == [] then [] else if url[0] == '?' then url[1..] else QueryOf(url[1..])
  }

  /** Bodies answered from a query on, each to the next page's URL of the one before. */
  ghost predicate IsWalk<T>(bodies: seq<Body<T>>, l: Listing<T>, query: Text) {
    && bodies != [] && Answers(bodies[0], l, query)
    && (|bodies| > 1 ==> bodies[0].next.Some? && IsWalk(bodies[1..], l, QueryOf(bodies[0].next.value)))
  }

  /** All the rows shown. */
  function Shown<T>(bodies: seq<Body<T>>): seq<T> {
    if bodies == [] then [] else bodies[0].data + Shown(bodies[1..])
  }

  lemma {:induction false} QueryAt(path: Text, query: Text)
    requires '?' !in path
    ensures QueryOf(path + "?" + query) == query
  {
    var url := path + "?" + query;
    if path == [] {
      assert url[1..] == query;
    } else {
      assert path[0] in path && url[0] == path[0] && url[1..] == path[1..] + "?" + query;
      QueryAt(path[1..], query);
    }
  }

  /** A page's URL asks for that page. */
  lemma UrlAsksForPage(basePath: Text, rawQuery: Text, page: nat)
    requires '?' !in basePath && 1 <= page <= PageParam.MAX_INT
    ensures PageParam.Requested(QueryOf(UrlOf(basePath, rawQuery, page))) == page
  {
    QueryAt(basePath, PageUrl.NewQuery(rawQuery, page));
    PageParam.BuiltPageIsRequested(rawQuery, page);
  }

  /** A listing whose pages can all be asked for. */
  ghost predicate Paged<T>(l: Listing<T>) { '?' !in l.basePath && l.Last() <= PageParam.MAX_INT }

  /** The body of one page. */
  ghost predicate IsPage<T>(body: Body<T>, l: Listing<T>, page: nat) {
    && page >= 1 && body.data == Slice(l.rows, l.Size(), page)
    && body.from == FromOf(|body.data|, l.Size(), page) && body.to == ToOf(|body.data|, l.Size(), page)
    && (body.next.Some? <==> page < l.Last())
  }

  /** An answer is the page asked for, and its next page's URL asks for the page after it. */
  lemma AnswerIsPage<T>(body: Body<T>, l: Listing<T>, query: Text)
    requires Paged(l) && Answers(body, l, query)
    ensures IsPage(body, l, PageParam.Requested(query))
    ensures body.next.Some? ==> PageParam.Requested(QueryOf(body.next.value)) == PageParam.Requested(query) + 1
  {
    if body.current < l.Last() {
      UrlAsksForPage(l.basePath, if l.keepQuery then query else [], body.current + 1);
    }
  }

  /** One body for each page from one on. */
  ghost predicate ArePages<T>(bodies: seq<Body<T>>, l: Listing<T>, page: nat) {
    forall i :: 0 <= i < |bodies| ==> IsPage(bodies[i], l, page + i)
  }

  /** All but the last have a next page. */
  ghost predicate GoOn<T>(bodies: seq<Body<T>>) {
    |bodies| <= 1 || (bodies[0].next.Some? && GoOn(bodies[1..]))
  }

  lemma {:induction false} GoesOnAt<T>(bodies: seq<Body<T>>, i: nat)
    requires GoOn(bodies) && i + 1 < |bodies|
    ensures bodies[i].next.Some?
  {
    if i > 0 {
      GoesOnAt(bodies[1..], i - 1);
    }
  }

  lemma {:induction false} WalkIsPages<T>(bodies: seq<Body<T>>, l: Listing<T>, query: Text, page: nat)
    requires Paged(l) && IsWalk(bodies, l, query) && page == PageParam.Requested(query)
    ensures ArePages(bodies, l, page) && GoOn(bodies)
  {
    AnswerIsPage(bodies[0], l, query);
    if |bodies| > 1 {
      WalkIsPages(bodies[1..], l, QueryOf(bodies[0].next.value), page + 1);
    }
    TailPages(bodies, l, page);
  }

  lemma TailPages<T>(bodies: seq<Body<T>>, l: Listing<T>, page: nat)
    requires bodies != [] && IsPage(bodies[0], l, page) && ArePages(bodies[1..], l, page + 1)
    ensures ArePages(bodies, l, page)
  {
    forall i | 0 <= i < |bodies| ensures IsPage(bodies[i], l, page + i) {
      if i > 0 {
        assert IsPage(bodies[1..][i - 1], l, page + 1 + (i - 1));
      }
    }
  }

  /** A body's data are the rows between two cuts. */
  ghost predicate IsCut<T>(data: seq<T>, rows: seq<T>, cuts: seq<nat>, i: nat)
    requires i + 1 < |cuts|
  {
    cuts[i] <= cuts[i + 1] <= |rows| && data == rows[cuts[i]..cuts[i + 1]]
  }

  lemma {:induction false} CutsShow<T>(bodies: seq<Body<T>>, rows: seq<T>, cuts: seq<nat>)
    requires |cuts| == |bodies| + 1 && bodies != []
    requires forall i :: 0 <= i < |bodies| ==> IsCut(bodies[i].data, rows, cuts, i)
    ensures cuts[0] <= cuts[|bodies|] <= |rows| && Shown(bodies) == rows[cuts[0]..cuts[|bodies|]]
  {
    assert IsCut(bodies[0].data, rows, cuts, 0);
    if |bodies| > 1 {
      forall i | 0 <= i < |bodies[1..]| ensures IsCut(bodies[1..][i].data, rows, cuts[1..], i) {
        assert IsCut(bodies[i + 1].data, rows, cuts, i + 1);
      }
      CutsShow(bodies[1..], rows, cuts[1..]);
    } else {
      assert Shown(bodies[1..]) == [];
    }
  }

  /** How many rows the first pages hold. */
  function RowsUpTo<T>(l: Listing<T>, pages: nat): nat {
    if pages * l.Size() < |l.rows| then pages * l.Size() else |l.rows|
  }

  lemma SliceOfPage<T>(l: Listing<T>, page: nat)
    requires 1 <= page
    ensures RowsUpTo(l, page - 1) <= RowsUpTo(l, page) <= |l.rows|
    ensures Slice(l.rows, l.Size(), page) == l.rows[RowsUpTo(l, page - 1)..RowsUpTo(l, page)]
  {
    assert page * l.Size() == (page - 1) * l.Size() + l.Size();
  }

  lemma PageIsCut<T>(body: Body<T>, l: Listing<T>, cuts: seq<nat>, i: nat)
    requires IsPage(body, l, i + 1) && i + 1 < |cuts|
    requires cuts[i] == RowsUpTo(l, i) && cuts[i + 1] == RowsUpTo(l, i + 1)
    ensures IsCut(body.data, l.rows, cuts, i)
  {
    SliceOfPage(l, i + 1);
  }

  lemma AllRowsUpToLast<T>(l: Listing<T>)
    ensures RowsUpTo(l, 0) == 0 && RowsUpTo(l, l.Last()) == |l.rows|
  {
    LastPageBounds(|l.rows|, l.Size());
  }

  lemma PagesShow<T>(bodies: seq<Body<T>>, l: Listing<T>)
    requires ArePages(bodies, l, 1) && |bodies| == l.Last()
    ensures Shown(bodies) == l.rows
  {
    var n := |bodies|;
    var cuts := seq(n + 1, i requires 0 <= i => RowsUpTo(l, i));
    forall i | 0 <= i < n ensures IsCut(bodies[i].data, l.rows, cuts, i) {
      assert IsPage(bodies[i], l, 1 + i);
      PageIsCut(bodies[i], l, cuts, i);
    }
    CutsShow(bodies, l.rows, cuts);
    AllRowsUpToLast(l);
  }

  /** The next page's range starts right after the page before. */
  ghost predicate RangeGoesOn<T>(bodies: seq<Body<T>>, i: nat)
    requires 0 < i < |bodies|
  {
    bodies[i - 1].to.Some? && bodies[i].from == Some(bodies[i - 1].to.value + 1)
  }

  lemma PagesGoOn<T>(bodies: seq<Body<T>>, l: Listing<T>, i: nat)
    requires ArePages(bodies, l, 1) && 0 < i < |bodies| <= l.Last() && l.rows != []
    ensures RangeGoesOn(bodies, i)
  {
    assert IsPage(bodies[i - 1], l, 1 + (i - 1)) && IsPage(bodies[i], l, 1 + i);
    RangesJoin(l.rows, l.Size(), i);
  }

  /** Following next from a request for page 1 shows the rows in order and goes on
      until, exactly at the last page, each of them has been shown once; each
      page's range starts right after the one before. */
  lemma WalkShowsEverything<T>(bodies: seq<Body<T>>, l: Listing<T>, query: Text)
    requires Paged(l) && IsWalk(bodies, l, query) && PageParam.Requested(query) == 1
    ensures |bodies| <= l.Last()
    ensures bodies[|bodies| - 1].next.None? <==> |bodies| == l.Last()
    ensures bodies[|bodies| - 1].next.None? ==> Shown(bodies) == l.rows
    ensures l.rows != [] ==> forall i :: 0 < i < |bodies| ==> RangeGoesOn(bodies, i)
  {
    var n := |bodies|;
    WalkIsPages(bodies, l, query, 1);
    assert IsPage(bodies[n - 1], l, 1 + (n - 1));
    if n > 1 {
      GoesOnAt(bodies, n - 2);
      assert IsPage(bodies[n - 2], l, 1 + (n - 2));
    }
    if n == l.Last() {
      PagesShow(bodies, l);
    }
    if l.rows != [] {
      forall i | 0 < i < n ensures RangeGoesOn(bodies, i) {
        PagesGoOn(bodies, l, i);
      }
    }
  }

  ghost function BodyOf<T>(rows: seq<T>, perPage: nat, last: nat, page: nat, basePath: Text, rawQuery: Text,
                           data: seq<T>): Body<T> {
    Body(page, data, UrlOf(basePath, rawQuery, 1), FromOf(|data|, perPage, page), last,
         UrlOf(basePath, rawQuery, last), [], if page < last then Some(UrlOf(basePath, rawQuery, page + 1)) else None,
         basePath, perPage, if page > 1 then Some(UrlOf(basePath, rawQuery, page - 1)) else None,
         ToOf(|data|, perPage, page), |rows|)
  }

  lemma Answered<T>(l: Listing<T>, query: Text) returns (body: Body<T>)
    ensures Answers(body, l, query)
  {
    var page := PageParam.Requested(query);
    body := BodyOf(l.rows, l.Size(), l.Last(), page, l.basePath, if l.keepQuery then query else [],
                   Slice(l.rows, l.Size(), page));
  }

  /** Every request starts a walk that ends, on a page without a next one. */
  lemma {:induction false} WalkEnds<T>(l: Listing<T>, query: Text) returns (bodies: seq<Body<T>>)
    requires Paged(l)
    ensures IsWalk(bodies, l, query) && bodies[|bodies| - 1].next.None?
    decreases l.Last() - PageParam.Requested(query)
  {
    var body := Answered(l, query);
    AnswerIsPage(body, l, query);
    bodies := [body];
    if body.next.Some? {
      var rest := WalkEnds(l, QueryOf(body.next.value));
      bodies := [body] + rest;
      assert bodies[1..] == rest;
    }
  }

  // ----- the code -----

  method Sequence(first: int, last: int) returns (out: seq<int>)
    ensures out == Range(first, last)
  {
    out := [];
    var i := first;
    RangeAt(first, last);
    while i <= last
      invariant first <= i && (first <= last ==> i <= last + 1) && (first > last ==> i == first)
      invariant |out| == i - first && forall k :: 0 <= k < |out| ==> out[k] == first + k
    {
      out := out + [i];
      i := i + 1;
    }
  }

  method WindowPages(current: int, last: int) returns (out: seq<int>)
    requires last >= 1
    ensures out == Window(current, last) && IsWindow(out, last)
  {
    WindowIsWindow(current, last);
    var side := ON_EACH_SIDE + 4;
    if last < ON_EACH_SIDE * 2 + 8 {
      out := Sequence(1, last);
      return;
    }
    if current <= side {
      out := Sequence(1, side + ON_EACH_SIDE);
      out := out + [GAP];
      out := out + [last - 1, last];
      return;
    }
    out := Sequence(1, 2);
    out := out + [GAP];
    if current > last - side {
      var tail := Sequence(last - (side + ON_EACH_SIDE - 1), last);
      out := out + tail;
      return;
    }
    var middle := Sequence(current - ON_EACH_SIDE, current + ON_EACH_SIDE);
    out := out + middle;
    out := out + [GAP];
    out := out + [last - 1, last];
  }

  method PageLinks(current: int, last: int, basePath: Text, rawQuery: Text) returns (links: seq<Link>)
    requires last >= 1
    ensures AreLinks(links, basePath, rawQuery, current, last)
  {
    links := [PreviousLink(basePath, rawQuery, current)];
    var pages := WindowPages(current, last);
    for i := 0 to |pages|
      invariant StartLinks(links, basePath, rawQuery, current, pages[..i])
    {
      var page := pages[i];
      OneMoreLink(links, basePath, rawQuery, current, pages[..i], page);
      assert pages[..i + 1] == pages[..i] + [page];
      if page == GAP {
        links := links + [Link(None, "...", Absent, false)];
        continue;
      }
      var url := PageUrl.BuildPageUrl(basePath, rawQuery, page);
      links := links + [Link(Some(url), Caption(page), Page(page), page == current)];
    }
    assert pages[..|pages|] == pages;
    assert (links + [NextLink(basePath, rawQuery, current, last)])[..|links|] == links;
    links := links + [NextLink(basePath, rawQuery, current, last)];
  }

  method Paginate<T>(total: nat, perPage: int, currentPage: int, basePath: Text, rawQuery: Text, items: seq<T>)
    returns (body: Body<T>)
    ensures IsBody(body, total, perPage, currentPage, basePath, rawQuery, items)
    ensures AreLinks(body.links, basePath, rawQuery, body.current, body.last)
  {
    var size := PerPage(perPage);
    var last := LastPage(total, size);
    var current := if currentPage < 1 then 1 else currentPage;
    var firstUrl := PageUrl.BuildPageUrl(basePath, rawQuery, 1);
    var lastUrl := PageUrl.BuildPageUrl(basePath, rawQuery, last);
    var next, previous := None, None;
    if current < last {
      var url := PageUrl.BuildPageUrl(basePath, rawQuery, current + 1);
      next := Some(url);
    }
    if current > 1 {
      var url := PageUrl.BuildPageUrl(basePath, rawQuery, current - 1);
      previous := Some(url);
    }
    var links := PageLinks(current, last, basePath, rawQuery);
    body := Body(current, items, firstUrl, FromOf(|items|, size, current), last, lastUrl, links, next, basePath, size,
                 previous, ToOf(|items|, size, current), total);
  }
}
