/** Keyset pagination as the list handlers do it: filter by the cursor's condition, order, take limit + 1
    rows, trim, and print the last row kept as the next cursor. Generic in the row and cursor types; rows
    are identified with their sort keys. */
module Keyset {
  import opened Base
  import Sorting

  /** What a paginated endpoint is made of. `before(a, b)` says that row a is listed before row b. */
  datatype Endpoint<!Row(!new), !Cursor> = Endpoint(
    before: (Row, Row) -> bool,
    show: Row -> string,
    parse: string -> Option<Cursor>,
    cond: (Cursor, Row) -> bool)
  {
    function Leq(): (Row, Row) -> bool {
      (a, b) => !before(b, a)
    }
  }

  datatype Page<Row> = Page(items: seq<Row>, hasMore: bool, next: string)

  function Filter<Row(!new)>(rows: seq<Row>, keep: Row -> bool): (r: seq<Row>)
    ensures |r| <= |rows|
    ensures forall x :: x in r <==> x in rows && keep(x)
  {
    if rows == [] then []
    else if keep(rows[0]) then [rows[0]] + Filter(rows[1..], keep)
    else Filter(rows[1..], keep)
  }

  function Matching<Row(!new), Cursor>(e: Endpoint<Row, Cursor>, cursor: Option<Cursor>): Row -> bool {
    (x: Row) => cursor.None? || e.cond(cursor.value, x)
  }

  /** SELECT ... WHERE condition ORDER BY key: everything the query could return. */
  function Selected<Row(!new), Cursor>(e: Endpoint<Row, Cursor>, table: seq<Row>, cursor: Option<Cursor>): seq<Row> {
    Sorting.Sort(Filter(table, Matching(e, cursor)), e.Leq())
  }

  /** LIMIT ? OFFSET ?. */
  function Slice<Row>(rows: seq<Row>, limit: nat, offset: nat): seq<Row> {
    if offset >= |rows| then []
    else if offset + limit >= |rows| then rows[offset..]
    else rows[offset..offset + limit]
  }

  /** trimResults. */
  function TrimResults<T>(results: seq<T>, limit: nat): (seq<T>, bool) {
    if |results| > limit then (results[..limit], true) else (results, false)
  }

  /** One request: the rows and the cursor for the following request. */
  function Handle<Row(!new), Cursor>(e: Endpoint<Row, Cursor>, table: seq<Row>, raw: string, limit: nat, offset: nat): Page<Row> {
    var cursor := e.parse(raw);
    var rows := Slice(Selected(e, table, cursor), limit + 1, if cursor.Some? then 0 else offset);
    var (items, hasMore) := TrimResults(rows, limit);
    Page(items, hasMore, if hasMore && |items| > 0 then e.show(items[|items| - 1]) else "")
  }

  // ---- Orders ----

  ghost predicate StrictTotal<Row(!new)>(before: (Row, Row) -> bool) {
    && (forall a :: !before(a, a))
    && (forall a, b, c :: before(a, b) && before(b, c) ==> before(a, c))
    && (forall a, b :: a == b || before(a, b) || before(b, a))
  }

  /** A row's printed cursor selects exactly the rows listed after it. */
  ghost predicate Faithful<Row(!new), Cursor>(e: Endpoint<Row, Cursor>, table: seq<Row>) {
    && StrictTotal(e.before)
    && e.parse("").None?
    && forall r :: r in table ==>
         e.parse(e.show(r)).Some?
         && forall x :: x in table ==> (e.cond(e.parse(e.show(r)).value, x) <==> e.before(r, x))
  }

  ghost predicate Ordered<Row(!new), Cursor>(e: Endpoint<Row, Cursor>, s: seq<Row>) {
    Sorting.Sorted(s, e.Leq())
  }

  lemma LeqOrder<Row(!new), Cursor>(e: Endpoint<Row, Cursor>)
    requires StrictTotal(e.before)
    ensures Sorting.TotalPreorder(e.Leq())
    ensures forall x, y :: e.Leq()(x, y) && e.Leq()(y, x) ==> x == y
  {
    forall a, b, c | e.Leq()(a, b) && e.Leq()(b, c) ensures e.Leq()(a, c) {
      assert a == b || e.before(a, b);
      assert b == c || e.before(b, c);
    }
  }

  lemma SelectedOrdered<Row(!new), Cursor>(e: Endpoint<Row, Cursor>, table: seq<Row>, cursor: Option<Cursor>)
    requires StrictTotal(e.before)
    ensures Ordered(e, Selected(e, table, cursor))
    ensures forall x :: x in Selected(e, table, cursor) <==> x in table && Matching(e, cursor)(x)
  {
    LeqOrder(e);
    var kept := Filter(table, Matching(e, cursor));
    Sorting.SortSorted(kept, e.Leq());
    forall x ensures x in Selected(e, table, cursor) <==> x in kept {
      assert x in multiset(Selected(e, table, cursor)) <==> x in multiset(kept);
    }
  }

  lemma {:induction false} FilterMultiset<Row(!new)>(rows: seq<Row>, keep: Row -> bool, x: Row)
    ensures multiset(Filter(rows, keep))[x] == if keep(x) then multiset(rows)[x] else 0
  {
    if rows != [] {
      FilterMultiset(rows[1..], keep, x);
      assert rows == [rows[0]] + rows[1..];
    }
  }

  lemma {:induction false} FilterOrdered<Row(!new), Cursor>(e: Endpoint<Row, Cursor>, s: seq<Row>, keep: Row -> bool)
    requires Ordered(e, s)
    ensures Ordered(e, Filter(s, keep))
  {
    if s != [] {
      FilterOrdered(e, s[1..], keep);
      var rest := Filter(s[1..], keep);
      forall j | 0 <= j < |rest| ensures e.Leq()(s[0], rest[j]) {
        assert rest[j] in s[1..];
        var k :| 0 <= k < |s[1..]| && s[1..][k] == rest[j];
        assert s[k + 1] == rest[j];
      }
    }
  }

  /** Filtering and ordering commute, so a narrower condition can be applied to the ordered list. */
  lemma SelectWithin<Row(!new), Cursor>(
      e: Endpoint<Row, Cursor>, table: seq<Row>, outer: Option<Cursor>, inner: Option<Cursor>, keep: Row -> bool)
    requires StrictTotal(e.before)
    requires forall x :: x in table ==> (Matching(e, inner)(x) <==> Matching(e, outer)(x) && keep(x))
    ensures Selected(e, table, inner) == Filter(Selected(e, table, outer), keep)
  {
    var a := Selected(e, table, inner);
    var o := Selected(e, table, outer);
    var b := Filter(o, keep);
    SelectedOrdered(e, table, inner);
    SelectedOrdered(e, table, outer);
    FilterOrdered(e, o, keep);
    forall x ensures multiset(a)[x] == multiset(b)[x] {
      FilterMultiset(table, Matching(e, inner), x);
      FilterMultiset(table, Matching(e, outer), x);
      FilterMultiset(o, keep, x);
      if x !in table {
        assert multiset(table)[x] == 0;
      }
    }
    LeqOrder(e);
    Sorting.SortedUnique(a, b, e.Leq());
  }

  // ---- Following the cursor on an ordered list ----

  /** The rows of s listed strictly after r. */
  function After<Row(!new), Cursor>(e: Endpoint<Row, Cursor>, s: seq<Row>, r: Row): (t: seq<Row>)
    ensures |t| <= |s|
  {
    Filter(s, x => e.before(r, x))
  }

  lemma {:induction false} AfterShorter<Row(!new), Cursor>(e: Endpoint<Row, Cursor>, s: seq<Row>, k: nat)
    requires k < |s| && !e.before(s[k], s[k])
    ensures |After(e, s, s[k])| < |s|
  {
    FilterDrops(s, x => e.before(s[k], x), k);
  }

  lemma {:induction false} FilterDrops<Row(!new)>(s: seq<Row>, keep: Row -> bool, k: nat)
    requires k < |s| && !keep(s[k])
    ensures |Filter(s, keep)| < |s|
  {
    if k > 0 { FilterDrops(s[1..], keep, k - 1); }
  }

  /** Pages cut from an ordered list: limit rows, then the same on the rows after the last of them. */
  function Pages<Row(!new), Cursor>(e: Endpoint<Row, Cursor>, s: seq<Row>, limit: nat): seq<Row>
    requires StrictTotal(e.before) && limit >= 1
    decreases |s|
  {
    if |s| <= limit then s
    else
      AfterShorter(e, s, limit - 1);
      s[..limit] + Pages(e, After(e, s, s[limit - 1]), limit)
  }

  ghost predicate Distinct<Row(!new)>(s: seq<Row>) {
    forall i, j :: 0 <= i < j < |s| ==> s[i] != s[j]
  }

  lemma {:induction false} FilterNone<Row(!new)>(s: seq<Row>, keep: Row -> bool)
    requires forall i :: 0 <= i < |s| ==> !keep(s[i])
    ensures Filter(s, keep) == []
  {
    if s != [] { FilterNone(s[1..], keep); }
  }

  lemma {:induction false} FilterAll<Row(!new)>(s: seq<Row>, keep: Row -> bool)
    requires forall i :: 0 <= i < |s| ==> keep(s[i])
    ensures Filter(s, keep) == s
  {
    if s != [] {
      FilterAll(s[1..], keep);
      assert s == [s[0]] + s[1..];
    }
  }

  lemma {:induction false} FilterConcat<Row(!new)>(a: seq<Row>, b: seq<Row>, keep: Row -> bool)
    ensures Filter(a + b, keep) == Filter(a, keep) + Filter(b, keep)
  {
    if a == [] {
      assert a + b == b;
    } else {
      hide Filter;
      FilterConcat(a[1..], b, keep);
      HeadOfConcat(a, b);
      FilterHead(a, keep);
      FilterHead(a + b, keep);
      Regroup([a[0]], Filter(a[1..], keep), Filter(b, keep));
    }
  }

  lemma HeadOfConcat<T>(a: seq<T>, b: seq<T>)
    requires a != []
    ensures (a + b)[0] == a[0] && (a + b)[1..] == a[1..] + b
  {
  }

  lemma Regroup<T>(a: seq<T>, b: seq<T>, c: seq<T>)
    ensures (a + b) + c == a + (b + c)
  {
  }

  lemma FilterHead<Row(!new)>(s: seq<Row>, keep: Row -> bool)
    requires s != []
    ensures Filter(s, keep) == if keep(s[0]) then [s[0]] + Filter(s[1..], keep) else Filter(s[1..], keep)
  {
  }

  /** In an ordered list the rows after s[k] come from behind position k, and they are all of the rows behind
      it when s[k] is the last of its kind. */
  lemma AfterIsBehind<Row(!new), Cursor>(e: Endpoint<Row, Cursor>, s: seq<Row>, k: nat)
    requires StrictTotal(e.before) && Ordered(e, s) && k < |s|
    ensures After(e, s, s[k]) == After(e, s[k + 1..], s[k])
    ensures (forall j :: k < j < |s| ==> s[j] != s[k]) ==> After(e, s, s[k]) == s[k + 1..]
  {
    var keep := x => e.before(s[k], x);
    var a, b := s[..k + 1], s[k + 1..];
    assert s == a + b;
    forall i | 0 <= i < |a| ensures !keep(a[i]) {
      assert i < k ==> e.Leq()(s[i], s[k]);
    }
    FilterConcat(a, b, keep);
    FilterNone(a, keep);
    if forall j :: k < j < |s| ==> s[j] != s[k] {
      forall i | 0 <= i < |b| ensures keep(b[i]) {
        assert b[i] == s[k + 1 + i] && e.Leq()(s[k], s[k + 1 + i]);
      }
      FilterAll(b, keep);
    }
  }

  lemma AfterOrdered<Row(!new), Cursor>(e: Endpoint<Row, Cursor>, s: seq<Row>, r: Row)
    requires Ordered(e, s)
    ensures Ordered(e, After(e, s, r))
  {
    FilterOrdered(e, s, x => e.before(r, x));
  }

  /** Without duplicates the pages are the list, whatever their size. */
  lemma {:induction false} PagesOfDistinct<Row(!new), Cursor>(e: Endpoint<Row, Cursor>, s: seq<Row>, limit: nat)
    requires StrictTotal(e.before) && limit >= 1 && Ordered(e, s) && Distinct(s)
    ensures Pages(e, s, limit) == s
    decreases |s|
  {
    if |s| > limit {
      DistinctAfter(e, s, limit);
      hide After, Ordered, Distinct, StrictTotal;
      PagesOfDistinct(e, s[limit..], limit);
      assert s[..limit] + s[limit..] == s;
    }
  }

  lemma DistinctAfter<Row(!new), Cursor>(e: Endpoint<Row, Cursor>, s: seq<Row>, k: nat)
    requires StrictTotal(e.before) && Ordered(e, s) && Distinct(s) && 0 < k < |s|
    ensures After(e, s, s[k - 1]) == s[k..] && Ordered(e, s[k..]) && Distinct(s[k..])
  {
    hide After, Filter, StrictTotal;
    AfterIsBehind(e, s, k - 1);
    AfterOrdered(e, s, s[k - 1]);
  }

  lemma {:induction false} PagesNotLonger<Row(!new), Cursor>(e: Endpoint<Row, Cursor>, s: seq<Row>, limit: nat)
    requires StrictTotal(e.before) && limit >= 1 && Ordered(e, s)
    ensures |Pages(e, s, limit)| <= |s|
    decreases |s|
  {
    if |s| > limit {
      AfterShorter(e, s, limit - 1);
      AfterIsBehind(e, s, limit - 1);
      AfterOrdered(e, s, s[limit - 1]);
      PagesNotLonger(e, After(e, s, s[limit - 1]), limit);
    }
  }

  /** Even with duplicates every row of the list is on some page. */
  lemma {:induction false} PagesMissNothing<Row(!new), Cursor>(e: Endpoint<Row, Cursor>, s: seq<Row>, limit: nat, x: Row)
    requires StrictTotal(e.before) && limit >= 1 && Ordered(e, s) && x in s
    ensures x in Pages(e, s, limit)
    decreases |s|
  {
    if |s| > limit && x !in s[..limit] {
      var last := s[limit - 1];
      AfterShorter(e, s, limit - 1);
      AfterOrdered(e, s, last);
      var k :| 0 <= k < |s| && s[k] == x;
      assert k >= limit;
      assert last in s[..limit];
      assert e.Leq()(last, x);
      assert x in After(e, s, last);
      PagesMissNothing(e, After(e, s, last), limit, x);
    }
  }

  /** A pair of equal neighbours is split by the page size that ends between them. */
  lemma DuplicateIsLost<Row(!new), Cursor>(e: Endpoint<Row, Cursor>, s: seq<Row>, i: nat)
    requires StrictTotal(e.before) && Ordered(e, s) && i + 1 < |s| && s[i] == s[i + 1]
    ensures Pages(e, s, i + 1) != s
  {
    AfterIsBehind(e, s, i);
    AfterOrdered(e, s, s[i]);
    FilterDrops(s[i + 1..], x => e.before(s[i], x), 0);
    PagesNotLonger(e, After(e, s, s[i]), i + 1);
  }

  lemma EqualNeighbours<Row(!new), Cursor>(e: Endpoint<Row, Cursor>, s: seq<Row>, i: nat, j: nat)
    requires StrictTotal(e.before) && Ordered(e, s) && i < j < |s| && s[i] == s[j]
    ensures s[i] == s[i + 1]
  {
    LeqOrder(e);
    assert e.Leq()(s[i], s[i + 1]);
    assert i + 1 < j ==> e.Leq()(s[i + 1], s[j]);
  }

  // ---- Following next_cursor over HTTP ----

  /** A request a client can make: without a cursor, or with the cursor of a row it has been given. */
  ghost predicate Requestable<Row(!new), Cursor>(e: Endpoint<Row, Cursor>, table: seq<Row>, raw: string) {
    raw == "" || exists r :: r in table && raw == e.show(r)
  }

  /** Everything still to come for a request. */
  function Rest<Row(!new), Cursor>(e: Endpoint<Row, Cursor>, table: seq<Row>, raw: string): seq<Row> {
    Selected(e, table, e.parse(raw))
  }

  /** The rows after a row r of the rest are the rest for r's printed cursor. */
  lemma RestAfter<Row(!new), Cursor>(e: Endpoint<Row, Cursor>, table: seq<Row>, raw: string, r: Row)
    requires Faithful(e, table) && Requestable(e, table, raw)
    requires r in Rest(e, table, raw)
    ensures Requestable(e, table, e.show(r))
    ensures Rest(e, table, e.show(r)) == After(e, Rest(e, table, raw), r)
  {
    var outer, inner := e.parse(raw), e.parse(e.show(r));
    SelectedOrdered(e, table, outer);
    assert r in table && Matching(e, outer)(r);
    forall x | x in table
      ensures Matching(e, inner)(x) <==> Matching(e, outer)(x) && e.before(r, x)
    {
      assert e.cond(inner.value, x) <==> e.before(r, x);
      if raw != "" {
        var p :| p in table && raw == e.show(p);
        assert e.cond(outer.value, x) <==> e.before(p, x);
        assert e.cond(outer.value, r) <==> e.before(p, r);
      }
    }
    SelectWithin(e, table, outer, inner, x => e.before(r, x));
  }

  /** A page in terms of the rest: its first limit rows, and whether that leaves any. */
  lemma HandleTakes<Row(!new), Cursor>(e: Endpoint<Row, Cursor>, table: seq<Row>, raw: string, limit: nat)
    requires limit >= 1
    ensures var rest := Rest(e, table, raw);
            Handle(e, table, raw, limit, 0)
            == if |rest| > limit then Page(rest[..limit], true, e.show(rest[limit - 1])) else Page(rest, false, "")
  {
    hide Selected;
    var rest := Rest(e, table, raw);
    var rows := Slice(rest, limit + 1, 0);
    assert rest[0..] == rest;
    if |rest| > limit {
      assert rows == rest[..limit + 1];
      assert rows[..limit] == rest[..limit];
    }
  }

  /** What any request returns: without a cursor the rows from position `offset` to `offset + limit` of the ordered
      table, with one the first `limit` rows behind it whatever the offset. has_more says whether rows follow, and
      the next cursor is that of the last row returned. */
  lemma HandlePage<Row(!new), Cursor>(e: Endpoint<Row, Cursor>, table: seq<Row>, raw: string, limit: nat, offset: nat)
    ensures var page, all := Handle(e, table, raw, limit, offset), Rest(e, table, raw);
            var from := if e.parse(raw).Some? then 0 else offset;
            && |page.items| == (if from + limit <= |all| then limit else if from <= |all| then |all| - from else 0)
            && (forall i :: 0 <= i < |page.items| ==> page.items[i] == all[from + i])
            && (page.hasMore <==> from + limit < |all|)
            && page.next == (if page.hasMore && limit > 0 then e.show(all[from + limit - 1]) else "")
    ensures e.parse(raw).None? ==> Rest(e, table, raw) == Sorting.Sort(table, e.Leq())
  {
    hide *;
    if e.parse(raw).None? { WholeTable(e, table, raw); }
    HandleIs(e, table, raw, limit, offset);
    var from := if e.parse(raw).Some? then 0 else offset;
    SliceIs(Rest(e, table, raw), limit + 1, from);
    CutIs(Rest(e, table, raw), Slice(Rest(e, table, raw), limit + 1, from), limit, from);
  }

  lemma CutIs<Row>(all: seq<Row>, rows: seq<Row>, limit: nat, from: nat)
    requires |rows| == if from + limit + 1 <= |all| then limit + 1 else if from <= |all| then |all| - from else 0
    requires forall i :: 0 <= i < |rows| ==> rows[i] == all[from + i]
    ensures var items := if |rows| > limit then rows[..limit] else rows;
            && |items| == (if from + limit <= |all| then limit else if from <= |all| then |all| - from else 0)
            && (forall i :: 0 <= i < |items| ==> items[i] == all[from + i])
            && (|rows| > limit <==> from + limit < |all|)
            && (|rows| > limit > 0 ==> items[limit - 1] == all[from + limit - 1])
  {
  }

  lemma WholeTable<Row(!new), Cursor>(e: Endpoint<Row, Cursor>, table: seq<Row>, raw: string)
    requires e.parse(raw).None?
    ensures Rest(e, table, raw) == Sorting.Sort(table, e.Leq())
  {
    FilterAll(table, Matching(e, None));
  }

  lemma HandleIs<Row(!new), Cursor>(e: Endpoint<Row, Cursor>, table: seq<Row>, raw: string, limit: nat, offset: nat)
    ensures var rows := Slice(Rest(e, table, raw), limit + 1, if e.parse(raw).Some? then 0 else offset);
            var items := if |rows| > limit then rows[..limit] else rows;
            Handle(e, table, raw, limit, offset) ==
            Page(items, |rows| > limit, if |rows| > limit && limit > 0 then e.show(items[limit - 1]) else "")
  {
    hide Selected, Slice;
  }

  lemma SliceIs<Row>(rows: seq<Row>, limit: nat, from: nat)
    ensures var r := Slice(rows, limit, from);
            && |r| == (if from + limit <= |rows| then limit else if from <= |rows| then |rows| - from else 0)
            && forall i :: 0 <= i < |r| ==> r[i] == rows[from + i]
  {
  }

  /** The rows a client collects from raw on by following next_cursor until has_more is false. */
  ghost function Walk<Row(!new), Cursor>(e: Endpoint<Row, Cursor>, table: seq<Row>, raw: string, limit: nat): seq<Row>
    requires Faithful(e, table) && Requestable(e, table, raw) && limit >= 1
    decreases |Rest(e, table, raw)|
  {
    var page := Handle(e, table, raw, limit, 0);
    if !page.hasMore then page.items
    else
      var rest := Rest(e, table, raw);
      HandleTakes(e, table, raw, limit);
      RestAfter(e, table, raw, rest[limit - 1]);
      AfterShorter(e, rest, limit - 1);
      page.items + Walk(e, table, page.next, limit)
  }

  lemma {:induction false} WalkIsPages<Row(!new), Cursor>(e: Endpoint<Row, Cursor>, table: seq<Row>, raw: string, limit: nat)
    requires Faithful(e, table) && Requestable(e, table, raw) && limit >= 1
    ensures Walk(e, table, raw, limit) == Pages(e, Rest(e, table, raw), limit)
    decreases |Rest(e, table, raw)|
  {
    hide Handle, Rest, After;
    var rest := Rest(e, table, raw);
    HandleTakes(e, table, raw, limit);
    if |rest| > limit {
      var last := rest[limit - 1];
      RestAfter(e, table, raw, last);
      AfterShorter(e, rest, limit - 1);
      WalkIsPages(e, table, e.show(last), limit);
    }
  }

  lemma FullList<Row(!new), Cursor>(e: Endpoint<Row, Cursor>, table: seq<Row>)
    requires Faithful(e, table)
    ensures Rest(e, table, "") == Sorting.Sort(table, e.Leq())
    ensures Ordered(e, Rest(e, table, ""))
    ensures Distinct(Rest(e, table, "")) <==> Distinct(table)
  {
    FilterAll(table, Matching(e, e.parse("")));
    SelectedOrdered(e, table, None);
    DistinctMultiset(table);
    DistinctMultiset(Rest(e, table, ""));
  }

  lemma DistinctMultiset<Row(!new)>(s: seq<Row>)
    ensures Distinct(s) <==> forall x :: x in s ==> multiset(s)[x] == 1
  {
    if !Distinct(s) {
      var i, j :| 0 <= i < j < |s| && s[i] == s[j];
      CountPair(s, i, j);
    } else {
      forall x | x in s ensures multiset(s)[x] == 1 {
        var i :| 0 <= i < |s| && s[i] == x;
        assert s == s[..i] + [x] + s[i + 1..];
        assert x !in s[..i] && x !in s[i + 1..];
      }
    }
  }

  lemma CountPair<Row(!new)>(s: seq<Row>, i: nat, j: nat)
    requires i < j < |s| && s[i] == s[j]
    ensures multiset(s)[s[i]] >= 2
  {
    assert s == s[..j] + [s[j]] + s[j + 1..];
    assert s[i] in s[..j] && multiset(s[..j])[s[i]] >= 1;
  }

  lemma WalkOfDistinct<Row(!new), Cursor>(e: Endpoint<Row, Cursor>, table: seq<Row>, limit: nat)
    requires Faithful(e, table) && Distinct(table) && limit >= 1
    ensures Walk(e, table, "", limit) == Sorting.Sort(table, e.Leq())
  {
    hide Walk, Rest, Pages;
    FullList(e, table);
    WalkIsPages(e, table, "", limit);
    PagesOfDistinct(e, Rest(e, table, ""), limit);
  }

  lemma WalkOfDuplicates<Row(!new), Cursor>(e: Endpoint<Row, Cursor>, table: seq<Row>) returns (limit: nat)
    requires Faithful(e, table) && !Distinct(table)
    ensures limit >= 1 && Walk(e, table, "", limit) != Sorting.Sort(table, e.Leq())
  {
    hide Walk, Rest, Pages;
    var full := Rest(e, table, "");
    FullList(e, table);
    var i, j :| 0 <= i < j < |full| && full[i] == full[j];
    EqualNeighbours(e, full, i, j);
    DuplicateIsLost(e, full, i);
    limit := i + 1;
    WalkIsPages(e, table, "", limit);
  }

  /** Following next_cursor from the first page gives the whole table once and in order for every page size
      if and only if the table's keys are distinct. */
  lemma WalkIsTable<Row(!new), Cursor>(e: Endpoint<Row, Cursor>, table: seq<Row>)
    requires Faithful(e, table)
    ensures (forall limit: nat | limit >= 1 :: Walk(e, table, "", limit) == Sorting.Sort(table, e.Leq()))
            <==> Distinct(table)
  {
    hide Walk, Faithful;
    if Distinct(table) {
      forall limit: nat | limit >= 1 ensures Walk(e, table, "", limit) == Sorting.Sort(table, e.Leq()) {
        WalkOfDistinct(e, table, limit);
      }
    } else {
      var limit := WalkOfDuplicates(e, table);
      assert Walk(e, table, "", limit) != Sorting.Sort(table, e.Leq());
    }
  }

  /** With duplicates, rows may be listed fewer times than stored, but no row is skipped altogether. */
  lemma WalkMissesNothing<Row(!new), Cursor>(e: Endpoint<Row, Cursor>, table: seq<Row>, limit: nat, x: Row)
    requires Faithful(e, table) && limit >= 1 && x in table
    ensures x in Walk(e, table, "", limit)
  {
    FullList(e, table);
    WalkIsPages(e, table, "", limit);
    assert x in multiset(table);
    assert x in multiset(Sorting.Sort(table, e.Leq()));
    PagesMissNothing(e, Rest(e, table, ""), limit, x);
  }

  // ---- A table that grows during the walk ----

  /** Between two requests the table keeps its rows, and gains only rows that are listed before r. */
  ghost predicate GrowsBefore<Row(!new), Cursor>(e: Endpoint<Row, Cursor>, t: seq<Row>, t': seq<Row>, r: Row) {
    && multiset(t) <= multiset(t')
    && forall x :: x in t' && multiset(t')[x] > multiset(t)[x] ==> e.before(x, r)
  }

  /** The requests of a client that follows next_cursor from `raw` on, each with the table as it is then. */
  ghost predicate IsTour<Row(!new), Cursor>(
    e: Endpoint<Row, Cursor>, tables: seq<seq<Row>>, pages: seq<Page<Row>>, raw: string, limit: nat)
    decreases |pages|
  {
    && |tables| == |pages| >= 1
    && Faithful(e, tables[0]) && pages[0] == Handle(e, tables[0], raw, limit, 0)
    && (|pages| > 1 ==>
          && pages[0].hasMore && pages[0].items != []
          && GrowsBefore(e, tables[0], tables[1], pages[0].items[|pages[0].items| - 1])
          && IsTour(e, tables[1..], pages[1..], pages[0].next, limit))
  }

  function Items<Row>(pages: seq<Page<Row>>): seq<Row> {
    if pages == [] then [] else pages[0].items + Items(pages[1..])
  }

  /** The rows behind r are the same after such growth. */
  lemma GrowthIsNotSeen<Row(!new), Cursor>(e: Endpoint<Row, Cursor>, t: seq<Row>, t': seq<Row>, r: Row)
    requires Faithful(e, t) && Faithful(e, t') && GrowsBefore(e, t, t', r) && r in t
    ensures r in t' && Rest(e, t', e.show(r)) == Rest(e, t, e.show(r))
  {
    var cursor := e.parse(e.show(r));
    var keep := Matching(e, cursor);
    assert r in multiset(t) && r in multiset(t');
    var a, b := Filter(t, keep), Filter(t', keep);
    forall x ensures multiset(a)[x] == multiset(b)[x] {
      FilterMultiset(t, keep, x);
      FilterMultiset(t', keep, x);
      if x in t' {
        assert keep(x) <==> e.before(r, x);
      } else {
        assert x !in multiset(t');
      }
    }
    assert multiset(a) == multiset(b);
    LeqOrder(e);
    Sorting.SortSorted(a, e.Leq());
    Sorting.SortSorted(b, e.Leq());
    Sorting.SortedUnique(Sorting.Sort(a, e.Leq()), Sorting.Sort(b, e.Leq()), e.Leq());
  }

  lemma SuffixOfDistinct<Row(!new), Cursor>(e: Endpoint<Row, Cursor>, a: seq<Row>, b: seq<Row>)
    requires Distinct(a + b) && Ordered(e, a + b)
    ensures Distinct(b) && Ordered(e, b)
  {
    var all := a + b;
    assert forall i :: 0 <= i < |b| ==> b[i] == all[|a| + i];
  }

  /** One request of the tour: what it lists and what is left for the next one are what was left for it. */
  lemma TourStep<Row(!new), Cursor>(
    e: Endpoint<Row, Cursor>, t: seq<Row>, t': seq<Row>, raw: string, page: Page<Row>, limit: nat)
    requires Faithful(e, t) && Faithful(e, t') && Requestable(e, t, raw) && limit >= 1
    requires page == Handle(e, t, raw, limit, 0) && page.hasMore && page.items != []
    requires GrowsBefore(e, t, t', page.items[|page.items| - 1])
    requires Distinct(Rest(e, t, raw)) && Ordered(e, Rest(e, t, raw))
    ensures page.items + Rest(e, t', page.next) == Rest(e, t, raw) && |page.items| == limit
    ensures Requestable(e, t', page.next)
  {
    hide Handle, After, Faithful, GrowsBefore, Requestable, Rest, Distinct, Ordered, StrictTotal;
    var rest := Rest(e, t, raw);
    HandleTakes(e, t, raw, limit);
    var r := rest[limit - 1];
    FaithfulTotal(e, t);
    DistinctAfter(e, rest, limit);
    RestAfter(e, t, raw, r);
    CutAt(rest, limit);
    RestIsStored(e, t, raw, r);
    GrowthIsNotSeen(e, t, t', r);
    StoredIsRequestable(e, t', r);
  }

  lemma CutAt<T>(s: seq<T>, k: nat)
    requires 0 < k <= |s|
    ensures s[..k] + s[k..] == s && s[..k][k - 1] == s[k - 1]
  {
  }

  lemma FaithfulTotal<Row(!new), Cursor>(e: Endpoint<Row, Cursor>, t: seq<Row>)
    requires Faithful(e, t)
    ensures StrictTotal(e.before)
  {
  }

  lemma RestIsStored<Row(!new), Cursor>(e: Endpoint<Row, Cursor>, t: seq<Row>, raw: string, r: Row)
    requires StrictTotal(e.before) && r in Rest(e, t, raw)
    ensures r in t
  {
    SelectedOrdered(e, t, e.parse(raw));
  }

  lemma StoredIsRequestable<Row(!new), Cursor>(e: Endpoint<Row, Cursor>, t: seq<Row>, r: Row)
    requires r in t
    ensures Requestable(e, t, e.show(r))
  {
  }

  lemma {:induction false} TourListsRest<Row(!new), Cursor>(
    e: Endpoint<Row, Cursor>, tables: seq<seq<Row>>, pages: seq<Page<Row>>, raw: string, limit: nat)
    requires IsTour(e, tables, pages, raw, limit) && limit >= 1 && Requestable(e, tables[0], raw)
    requires Distinct(Rest(e, tables[0], raw)) && Ordered(e, Rest(e, tables[0], raw))
    ensures Items(pages) <= Rest(e, tables[0], raw)
    ensures !pages[|pages| - 1].hasMore ==> Items(pages) == Rest(e, tables[0], raw)
    ensures (|pages| - 1) * limit <= |Rest(e, tables[0], raw)|
    decreases |pages|
  {
    hide Faithful, Rest, Handle, Requestable, Distinct, Ordered, GrowsBefore;
    var page := pages[0];
    if |pages| == 1 {
      HandleTakes(e, tables[0], raw, limit);
      assert Items(pages) == page.items + Items([]) == page.items;
    } else {
      TourStep(e, tables[0], tables[1], raw, page, limit);
      SuffixOfDistinct(e, page.items, Rest(e, tables[1], page.next));
      TourListsRest(e, tables[1..], pages[1..], page.next, limit);
      MorePages(page.items, Items(pages[1..]), Rest(e, tables[1], page.next));
      assert (|pages| - 1) * limit == (|pages| - 2) * limit + limit;
    }
  }

  lemma MorePages<T>(a: seq<T>, b: seq<T>, c: seq<T>)
    requires b <= c
    ensures a + b <= a + c
  {
  }

  /** While the table gains only rows that are listed before the ones already given out, like new blocks on a
      descending list, a client is given the rows that were there at its first request: each once, in order, and all
      of them when has_more is false, which comes after finitely many requests. */
  lemma TourListsTable<Row(!new), Cursor>(
    e: Endpoint<Row, Cursor>, tables: seq<seq<Row>>, pages: seq<Page<Row>>, limit: nat)
    requires IsTour(e, tables, pages, "", limit) && limit >= 1 && Distinct(tables[0])
    ensures Items(pages) <= Sorting.Sort(tables[0], e.Leq())
    ensures !pages[|pages| - 1].hasMore ==> Items(pages) == Sorting.Sort(tables[0], e.Leq())
    ensures (|pages| - 1) * limit <= |tables[0]|
  {
    hide Rest, Handle, Distinct, Ordered, Items, GrowsBefore;
    FullList(e, tables[0]);
    TourListsRest(e, tables, pages, "", limit);
  }
}
