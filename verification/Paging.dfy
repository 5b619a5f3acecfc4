/** Cursor pagination (`defender/api/pages.py`) over a store that changes between pages, and the
    in-memory store that meets its contract (`defender/api/fakes.py`). */
module Paging {
  import opened Options
  import opened TextOrder

  // ---------------------------------------------------------------- orders

  /** A cursor's fields: the list, tenant and filters it was issued for, and a position. */
  datatype CursorBody = CursorBody(list: string, tenant: string, filters: string, at: Option<int>, id: string)

  /** How one list is ordered, and how a position goes into a cursor and comes back. */
  datatype Order<!T(!new), !P(!new)> = Order(
    position: T -> P,
    precedes: (P, P) -> bool,
    dump: P -> (Option<int>, string),
    load: CursorBody -> Option<P>)

  ghost predicate StrictTotal<P(!new)>(precedes: (P, P) -> bool) {
    && (forall a :: !precedes(a, a))
    && (forall a, b, c :: precedes(a, b) && precedes(b, c) ==> precedes(a, c))
    && (forall a, b :: precedes(a, b) || precedes(b, a) || a == b)
  }

  /** A strict total order whose positions survive a cursor. */
  ghost predicate Lawful<T(!new), P(!new)>(order: Order<T, P>) {
    && StrictTotal(order.precedes)
    && forall p, body: CursorBody ::
         (body.at, body.id) == order.dump(p) ==> order.load(body) == Some(p)
  }

  /** Tuple order on a moment and an id. */
  predicate TimeLess(a: (int, string), b: (int, string)) {
    a.0 < b.0 || (a.0 == b.0 && TextLess(a.1, b.1))
  }

  function NewestFirst<T(!new)>(at: T -> int, ident: T -> string): Order<T, (int, string)> {
    Order(item => (at(item), ident(item)),
          (a: (int, string), b: (int, string)) => TimeLess(b, a),
          (p: (int, string)) => (Some(p.0), p.1),
          (body: CursorBody) => if body.at.None? then None else Some((body.at.value, body.id)))
  }

  function OrderedById<T(!new)>(ident: T -> string): Order<T, string> {
    Order(ident,
          (a, b) => TextLess(a, b),
          p => (None, p),
          (body: CursorBody) => if body.at.None? then Some(body.id) else None)
  }

  lemma NewestFirstIsLawful<T(!new)>(at: T -> int, ident: T -> string)
    ensures Lawful(NewestFirst(at, ident))
  {
    var order := NewestFirst(at, ident);
    forall a ensures !order.precedes(a, a) { TextIrreflexive(a.1); }
    forall a, b, c | order.precedes(a, b) && order.precedes(b, c)
      ensures order.precedes(a, c)
    {
      if a.0 == b.0 == c.0 { TextTransitive(c.1, b.1, a.1); }
    }
    forall a, b ensures order.precedes(a, b) || order.precedes(b, a) || a == b { TextTotal(a.1, b.1); }
  }

  lemma OrderedByIdIsLawful<T(!new)>(ident: T -> string)
    ensures Lawful(OrderedById(ident))
  {
    var order := OrderedById(ident);
    forall a ensures !order.precedes(a, a) { TextIrreflexive(a); }
    forall a, b, c | order.precedes(a, b) && order.precedes(b, c)
      ensures order.precedes(a, c)
    {
      TextTransitive(a, b, c);
    }
    forall a, b ensures order.precedes(a, b) || order.precedes(b, a) || a == b { TextTotal(a, b); }
  }

  // ---------------------------------------------------------------- one page

  /** Each row strictly after the one before it, the first strictly after `after`. */
  ghost predicate Advancing<T(!new), P(!new)>(order: Order<T, P>, after: Option<P>, rows: seq<T>) {
    && (rows != [] && after.Some? ==> order.precedes(after.value, order.position(rows[0])))
    && forall i :: 0 < i < |rows| ==> order.precedes(order.position(rows[i - 1]), order.position(rows[i]))
  }

  /** `_advances`: does the store's answer keep its promise? */
  method Advances<T(!new), P(!new)>(order: Order<T, P>, after: Option<P>, rows: seq<T>, asked: nat)
    returns (kept: bool)
    ensures kept <==> |rows| <= asked && Advancing(order, after, rows)
  {
    if |rows| > asked { return false; }
    var previous := after;
    for i := 0 to |rows|
      invariant Advancing(order, after, rows[..i])
      invariant previous == if i == 0 then after else Some(order.position(rows[i - 1]))
    {
      var position := order.position(rows[i]);
      if previous.Some? && !order.precedes(previous.value, position) {
        return false;
      }
      previous := Some(position);
    }
    assert rows[..|rows|] == rows;
    return true;
  }

  /** A cursor text: one that does not decode, or the body it decodes to. */
  datatype Cursor = NotOurs | Issued(body: CursorBody)

  datatype Query = Query(list: string, tenant: string, filters: string, limit: nat)

  datatype Answer<T> =
    | Page(items: seq<T>, next: Option<CursorBody>)
    | CursorRefused
    | StoreBrokePromise

  type Fetch<!T, !P> = (Option<P>, nat) -> seq<T>

  /** Where the page starts: `None` refuses the cursor, before the store is asked anything. */
  function StartOf<T(!new), P(!new)>(order: Order<T, P>, query: Query, cursor: Option<Cursor>): Option<Option<P>> {
    match cursor
    case None => Some(None)
    case Some(NotOurs) => None
    case Some(Issued(body)) =>
      if body.list != query.list || body.tenant != query.tenant || body.filters != query.filters then None
      else match order.load(body)
           case None => None
           case Some(p) => Some(Some(p))
  }

  function CursorAt<T(!new), P(!new)>(order: Order<T, P>, query: Query, p: P): CursorBody {
    var (at, id) := order.dump(p);
    CursorBody(query.list, query.tenant, query.filters, at, id)
  }

  /** `paginate`, given what `fetch` answered. */
  ghost function PageOf<T(!new), P(!new)>(
    order: Order<T, P>, query: Query, after: Option<P>, rows: seq<T>): Answer<T>
    requires query.limit >= 1
  {
    if !(|rows| <= query.limit + 1 && Advancing(order, after, rows)) then StoreBrokePromise
    else if |rows| <= query.limit then Page(rows, None)
    else
      var items := rows[..query.limit];
      Page(items, Some(CursorAt(order, query, order.position(items[|items| - 1]))))
  }

  ghost function Paginated<T(!new), P(!new)>(
    order: Order<T, P>, query: Query, cursor: Option<Cursor>, fetch: Fetch<T, P>): Answer<T>
    requires query.limit >= 1
  {
    match StartOf(order, query, cursor)
    case None => CursorRefused
    case Some(after) => PageOf(order, query, after, fetch(after, query.limit + 1))
  }

  /** A cursor that decodes, was issued for this list, to this tenant, over these filters, and names a
      position of this order. */
  predicate Ours<T(!new), P(!new)>(order: Order<T, P>, query: Query, cursor: Cursor) {
    && cursor.Issued?
    && cursor.body.list == query.list && cursor.body.tenant == query.tenant && cursor.body.filters == query.filters
    && order.load(cursor.body).Some?
  }

  /** The cursor after `row`: this query's own, at that row. */
  predicate PointsAt<T(!new), P(!new)>(order: Order<T, P>, query: Query, body: CursorBody, row: T) {
    && body.list == query.list && body.tenant == query.tenant && body.filters == query.filters
    && (body.at, body.id) == order.dump(order.position(row))
  }

  method Paginate<T(!new), P(!new)>(
    order: Order<T, P>, query: Query, cursor: Option<Cursor>, fetch: Fetch<T, P>) returns (answer: Answer<T>)
    requires query.limit >= 1
    ensures answer == Paginated(order, query, cursor, fetch)
    ensures answer.CursorRefused? <==> cursor.Some? && !Ours(order, query, cursor.value)
    ensures !answer.CursorRefused? ==>
              var after := if cursor.None? then None else order.load(cursor.value.body);
              var rows := fetch(after, query.limit + 1);
              && (answer.StoreBrokePromise? <==> |rows| > query.limit + 1 || !Advancing(order, after, rows))
              && (answer.Page? ==> answer.items == rows[..Least(query.limit, |rows|)])
              && (answer.Page? ==> (answer.next.Some? <==> |rows| > query.limit))
              && (answer.Page? && answer.next.Some? ==>
                    PointsAt(order, query, answer.next.value, rows[query.limit - 1]))
  {
    var start := StartOf(order, query, cursor);
    if start.None? { return CursorRefused; }
    var after := start.value;
    var rows := fetch(after, query.limit + 1);
    var kept := Advances(order, after, rows, query.limit + 1);
    if !kept { return StoreBrokePromise; }
    var items := if |rows| <= query.limit then rows else rows[..query.limit];
    var next := None;
    if |rows| > query.limit {
      next := Some(CursorAt(order, query, order.position(items[|items| - 1])));
    }
    answer := Page(items, next);
  }

  /** A cursor another query was issued is refused exactly when that query differs in its list, its
      tenant or its filters, whatever the store; what does not decode always is. */
  lemma CursorOfAnotherQuery<T(!new), P(!new)>(order: Order<T, P>, query: Query, other: Query, p: P, fetch: Fetch<T, P>)
    requires Lawful(order) && query.limit >= 1
    ensures Paginated(order, query, Some(Issued(CursorAt(order, other, p))), fetch).CursorRefused? <==>
            other.list != query.list || other.tenant != query.tenant || other.filters != query.filters
    ensures Paginated(order, query, Some(NotOurs), fetch).CursorRefused?
  {
    var body := CursorAt(order, other, p);
    assert (body.at, body.id) == order.dump(p);
  }

  /** One this query issued resumes at its own position. */
  lemma CursorComesBack<T(!new), P(!new)>(order: Order<T, P>, query: Query, p: P)
    requires Lawful(order)
    ensures StartOf(order, query, Some(Issued(CursorAt(order, query, p)))) == Some(Some(p))
  {
    var body := CursorAt(order, query, p);
    assert (body.at, body.id) == order.dump(p);
  }

  lemma CursorOfAnotherOrder<T(!new)>(at: T -> int, ident: T -> string, query: Query, p: (int, string), id: string)
    ensures StartOf(OrderedById(ident), query, Some(Issued(CursorAt(NewestFirst(at, ident), query, p)))).None?
    ensures StartOf(NewestFirst(at, ident), query, Some(Issued(CursorAt(OrderedById(ident), query, id)))).None?
  {
  }

  // ---------------------------------------------------------------- a whole walk

  /** A client following `next_cursor`; page `k` was answered by the store as it then was. */
  ghost predicate IsWalk<T(!new), P(!new)>(
    order: Order<T, P>, query: Query, stores: seq<Fetch<T, P>>, pages: seq<Answer<T>>)
    requires query.limit >= 1
  {
    && |stores| == |pages|
    && (forall k :: 0 <= k < |pages| ==> pages[k].Page?)
    && (forall k :: 0 <= k < |pages| - 1 ==> pages[k].next.Some?)
    && (forall k :: 0 <= k < |pages| ==>
          pages[k] == Paginated(order, query, CursorFor(pages, k), stores[k]))
  }

  ghost function CursorFor<T>(pages: seq<Answer<T>>, k: nat): Option<Cursor> {
    if 0 < k <= |pages| && pages[k - 1].Page? && pages[k - 1].next.Some?
    then Some(Issued(pages[k - 1].next.value)) else None
  }

  ghost predicate Finished<T>(pages: seq<Answer<T>>) {
    pages != [] && pages[|pages| - 1].Page? && pages[|pages| - 1].next.None?
  }

  ghost function Served<T>(pages: seq<Answer<T>>): seq<T>
    requires forall k :: 0 <= k < |pages| ==> pages[k].Page?
  {
    if pages == [] then [] else Served(pages[..|pages| - 1]) + pages[|pages| - 1].items
  }

  ghost predicate Increasing<T(!new), P(!new)>(order: Order<T, P>, rows: seq<T>) {
    forall i, j :: 0 <= i < j < |rows| ==> order.precedes(order.position(rows[i]), order.position(rows[j]))
  }

  lemma {:induction false} AdvancingIsIncreasing<T(!new), P(!new)>(order: Order<T, P>, after: Option<P>, rows: seq<T>)
    requires StrictTotal(order.precedes) && Advancing(order, after, rows)
    ensures Increasing(order, rows)
    ensures after.Some? ==> forall i :: 0 <= i < |rows| ==> order.precedes(after.value, order.position(rows[i]))
    decreases |rows|
  {
    if rows != [] {
      var front := rows[..|rows| - 1];
      AdvancingIsIncreasing(order, after, front);
      forall i, j | 0 <= i < j < |rows|
        ensures order.precedes(order.position(rows[i]), order.position(rows[j]))
      {
        if j == |rows| - 1 {
          assert order.precedes(order.position(rows[j - 1]), order.position(rows[j]));
          if i < j - 1 { assert order.precedes(order.position(front[i]), order.position(front[j - 1])); }
        } else {
          assert order.precedes(order.position(front[i]), order.position(front[j]));
        }
      }
      if after.Some? {
        var last := |rows| - 1;
        assert order.precedes(after.value, order.position(rows[0]));
        assert forall i :: 0 <= i < last ==> order.precedes(after.value, order.position(front[i]));
        if last > 0 { assert order.precedes(order.position(rows[0]), order.position(rows[last])); }
      }
    }
  }

  /** The position page `k` starts after. */
  ghost function StartFor<T(!new), P(!new)>(order: Order<T, P>, pages: seq<Answer<T>>, k: nat): Option<P>
    requires k < |pages| && forall j :: 0 <= j < |pages| ==> pages[j].Page?
  {
    if k == 0 || pages[k - 1].items == [] then None
    else Some(order.position(pages[k - 1].items[|pages[k - 1].items| - 1]))
  }

  /** In a walk, page `k` starts right after the last row page `k - 1` served. */
  lemma PageStartsWhereLastEnded<T(!new), P(!new)>(
    order: Order<T, P>, query: Query, stores: seq<Fetch<T, P>>, pages: seq<Answer<T>>, k: nat)
    requires query.limit >= 1 && Lawful(order) && IsWalk(order, query, stores, pages) && k < |pages|
    ensures k > 0 ==> |pages[k - 1].items| == query.limit
    ensures var after := StartFor(order, pages, k);
            pages[k] == PageOf(order, query, after, stores[k](after, query.limit + 1))
  {
    if k > 0 {
      var before := pages[k - 1];
      assert before == Paginated(order, query, CursorFor(pages, k - 1), stores[k - 1]);
      CursorComesBack(order, query, order.position(before.items[|before.items| - 1]));
    }
  }

  lemma PageFollows<T(!new), P(!new)>(
    order: Order<T, P>, query: Query, stores: seq<Fetch<T, P>>, pages: seq<Answer<T>>, k: nat)
    requires query.limit >= 1 && Lawful(order) && IsWalk(order, query, stores, pages) && k < |pages|
    ensures Increasing(order, pages[k].items)
    ensures k > 0 ==> pages[k - 1].items != [] && forall i :: 0 <= i < |pages[k].items| ==>
              order.precedes(order.position(pages[k - 1].items[|pages[k - 1].items| - 1]),
                             order.position(pages[k].items[i]))
  {
    PageStartsWhereLastEnded(order, query, stores, pages, k);
    var after := StartFor(order, pages, k);
    var rows := stores[k](after, query.limit + 1);
    AdvancingIsIncreasing(order, after, rows);
    assert pages[k].items <= rows;
  }

  /** Whatever the stores answered, what a walk serves is strictly in order: no row position is
      served twice. */
  lemma {:induction false} WalkServesInOrder<T(!new), P(!new)>(
    order: Order<T, P>, query: Query, stores: seq<Fetch<T, P>>, pages: seq<Answer<T>>)
    requires query.limit >= 1 && Lawful(order) && IsWalk(order, query, stores, pages)
    ensures Increasing(order, Served(pages))
    decreases |pages|
  {
    if pages != [] {
      var k := |pages| - 1;
      var before := pages[..k];
      WalkPrefix(order, query, stores, pages);
      WalkServesInOrder(order, query, stores[..k], before);
      PageFollows(order, query, stores, pages, k);
      if k > 0 {
        assert before[|before| - 1] == pages[k - 1];
        ServedEndsWithPage(before);
        JoinIncreasing(order, Served(before), pages[k].items);
      } else {
        assert Served(before) == [] && Served(pages) == pages[k].items;
      }
    }
  }

  lemma ServedEndsWithPage<T>(pages: seq<Answer<T>>)
    requires pages != [] && forall k :: 0 <= k < |pages| ==> pages[k].Page?
    requires pages[|pages| - 1].items != []
    ensures Served(pages) != []
    ensures Served(pages)[|Served(pages)| - 1] == pages[|pages| - 1].items[|pages[|pages| - 1].items| - 1]
  {
  }

  lemma WalkPrefix<T(!new), P(!new)>(
    order: Order<T, P>, query: Query, stores: seq<Fetch<T, P>>, pages: seq<Answer<T>>)
    requires query.limit >= 1 && pages != [] && IsWalk(order, query, stores, pages)
    ensures IsWalk(order, query, stores[..|pages| - 1], pages[..|pages| - 1])
  {
    var n := |pages| - 1;
    forall k | 0 <= k < n
      ensures pages[..n][k] == Paginated(order, query, CursorFor(pages[..n], k), stores[..n][k])
    {
      assert CursorFor(pages[..n], k) == CursorFor(pages, k);
    }
  }

  lemma JoinIncreasing<T(!new), P(!new)>(order: Order<T, P>, a: seq<T>, b: seq<T>)
    requires StrictTotal(order.precedes) && a != [] && Increasing(order, a) && Increasing(order, b)
    requires forall i :: 0 <= i < |b| ==> order.precedes(order.position(a[|a| - 1]), order.position(b[i]))
    ensures Increasing(order, a + b)
  {
    var all := a + b;
    forall i, j | 0 <= i < j < |all|
      ensures order.precedes(order.position(all[i]), order.position(all[j]))
    {
      if i < |a| <= j {
        assert order.precedes(order.position(a[|a| - 1]), order.position(b[j - |a|]));
        if i < |a| - 1 { assert order.precedes(order.position(a[i]), order.position(a[|a| - 1])); }
      }
    }
  }

  // ---------------------------------------------------------------- the in-memory store

  function Before<T(!new), P(!new)>(order: Order<T, P>): (T, T) -> bool {
    (a, b) => order.precedes(order.position(a), order.position(b))
  }

  function Sorted<T(!new), P(!new)>(order: Order<T, P>, rows: seq<T>): seq<T> { Sort(rows, Before(order)) }

  function Following<T(!new), P(!new)>(order: Order<T, P>, after: Option<P>, rows: seq<T>): seq<T> {
    if rows == [] then []
    else (if after.None? || order.precedes(after.value, order.position(rows[0])) then [rows[0]] else [])
         + Following(order, after, rows[1..])
  }

  /** `_newest_after` and `_ids_after`: sort, keep what follows `after`, take at most `n`. */
  function RowsAfter<T(!new), P(!new)>(order: Order<T, P>, rows: seq<T>, after: Option<P>, n: nat): seq<T> {
    var following := Following(order, after, Sorted(order, rows));
    if |following| <= n then following else following[..n]
  }

  ghost predicate Distinct<T(!new), P(!new)>(order: Order<T, P>, rows: seq<T>) {
    forall i, j :: 0 <= i < j < |rows| ==> order.position(rows[i]) != order.position(rows[j])
  }

  lemma {:induction false} InsertKeepsOrder<T(!new), P(!new)>(order: Order<T, P>, row: T, sorted: seq<T>)
    requires StrictTotal(order.precedes) && Increasing(order, sorted)
    requires forall i :: 0 <= i < |sorted| ==> order.position(sorted[i]) != order.position(row)
    ensures Increasing(order, Insert(row, sorted, Before(order)))
    decreases |sorted|
  {
    if sorted != [] {
      var head, tail := sorted[0], sorted[1..];
      assert sorted == [head] + tail;
      if order.precedes(order.position(head), order.position(row)) {
        InsertKeepsOrder(order, row, tail);
        InsertHolds(row, tail, Before(order));
        var rest := Insert(row, tail, Before(order));
        forall i | 0 <= i < |rest|
          ensures order.precedes(order.position(head), order.position(rest[i]))
        {
          assert rest[i] in multiset(rest);
          assert rest[i] == row || rest[i] in multiset(tail);
          if rest[i] != row { var j :| 0 <= j < |tail| && tail[j] == rest[i]; assert sorted[j + 1] == rest[i]; }
        }
        assert Increasing(order, [head]);
        JoinIncreasing(order, [head], rest);
      } else {
        assert order.precedes(order.position(row), order.position(head));
        forall i | 0 <= i < |sorted|
          ensures order.precedes(order.position(row), order.position(sorted[i]))
        {
          if i > 0 { assert order.precedes(order.position(sorted[0]), order.position(sorted[i])); }
        }
        JoinIncreasing(order, [row], sorted);
      }
    }
  }

  /** Rows at distinct positions sort into the one strict order of the same rows. */
  lemma {:induction false} SortedIsOrdered<T(!new), P(!new)>(order: Order<T, P>, rows: seq<T>)
    requires StrictTotal(order.precedes) && Distinct(order, rows)
    ensures Increasing(order, Sorted(order, rows)) && multiset(Sorted(order, rows)) == multiset(rows)
    decreases |rows|
  {
    if rows != [] {
      var rest := rows[1..];
      assert rows == [rows[0]] + rest;
      SortedIsOrdered(order, rest);
      var sorted := Sorted(order, rest);
      forall i | 0 <= i < |sorted|
        ensures order.position(sorted[i]) != order.position(rows[0])
      {
        assert sorted[i] in multiset(rest);
        var j :| 0 <= j < |rest| && rest[j] == sorted[i];
        assert rows[j + 1] == sorted[i];
      }
      InsertKeepsOrder(order, rows[0], sorted);
      InsertHolds(rows[0], sorted, Before(order));
    }
  }

  lemma {:induction false} AllFollow<T(!new), P(!new)>(order: Order<T, P>, after: Option<P>, rows: seq<T>)
    requires after.Some? ==> forall i :: 0 <= i < |rows| ==> order.precedes(after.value, order.position(rows[i]))
    ensures Following(order, after, rows) == rows
    decreases |rows|
  {
    if rows != [] {
      AllFollow(order, after, rows[1..]);
      assert rows == [rows[0]] + rows[1..];
    }
  }

  /** In a strictly ordered list, what follows a position is a suffix. */
  lemma {:induction false} FollowingIsSuffix<T(!new), P(!new)>(order: Order<T, P>, after: Option<P>, rows: seq<T>)
    returns (k: nat)
    requires StrictTotal(order.precedes) && Increasing(order, rows)
    ensures k <= |rows| && Following(order, after, rows) == rows[k..]
    ensures after.Some? ==> forall i :: 0 <= i < |rows| ==>
              (order.precedes(after.value, order.position(rows[i])) <==> k <= i)
    ensures after.None? ==> k == 0
    decreases |rows|
  {
    k := 0;
    if rows != [] && after.Some? && !order.precedes(after.value, order.position(rows[0])) {
      var t := FollowingIsSuffix(order, after, rows[1..]);
      k := t + 1;
      assert rows[k..] == rows[1..][t..];
      assert forall i :: 0 < i < |rows| ==> rows[i] == rows[1..][i - 1];
    } else {
      if after.Some? {
        assert forall i :: 0 < i < |rows| ==> order.precedes(order.position(rows[0]), order.position(rows[i]));
      }
      AllFollow(order, after, rows);
      assert rows[0..] == rows;
    }
  }

  function Least(a: nat, b: nat): nat { if a < b then a else b }

  /** What the store answers is a stretch of the sorted rows. */
  lemma RowsAfterIsStretch<T(!new), P(!new)>(order: Order<T, P>, rows: seq<T>, after: Option<P>, n: nat)
    returns (k: nat)
    requires StrictTotal(order.precedes) && Distinct(order, rows)
    ensures var sorted := Sorted(order, rows);
            && Increasing(order, sorted) && multiset(sorted) == multiset(rows)
            && k <= |sorted| && RowsAfter(order, rows, after, n) == sorted[k..Least(k + n, |sorted|)]
            && (after.None? ==> k == 0)
            && (after.Some? ==> forall i :: 0 <= i < |sorted| ==>
                  (order.precedes(after.value, order.position(sorted[i])) <==> k <= i))
  {
    hide Sorted, Following, StrictTotal;
    SortedIsOrdered(order, rows);
    var sorted := Sorted(order, rows);
    k := FollowingIsSuffix(order, after, sorted);
    var rest := sorted[k..];
    if |rest| > n { assert rest[..n] == sorted[k..k + n]; }
  }

  /** The in-memory store answers the first rows after `after`, so it never trips the check. */
  lemma StoreKeepsPromise<T(!new), P(!new)>(order: Order<T, P>, rows: seq<T>, after: Option<P>, n: nat)
    requires StrictTotal(order.precedes) && Distinct(order, rows)
    ensures |RowsAfter(order, rows, after, n)| <= n
    ensures Advancing(order, after, RowsAfter(order, rows, after, n))
  {
    hide RowsAfter, Sorted;
    var k := RowsAfterIsStretch(order, rows, after, n);
    var sorted, got := Sorted(order, rows), RowsAfter(order, rows, after, n);
    forall i | 0 < i < |got|
      ensures order.precedes(order.position(got[i - 1]), order.position(got[i]))
    {
      assert got[i - 1] == sorted[k + i - 1] && got[i] == sorted[k + i];
    }
    if got != [] { assert got[0] == sorted[k]; }
  }

  /** The store as `fetch` sees it while it holds `rows`. */
  function StoreOf<T(!new), P(!new)>(order: Order<T, P>, rows: seq<T>): Fetch<T, P> {
    (after, n: nat) => RowsAfter(order, rows, after, n)
  }

  lemma StoreNeverBreaks<T(!new), P(!new)>(
    order: Order<T, P>, query: Query, cursor: Option<Cursor>, rows: seq<T>)
    requires query.limit >= 1 && Lawful(order) && Distinct(order, rows)
    ensures !Paginated(order, query, cursor, StoreOf(order, rows)).StoreBrokePromise?
  {
    var start := StartOf(order, query, cursor);
    if start.Some? { StoreKeepsPromise(order, rows, start.value, query.limit + 1); }
  }

  ghost predicate HasPosition<T(!new), P(!new)>(order: Order<T, P>, rows: seq<T>, p: P) {
    exists i :: 0 <= i < |rows| && order.position(rows[i]) == p
  }

  /** A walk over in-memory tables, `tables[k]` being the rows as page `k` was served. */
  ghost predicate IsStoreWalk<T(!new), P(!new)>(
    order: Order<T, P>, query: Query, tables: seq<seq<T>>, pages: seq<Answer<T>>)
    requires query.limit >= 1
  {
    && |tables| == |pages|
    && (forall k :: 0 <= k < |tables| ==> Distinct(order, tables[k]))
    && IsWalk(order, query, StoresOf(order, tables), pages)
  }

  ghost function StoresOf<T(!new), P(!new)>(order: Order<T, P>, tables: seq<seq<T>>): (stores: seq<Fetch<T, P>>)
    ensures |stores| == |tables|
    ensures forall k :: 0 <= k < |tables| ==> stores[k] == StoreOf(order, tables[k])
  {
    if tables == [] then [] else StoresOf(order, tables[..|tables| - 1]) + [StoreOf(order, tables[|tables| - 1])]
  }

  lemma StoreWalkPrefix<T(!new), P(!new)>(
    order: Order<T, P>, query: Query, tables: seq<seq<T>>, pages: seq<Answer<T>>)
    requires query.limit >= 1 && pages != [] && IsStoreWalk(order, query, tables, pages)
    ensures IsStoreWalk(order, query, tables[..|pages| - 1], pages[..|pages| - 1])
  {
    WalkPrefix(order, query, StoresOf(order, tables), pages);
    assert StoresOf(order, tables[..|pages| - 1]) == StoresOf(order, tables)[..|pages| - 1];
  }

  /** One page of a store walk, as a stretch of the rows it was served from, in order. */
  lemma PageIsStretch<T(!new), P(!new)>(
    order: Order<T, P>, query: Query, tables: seq<seq<T>>, pages: seq<Answer<T>>, k: nat) returns (n: nat)
    requires query.limit >= 1 && Lawful(order) && IsStoreWalk(order, query, tables, pages) && k < |pages|
    ensures var sorted := Sorted(order, tables[k]); var page := pages[k]; var after := StartFor(order, pages, k);
            && Increasing(order, sorted) && multiset(sorted) == multiset(tables[k])
            && n <= |sorted| && page.items == sorted[n..Least(n + query.limit, |sorted|)]
            && (page.next.Some? <==> n + query.limit < |sorted|)
            && (after.None? ==> n == 0)
            && (after.Some? ==> forall i :: 0 <= i < |sorted| ==>
                  (order.precedes(after.value, order.position(sorted[i])) <==> n <= i))
  {
    hide RowsAfter, Sorted, IsWalk, StrictTotal, PageOf, Increasing, StartFor;
    AllArePages(order, query, tables, pages);
    var after := StartFor(order, pages, k);
    PageStartsWhereLastEnded(order, query, StoresOf(order, tables), pages, k);
    n := RowsAfterIsStretch(order, tables[k], after, query.limit + 1);
    PageOfStretch(order, query, after, Sorted(order, tables[k]), n);
  }

  lemma PageOfStretch<T(!new), P(!new)>(order: Order<T, P>, query: Query, after: Option<P>, sorted: seq<T>, n: nat)
    requires query.limit >= 1 && n <= |sorted|
    ensures var page := PageOf(order, query, after, sorted[n..Least(n + (query.limit + 1), |sorted|)]);
            page.Page? ==> page.items == sorted[n..Least(n + query.limit, |sorted|)]
                           && (page.next.Some? <==> n + query.limit < |sorted|)
  {
    var rows := sorted[n..Least(n + (query.limit + 1), |sorted|)];
    if |rows| > query.limit { assert rows[..query.limit] == sorted[n..n + query.limit]; }
  }

  /** A row that follows a page's start is on the page, or ahead of its last row. */
  lemma RowIsServedOrAhead<T(!new), P(!new)>(
    order: Order<T, P>, query: Query, tables: seq<seq<T>>, pages: seq<Answer<T>>, k: nat, p: P)
    requires query.limit >= 1 && Lawful(order) && IsStoreWalk(order, query, tables, pages) && k < |pages|
    requires HasPosition(order, tables[k], p)
    requires StartFor(order, pages, k).Some? ==> order.precedes(StartFor(order, pages, k).value, p)
    ensures HasPosition(order, pages[k].items, p) || Ahead(order, pages[k], p)
  {
    hide Lawful, IsStoreWalk, Sorted;
    AllArePages(order, query, tables, pages);
    var n := PageIsStretch(order, query, tables, pages, k);
    var sorted, items := Sorted(order, tables[k]), pages[k].items;
    var j := FindPosition(order, tables[k], sorted, p);
    if j < n + query.limit {
      assert items[j - n] == sorted[j];
    } else {
      var last := |items| - 1;
      assert items[last] == sorted[n + last];
      assert order.precedes(order.position(sorted[n + last]), order.position(sorted[j]));
    }
  }

  ghost predicate Ahead<T(!new), P(!new)>(order: Order<T, P>, page: Answer<T>, p: P) {
    && page.Page? && page.next.Some? && page.items != []
    && order.precedes(order.position(page.items[|page.items| - 1]), p)
  }

  lemma FindPosition<T(!new), P(!new)>(order: Order<T, P>, rows: seq<T>, sorted: seq<T>, p: P) returns (j: nat)
    requires multiset(sorted) == multiset(rows) && HasPosition(order, rows, p)
    ensures j < |sorted| && order.position(sorted[j]) == p
  {
    var i :| 0 <= i < |rows| && order.position(rows[i]) == p;
    assert rows[i] in multiset(sorted);
    j :| 0 <= j < |sorted| && sorted[j] == rows[i];
  }

  lemma ServedSoFar<T(!new), P(!new)>(order: Order<T, P>, pages: seq<Answer<T>>, p: P)
    requires pages != [] && forall k :: 0 <= k < |pages| ==> pages[k].Page?
    requires HasPosition(order, Served(pages[..|pages| - 1]), p) || HasPosition(order, pages[|pages| - 1].items, p)
    ensures HasPosition(order, Served(pages), p)
  {
    var before, items := Served(pages[..|pages| - 1]), pages[|pages| - 1].items;
    if HasPosition(order, before, p) {
      var i :| 0 <= i < |before| && order.position(before[i]) == p;
      assert Served(pages)[i] == before[i];
    } else {
      var i :| 0 <= i < |items| && order.position(items[i]) == p;
      assert Served(pages)[|before| + i] == items[i];
    }
  }

  /** Rows inserted and deleted between pages: a row present at every page of a finished walk was
      served. */
  lemma {:induction false} LastingRowIsServed<T(!new), P(!new)>(
    order: Order<T, P>, query: Query, tables: seq<seq<T>>, pages: seq<Answer<T>>, p: P)
    requires query.limit >= 1 && Lawful(order) && IsStoreWalk(order, query, tables, pages) && pages != []
    requires forall k :: 0 <= k < |tables| ==> HasPosition(order, tables[k], p)
    ensures HasPosition(order, Served(pages), p) || Ahead(order, pages[|pages| - 1], p)
    ensures Finished(pages) ==> HasPosition(order, Served(pages), p)
    decreases |pages|
  {
    hide Lawful, IsWalk, HasPosition;
    var k := |pages| - 1;
    var before := pages[..k];
    if k > 0 {
      StoreWalkPrefix(order, query, tables, pages);
      assert before[|before| - 1] == pages[k - 1];
      LastingRowIsServed(order, query, tables[..k], before, p);
    }
    AllArePages(order, query, tables, pages);
    if k > 0 && HasPosition(order, Served(before), p) {
      ServedSoFar(order, pages, p);
    } else {
      RowIsServedOrAhead(order, query, tables, pages, k, p);
      if HasPosition(order, pages[k].items, p) { ServedSoFar(order, pages, p); }
    }
  }

  lemma AllArePages<T(!new), P(!new)>(
    order: Order<T, P>, query: Query, tables: seq<seq<T>>, pages: seq<Answer<T>>)
    requires query.limit >= 1 && IsStoreWalk(order, query, tables, pages)
    ensures |tables| == |pages| && forall k :: 0 <= k < |pages| ==> pages[k].Page?
  {
  }

  /** An unchanged store: a finished walk serves every row exactly once, in order, and a walk that
      goes on has served one full page a step, so it does finish. */
  lemma {:induction false} UnchangedStoreIsServedWhole<T(!new), P(!new)>(
    order: Order<T, P>, query: Query, rows: seq<T>, tables: seq<seq<T>>, pages: seq<Answer<T>>)
    requires query.limit >= 1 && Lawful(order) && pages != []
    requires IsStoreWalk(order, query, tables, pages) && forall k :: 0 <= k < |tables| ==> tables[k] == rows
    ensures multiset(Sorted(order, rows)) == multiset(rows) && Increasing(order, Sorted(order, rows))
    ensures Served(pages) <= Sorted(order, rows)
    ensures Finished(pages) ==> Served(pages) == Sorted(order, rows)
    ensures !Finished(pages) ==> |Served(pages)| == |pages| * query.limit < |rows|
    decreases |pages|
  {
    hide IsStoreWalk, Sorted, Lawful, Served, Increasing;
    AllArePages(order, query, tables, pages);
    var k := |pages| - 1;
    var before := pages[..k];
    var sorted := Sorted(order, rows);
    var n := PageIsStretch(order, query, tables, pages, k);
    assert |sorted| == |multiset(sorted)| == |rows|;
    if k > 0 {
      StoreWalkPrefix(order, query, tables, pages);
      assert before[|before| - 1] == pages[k - 1];
      UnchangedStoreIsServedWhole(order, query, rows, tables[..k], before);
      PageAfterServed(order, query, tables, pages, sorted, n);
    }
    StretchesJoin(pages, sorted, n, query.limit);
    assert (k + 1) * query.limit == k * query.limit + query.limit;
  }

  lemma StretchesJoin<T>(pages: seq<Answer<T>>, sorted: seq<T>, n: nat, limit: nat)
    requires pages != [] && forall k :: 0 <= k < |pages| ==> pages[k].Page?
    requires n <= |sorted| && pages[|pages| - 1].items == sorted[n..Least(n + limit, |sorted|)]
    requires if |pages| == 1 then n == 0 else Served(pages[..|pages| - 1]) == sorted[..n]
    ensures Served(pages) == sorted[..Least(n + limit, |sorted|)]
  {
    var before := Served(pages[..|pages| - 1]);
    assert before == sorted[..n];
    assert Served(pages) == before + pages[|pages| - 1].items;
    assert sorted[..n] + sorted[n..Least(n + limit, |sorted|)] == sorted[..Least(n + limit, |sorted|)];
  }

  /** The next page's stretch starts right where what was served ends. */
  lemma PageAfterServed<T(!new), P(!new)>(
    order: Order<T, P>, query: Query, tables: seq<seq<T>>, pages: seq<Answer<T>>, sorted: seq<T>, n: nat)
    requires query.limit >= 1 && Lawful(order) && IsStoreWalk(order, query, tables, pages) && |pages| > 1
    requires Increasing(order, sorted) && n <= |sorted| && Served(pages[..|pages| - 1]) <= sorted
    requires var after := StartFor(order, pages, |pages| - 1);
             after.Some? ==> forall i :: 0 <= i < |sorted| ==>
               (order.precedes(after.value, order.position(sorted[i])) <==> n <= i)
    ensures pages[|pages| - 2].next.Some? && n == |Served(pages[..|pages| - 1])|
  {
    hide Increasing, StrictTotal, PageOf, Served;
    var k := |pages| - 1;
    var before := pages[..k];
    PageStartsWhereLastEnded(order, query, StoresOf(order, tables), pages, k);
    assert before[|before| - 1] == pages[k - 1];
    ServedEndsWithPage(before);
    var m := |Served(before)|;
    assert sorted[m - 1] == Served(before)[m - 1];
    CutIsAfter(order, sorted, m, n);
  }

  /** What comes strictly after the `m`-th row starts right after it. */
  lemma CutIsAfter<T(!new), P(!new)>(order: Order<T, P>, sorted: seq<T>, m: nat, n: nat)
    requires StrictTotal(order.precedes) && Increasing(order, sorted) && 0 < m <= |sorted| && n <= |sorted|
    requires forall i :: 0 <= i < |sorted| ==>
               (order.precedes(order.position(sorted[m - 1]), order.position(sorted[i])) <==> n <= i)
    ensures n == m
  {
    assert !order.precedes(order.position(sorted[m - 1]), order.position(sorted[m - 1]));
    if m < |sorted| { assert order.precedes(order.position(sorted[m - 1]), order.position(sorted[m])); }
  }

  /** Newest first: each row served is later than every row after it, or of the same moment with the
      greater id. */
  lemma NewestAreServedFirst<T(!new)>(
    at: T -> int, ident: T -> string, query: Query, stores: seq<Fetch<T, (int, string)>>, pages: seq<Answer<T>>)
    requires query.limit >= 1 && IsWalk(NewestFirst(at, ident), query, stores, pages)
    ensures var served := Served(pages);
            forall i, j :: 0 <= i < j < |served| ==>
              at(served[i]) > at(served[j])
              || (at(served[i]) == at(served[j]) && TextLess(ident(served[j]), ident(served[i])))
  {
    NewestFirstIsLawful(at, ident);
    WalkServesInOrder(NewestFirst(at, ident), query, stores, pages);
  }

  /** By id: each row's id is less than every later one's. */
  lemma IdsAreServedInOrder<T(!new)>(
    ident: T -> string, query: Query, stores: seq<Fetch<T, string>>, pages: seq<Answer<T>>)
    requires query.limit >= 1 && IsWalk(OrderedById(ident), query, stores, pages)
    ensures var served := Served(pages);
            forall i, j :: 0 <= i < j < |served| ==> TextLess(ident(served[i]), ident(served[j]))
  {
    OrderedByIdIsLawful(ident);
    WalkServesInOrder(OrderedById(ident), query, stores, pages);
  }

  // ---------------------------------------------------------------- tenant-keyed tables

  datatype Slot<+T> = Slot(tenant: string, id: string, row: T)

  /** A table's keys are distinct, and each row carries the id it is keyed by. */
  ghost predicate WellKeyed<T(!new)>(table: seq<Slot<T>>, ident: T -> string) {
    && (forall i, j :: 0 <= i < j < |table| ==>
          (table[i].tenant, table[i].id) != (table[j].tenant, table[j].id))
    && forall i :: 0 <= i < |table| ==> ident(table[i].row) == table[i].id
  }

  /** `_Table.of`. */
  function RowsOf<T>(table: seq<Slot<T>>, tenant: string): seq<T> {
    if table == [] then []
    else (if table[0].tenant == tenant then [table[0].row] else []) + RowsOf(table[1..], tenant)
  }

  ghost predicate Holds<T>(table: seq<Slot<T>>, slot: Slot<T>) {
    exists k :: 0 <= k < |table| && table[k] == slot
  }

  lemma {:induction false} TenantRowsHaveDistinctIds<T(!new)>(table: seq<Slot<T>>, ident: T -> string, tenant: string)
    requires WellKeyed(table, ident)
    ensures forall i, j :: 0 <= i < j < |RowsOf(table, tenant)| ==>
              ident(RowsOf(table, tenant)[i]) != ident(RowsOf(table, tenant)[j])
    ensures forall i :: 0 <= i < |RowsOf(table, tenant)| ==>
              Holds(table, Slot(tenant, ident(RowsOf(table, tenant)[i]), RowsOf(table, tenant)[i]))
    decreases |table|
  {
    if table != [] {
      var head, tail := table[0], table[1..];
      var rest, all := RowsOf(tail, tenant), RowsOf(table, tenant);
      TenantRowsHaveDistinctIds(tail, ident, tenant);
      var shift := |all| - |rest|;
      forall i | 0 <= i < |all|
        ensures Holds(table, Slot(tenant, ident(all[i]), all[i]))
      {
        if i < shift {
          assert table[0] == Slot(tenant, ident(all[i]), all[i]);
        } else {
          assert all[i] == rest[i - shift];
          var k :| 0 <= k < |tail| && tail[k] == Slot(tenant, ident(all[i]), all[i]);
          assert table[k + 1] == tail[k];
        }
      }
      forall i, j | 0 <= i < j < |all|
        ensures ident(all[i]) != ident(all[j])
      {
        assert all[j] == rest[j - shift];
        assert Holds(tail, Slot(tenant, ident(rest[j - shift]), rest[j - shift]));
        var k :| 0 <= k < |tail| && tail[k] == Slot(tenant, ident(rest[j - shift]), rest[j - shift]);
        assert table[k + 1] == tail[k];
        if i >= shift { assert all[i] == rest[i - shift]; }
      }
    }
  }

  /** None of the tenant's rows is missing. */
  lemma {:induction false} TenantRowsAreAllThere<T(!new)>(table: seq<Slot<T>>, tenant: string, slot: Slot<T>)
    requires Holds(table, slot) && slot.tenant == tenant
    ensures slot.row in RowsOf(table, tenant)
    decreases |table|
  {
    if table[0] != slot {
      var k :| 0 <= k < |table| && table[k] == slot;
      assert table[1..][k - 1] == slot;
      TenantRowsAreAllThere(table[1..], tenant, slot);
    }
  }

  /** So both list orders see a tenant's rows at distinct positions, and its lists never break. */
  lemma TenantListsNeverBreak<T(!new)>(
    table: seq<Slot<T>>, at: T -> int, ident: T -> string, query: Query, cursor: Option<Cursor>)
    requires query.limit >= 1 && WellKeyed(table, ident)
    ensures var rows := RowsOf(table, query.tenant);
            var newest, byId := NewestFirst(at, ident), OrderedById(ident);
            && !Paginated(newest, query, cursor, StoreOf(newest, rows)).StoreBrokePromise?
            && !Paginated(byId, query, cursor, StoreOf(byId, rows)).StoreBrokePromise?
  {
    var rows := RowsOf(table, query.tenant);
    TenantRowsHaveDistinctIds(table, ident, query.tenant);
    NewestFirstIsLawful(at, ident);
    OrderedByIdIsLawful(ident);
    StoreNeverBreaks(NewestFirst(at, ident), query, cursor, rows);
    StoreNeverBreaks(OrderedById(ident), query, cursor, rows);
  }

  /** `_Table`: rows keyed by tenant and the id they carry, as the store's writes leave it. */
  class Table<T(!new)> {
    const ident: T -> string
    var slots: seq<Slot<T>>

    ghost predicate Valid()
      reads this
    {
      WellKeyed(slots, ident)
    }

    constructor (ident: T -> string)
      ensures Valid() && slots == [] && this.ident == ident
    {
      this.ident, slots := ident, [];
    }

    /** Assign a row to its key: over the one there, or at the end. */
    method Put(tenant: string, row: T)
      requires Valid()
      modifies this
      ensures Valid()
      ensures forall slot :: Holds(slots, slot) <==>
                slot == Slot(tenant, ident(row), row)
                || (Holds(old(slots), slot) && !(slot.tenant == tenant && slot.id == ident(row)))
    {
      var put := Slot(tenant, ident(row), row);
      for k := 0 to |slots|
        invariant slots == old(slots) && Valid()
        invariant forall j :: 0 <= j < k ==> !(slots[j].tenant == tenant && slots[j].id == put.id)
      {
        if slots[k].tenant == tenant && slots[k].id == put.id {
          slots := slots[k := put];
          PutOver(old(slots), slots, k, put);
          return;
        }
      }
      slots := slots + [put];
      PutAtEnd(old(slots), slots, put);
    }

    /** Take a key's row out. */
    method Remove(tenant: string, id: string)
      requires Valid()
      modifies this
      ensures Valid()
      ensures forall slot ::
                Holds(slots, slot) <==> Holds(old(slots), slot) && !(slot.tenant == tenant && slot.id == id)
    {
      for k := 0 to |slots|
        invariant slots == old(slots) && Valid()
        invariant forall j :: 0 <= j < k ==> !(slots[j].tenant == tenant && slots[j].id == id)
      {
        if slots[k].tenant == tenant && slots[k].id == id {
          slots := slots[..k] + slots[k + 1..];
          TakenOut(old(slots), slots, k);
          return;
        }
      }
    }
  }

  lemma PutOver<T(!new)>(was: seq<Slot<T>>, now: seq<Slot<T>>, k: nat, put: Slot<T>)
    requires k < |was| && now == was[k := put] && was[k].tenant == put.tenant && was[k].id == put.id
    requires forall i, j :: 0 <= i < j < |was| ==> (was[i].tenant, was[i].id) != (was[j].tenant, was[j].id)
    ensures forall slot :: Holds(now, slot) <==>
              slot == put || (Holds(was, slot) && !(slot.tenant == put.tenant && slot.id == put.id))
  {
    assert now[k] == put;
    forall slot | Holds(was, slot) && !(slot.tenant == put.tenant && slot.id == put.id) ensures Holds(now, slot) {
      var i :| 0 <= i < |was| && was[i] == slot;
      assert now[i] == slot;
    }
    forall slot | Holds(now, slot) && slot != put
      ensures Holds(was, slot) && !(slot.tenant == put.tenant && slot.id == put.id)
    {
      var i :| 0 <= i < |now| && now[i] == slot;
      assert was[i] == slot && i != k;
    }
  }

  lemma PutAtEnd<T(!new)>(was: seq<Slot<T>>, now: seq<Slot<T>>, put: Slot<T>)
    requires now == was + [put] && forall j :: 0 <= j < |was| ==> !(was[j].tenant == put.tenant && was[j].id == put.id)
    ensures forall slot :: Holds(now, slot) <==>
              slot == put || (Holds(was, slot) && !(slot.tenant == put.tenant && slot.id == put.id))
  {
    assert now[|was|] == put;
    forall slot | Holds(was, slot) ensures Holds(now, slot) {
      var i :| 0 <= i < |was| && was[i] == slot;
      assert now[i] == slot;
    }
    forall slot | Holds(now, slot) && slot != put ensures Holds(was, slot) {
      var i :| 0 <= i < |now| && now[i] == slot;
      assert was[i] == slot;
    }
  }

  lemma TakenOut<T(!new)>(was: seq<Slot<T>>, now: seq<Slot<T>>, k: nat)
    requires k < |was| && now == was[..k] + was[k + 1..]
    requires forall i, j :: 0 <= i < j < |was| ==> (was[i].tenant, was[i].id) != (was[j].tenant, was[j].id)
    ensures forall slot :: Holds(now, slot) <==>
              Holds(was, slot) && !(slot.tenant == was[k].tenant && slot.id == was[k].id)
  {
    forall slot | Holds(was, slot) && !(slot.tenant == was[k].tenant && slot.id == was[k].id) ensures Holds(now, slot) {
      var i :| 0 <= i < |was| && was[i] == slot;
      assert now[if i < k then i else i - 1] == slot;
    }
    forall slot | Holds(now, slot) ensures Holds(was, slot) && !(slot.tenant == was[k].tenant && slot.id == was[k].id) {
      var i :| 0 <= i < |now| && now[i] == slot;
      assert was[if i < k then i else i + 1] == slot;
    }
  }
}
