/** Keyset paging over a set of rows: queries in a total order, and what following their cursors lists. */
module Keyset {
  import opened Wrappers

  /** A strict total order. */
  ghost predicate TotalOrder<T(!new)>(less: (T, T) -> bool) {
    && (forall a :: !less(a, a))
    && (forall a, b, c :: less(a, b) && less(b, c) ==> less(a, c))
    && (forall a, b :: a == b || less(a, b) || less(b, a))
  }

  ghost predicate Ascending<T(!new)>(less: (T, T) -> bool, rows: seq<T>) {
    forall i, j | 0 <= i < j < |rows| :: less(rows[i], rows[j])
  }

  /** The rows that satisfy a condition, in order: what a query answers before its limit applies. */
  ghost predicate Lists<T(!new)>(less: (T, T) -> bool, rows: set<T>, condition: T -> bool, listing: seq<T>) {
    Ascending(less, listing) && (forall row :: row in listing <==> row in rows && condition(row))
  }

  ghost function Limited<T>(listing: seq<T>, limit: nat): (page: seq<T>)
    ensures |page| <= limit && page <= listing
  {
    if |listing| <= limit then listing else listing[..limit]
  }

  /** A query has one answer. */
  lemma {:induction false} OneListing<T(!new)>(less: (T, T) -> bool, rows: set<T>, condition: T -> bool, some: seq<T>,
                                               others: seq<T>)
    requires TotalOrder(less) && Lists(less, rows, condition, some) && Lists(less, rows, condition, others)
    ensures some == others
  {
    SameElements(less, some, others);
  }

  lemma {:induction false} SameElements<T(!new)>(less: (T, T) -> bool, some: seq<T>, others: seq<T>)
    requires TotalOrder(less) && Ascending(less, some) && Ascending(less, others)
    requires forall row :: row in some <==> row in others
    ensures some == others
  {
    assert others == [] || others[0] in others;
    if some != [] {
      assert some[0] in others;
      FirstIsLeast(less, some);
      FirstIsLeast(less, others);
      assert others[0] in others && some[0] in some;
      assert some[0] == others[0];
      TailIsRest(less, some);
      TailIsRest(less, others);
      SameElements(less, some[1..], others[1..]);
      assert some == [some[0]] + some[1..] && others == [others[0]] + others[1..];
    }
  }

  lemma FirstIsLeast<T(!new)>(less: (T, T) -> bool, rows: seq<T>)
    requires Ascending(less, rows) && rows != []
    ensures forall row <- rows :: row == rows[0] || less(rows[0], row)
  {
    forall row <- rows ensures row == rows[0] || less(rows[0], row) {
      var i :| 0 <= i < |rows| && rows[i] == row;
    }
  }

  lemma TailIsRest<T(!new)>(less: (T, T) -> bool, rows: seq<T>)
    requires TotalOrder(less) && Ascending(less, rows) && rows != []
    ensures Ascending(less, rows[1..])
    ensures forall row :: row in rows[1..] <==> row in rows && row != rows[0]
  {
    forall row ensures row in rows[1..] <==> row in rows && row != rows[0] {
      if row in rows && row != rows[0] {
        var i :| 0 <= i < |rows| && rows[i] == row;
        assert rows[1..][i - 1] == row;
      }
      if row in rows[1..] {
        var i :| 0 <= i < |rows[1..]| && rows[1..][i] == row;
        assert rows[i + 1] == row && less(rows[0], rows[i + 1]);
      }
    }
  }

  /** Rows strictly after the `n`th of a listing are the rest of the listing. */
  lemma AfterIsSuffix<T(!new)>(less: (T, T) -> bool, rows: set<T>, condition: T -> bool, listing: seq<T>, n: nat,
                               beyond: T -> bool)
    requires TotalOrder(less) && Lists(less, rows, condition, listing) && n < |listing|
    requires forall row :: beyond(row) <==> condition(row) && less(listing[n], row)
    ensures Lists(less, rows, beyond, listing[n + 1..])
  {
    var rest := listing[n + 1..];
    forall row ensures row in rest <==> row in rows && beyond(row) {
      if row in rest {
        var i :| 0 <= i < |rest| && rest[i] == row;
        assert listing[n + 1 + i] == row;
      }
      if row in rows && beyond(row) {
        var i :| 0 <= i < |listing| && listing[i] == row;
        assert i > n;
        assert rest[i - n - 1] == row;
      }
    }
  }

  /**
   * The pages of a listing, one after another: each but the first asks for what comes strictly after
   * the last row of the page before, until a page comes back short of the limit.
   */
  ghost function Pages<T>(listing: seq<T>, limit: nat): (pages: seq<seq<T>>)
    requires limit > 0
    decreases |listing|
  {
    if |listing| <= limit then [listing] else [listing[..limit]] + Pages(listing[limit..], limit)
  }

  ghost function Flattened<T>(pages: seq<seq<T>>): seq<T> {
    if pages == [] then [] else pages[0] + Flattened(pages[1..])
  }

  ghost function TotalLength<T>(pages: seq<seq<T>>): nat {
    if pages == [] then 0 else |pages[0]| + TotalLength(pages[1..])
  }

  lemma {:induction false} PagesConcatenate<T(!new)>(listing: seq<T>, limit: nat)
    requires limit > 0
    ensures Flattened(Pages(listing, limit)) == listing
    ensures TotalLength(Pages(listing, limit)) == |listing|
    decreases |listing|
  {
    if |listing| <= limit {
      assert Flattened([listing]) == listing + Flattened([]);
      assert [listing][1..] == [];
    } else {
      PagesConcatenate(listing[limit..], limit);
      assert Pages(listing, limit)[1..] == Pages(listing[limit..], limit);
      assert listing[..limit] + listing[limit..] == listing;
    }
  }

  /** How many pages of at most `limit` rows hold `n` rows; an empty listing takes one page too. */
  function Needed(n: nat, limit: nat): nat
    requires limit > 0
  {
    if n <= limit then 1 else 1 + Needed(n - limit, limit)
  }

  lemma {:induction false} PageCount<T(!new)>(listing: seq<T>, limit: nat)
    requires limit > 0
    ensures |Pages(listing, limit)| == Needed(|listing|, limit)
    decreases |listing|
  {
    if |listing| > limit { PageCount(listing[limit..], limit); }
  }

  // ------------------------------------------------------------ following cursors

  /** What a page that starts after `cursor` may show. */
  ghost predicate Beyond<T(!new)>(less: (T, T) -> bool, visible: T -> bool, cursor: Option<T>, row: T) {
    visible(row) && (cursor.Some? ==> less(cursor.value, row))
  }

  /** The first `limit` rows beyond the cursor, and whether there are more. */
  ghost predicate IsPage<T(!new)>(less: (T, T) -> bool, rows: set<T>, visible: T -> bool, cursor: Option<T>, limit: nat,
                                  page: seq<T>, more: bool)
  {
    exists listing ::
      && Lists(less, rows, row => Beyond(less, visible, cursor, row), listing)
      && page == Limited(listing, limit) && more == (|listing| > limit)
  }

  /** Pages from a cursor on, each asked for with the last row of the page before, until there are no more. */
  ghost predicate IsWalk<T(!new)>(less: (T, T) -> bool, rows: set<T>, visible: T -> bool, cursor: Option<T>,
                                  limit: nat, pages: seq<seq<T>>)
    decreases |pages|
  {
    && pages != []
    && if |pages| == 1 then IsPage(less, rows, visible, cursor, limit, pages[0], false)
       else
         && pages[0] != [] && IsPage(less, rows, visible, cursor, limit, pages[0], true)
         && IsWalk(less, rows, visible, Some(pages[0][|pages[0]| - 1]), limit, pages[1..])
  }

  /** A walk from the `n`th row on consists of the pages of the rest of the listing. */
  lemma {:induction false} WalkFrom<T(!new)>(less: (T, T) -> bool, rows: set<T>, visible: T -> bool, all: seq<T>,
                                             n: nat, cursor: Option<T>, limit: nat, pages: seq<seq<T>>)
    requires TotalOrder(less) && Lists(less, rows, visible, all) && limit > 0 && n <= |all|
    requires if n == 0 then cursor == None else cursor == Some(all[n - 1])
    requires IsWalk(less, rows, visible, cursor, limit, pages)
    ensures pages == Pages(all[n..], limit)
    decreases |pages|
  {
    hide TotalOrder, Lists, IsPage;
    PageFrom(less, rows, visible, all, n, cursor, limit, pages[0], |pages| > 1);
    if |pages| == 1 {
      assert pages == [pages[0]];
    } else {
      var m := n + limit;
      assert pages[0] == all[n..m] && pages[0][limit - 1] == all[m - 1];
      WalkFrom(less, rows, visible, all, m, Some(all[m - 1]), limit, pages[1..]);
      assert all[n..][limit..] == all[m..] && all[n..][..limit] == pages[0];
      assert pages == [pages[0]] + pages[1..];
    }
  }

  lemma PageFrom<T(!new)>(less: (T, T) -> bool, rows: set<T>, visible: T -> bool, all: seq<T>, n: nat,
                          cursor: Option<T>, limit: nat, page: seq<T>, more: bool)
    requires TotalOrder(less) && Lists(less, rows, visible, all) && limit > 0 && n <= |all|
    requires if n == 0 then cursor == None else cursor == Some(all[n - 1])
    requires IsPage(less, rows, visible, cursor, limit, page, more)
    ensures page == Limited(all[n..], limit) && more == (|all[n..]| > limit)
  {
    hide TotalOrder, Ascending;
    var beyond := row => Beyond(less, visible, cursor, row);
    var listing :| Lists(less, rows, beyond, listing) && page == Limited(listing, limit) && more == (|listing| > limit);
    RestLists(less, rows, visible, all, n, cursor);
    OneListing(less, rows, beyond, listing, all[n..]);
  }

  lemma RestLists<T(!new)>(less: (T, T) -> bool, rows: set<T>, visible: T -> bool, all: seq<T>, n: nat,
                           cursor: Option<T>)
    requires TotalOrder(less) && Lists(less, rows, visible, all) && n <= |all|
    requires if n == 0 then cursor == None else cursor == Some(all[n - 1])
    ensures Lists(less, rows, row => Beyond(less, visible, cursor, row), all[n..])
  {
    hide TotalOrder;
    var beyond := row => Beyond(less, visible, cursor, row);
    if n == 0 {
      assert all[0..] == all;
    } else {
      AfterIsSuffix(less, rows, visible, all, n - 1, beyond);
    }
  }

  lemma {:induction false} WalkExists<T(!new)>(less: (T, T) -> bool, rows: set<T>, visible: T -> bool, all: seq<T>,
                                               n: nat, cursor: Option<T>, limit: nat)
    requires TotalOrder(less) && Lists(less, rows, visible, all) && limit > 0 && n <= |all|
    requires if n == 0 then cursor == None else cursor == Some(all[n - 1])
    ensures IsWalk(less, rows, visible, cursor, limit, Pages(all[n..], limit))
    decreases |all| - n
  {
    hide TotalOrder, Lists;
    RestLists(less, rows, visible, all, n, cursor);
    var pages := Pages(all[n..], limit);
    assert pages[0] == Limited(all[n..], limit);
    assert IsPage(less, rows, visible, cursor, limit, Limited(all[n..], limit), |all[n..]| > limit);
    if |all[n..]| > limit {
      var m := n + limit;
      WalkExists(less, rows, visible, all, m, Some(all[m - 1]), limit);
      assert all[n..][limit..] == all[m..] && all[n..][..limit] == all[n..m];
      assert pages[0][|pages[0]| - 1] == all[m - 1] && pages[1..] == Pages(all[m..], limit);
    }
  }

  /**
   * Following the cursors from the first page on ends; it lists every visible row exactly once, in
   * order, on as many pages as the rows need, and at least one.
   */
  lemma FollowingListsAll<T(!new)>(less: (T, T) -> bool, rows: set<T>, visible: T -> bool, all: seq<T>, limit: nat)
    requires TotalOrder(less) && Lists(less, rows, visible, all) && limit > 0
    ensures exists pages :: IsWalk(less, rows, visible, None, limit, pages)
    ensures forall pages | IsWalk(less, rows, visible, None, limit, pages) ::
      && Flattened(pages) == all && TotalLength(pages) == |all|
      && |pages| == Needed(|all|, limit)
  {
    hide TotalOrder, Lists, IsWalk, Pages, Flattened, TotalLength;
    assert all[0..] == all;
    WalkExists(less, rows, visible, all, 0, None, limit);
    forall pages | IsWalk(less, rows, visible, None, limit, pages)
      ensures Flattened(pages) == all && TotalLength(pages) == |all|
      ensures |pages| == Needed(|all|, limit)
    {
      WalkFrom(less, rows, visible, all, 0, None, limit, pages);
      PagesConcatenate(all, limit);
      PageCount(all, limit);
    }
  }
}
