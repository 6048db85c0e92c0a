/** The items of a collection, paged in both directions with SQL predicates over nullable positions. */
module CollectionPager {
  import opened Wrappers
  import opened Keyset

  /**
   * An item of a collection with its position, and at once the cursor that names it; UUIDs are
   * ordered like integers.
   */
  datatype Item = Item(position: Option<int>, id: int)

  // ------------------------------------------------------------ three-valued logic

  datatype Truth = True | False | Null

  function And(a: Truth, b: Truth): Truth {
    if a == False || b == False then False else if a == Null || b == Null then Null else True
  }

  function Or(a: Truth, b: Truth): Truth {
    if a == True || b == True then True else if a == Null || b == Null then Null else False
  }

  /** What is unknown stays unknown unless the other side decides. */
  lemma UnknownInWords(a: Truth, b: Truth)
    ensures And(a, b) == Null <==> (a == Null || b == Null) && a != False && b != False
    ensures Or(a, b) == Null <==> (a == Null || b == Null) && a != True && b != True
    ensures (And(a, b) == True <==> a == True && b == True) && (Or(a, b) == True <==> a == True || b == True)
  {
  }

  function Of(b: bool): Truth { if b then True else False }

  function Greater(a: Option<int>, b: Option<int>): Truth {
    if a.None? || b.None? then Null else Of(a.value > b.value)
  }

  function Less(a: Option<int>, b: Option<int>): Truth { Greater(b, a) }

  function Equal(a: Option<int>, b: Option<int>): Truth {
    if a.None? || b.None? then Null else Of(a.value == b.value)
  }

  function IsNull(a: Option<int>): Truth { Of(a.None?) }

  function IsNotNull(a: Option<int>): Truth { Of(a.Some?) }

  // ------------------------------------------------------------ the predicate

  function AfterPredicate(row: Item, after: Item): Truth {
    if after.position.None? then And(IsNull(row.position), Greater(Some(row.id), Some(after.id)))
    else
      Or(Or(Greater(row.position, after.position),
            And(Equal(row.position, after.position), Greater(Some(row.id), Some(after.id)))),
         IsNull(row.position))
  }

  function BeforePredicate(row: Item, before: Item): Truth {
    if before.position.None? then
      Or(IsNotNull(row.position), And(IsNull(row.position), Less(Some(row.id), Some(before.id))))
    else
      Or(Less(row.position, before.position),
         And(Equal(row.position, before.position), Less(Some(row.id), Some(before.id))))
  }

  /** The conjunction of the conditions that apply; without any, every row passes. */
  function CursorPredicate(row: Item, before: Option<Item>, after: Option<Item>): Truth {
    And(if after.None? then True else AfterPredicate(row, after.value),
        if before.None? then True else BeforePredicate(row, before.value))
  }

  /** `ORDER BY position ASC, id ASC`, where nulls come last. */
  predicate Precedes(a: Item, b: Item) {
    if a.position.Some? && b.position.Some? then
      a.position.value < b.position.value || (a.position.value == b.position.value && a.id < b.id)
    else if a.position.None? && b.position.None? then a.id < b.id
    else b.position.None?
  }

  /** `ORDER BY position DESC, id DESC`, where nulls come first. */
  predicate Follows(a: Item, b: Item) {
    if a.position.Some? && b.position.Some? then
      a.position.value > b.position.value || (a.position.value == b.position.value && a.id > b.id)
    else if a.position.None? && b.position.None? then a.id > b.id
    else a.position.None?
  }

  function OrderBy(inverted: bool): (Item, Item) -> bool {
    if inverted then Follows else Precedes
  }

  /** A row passes exactly when it lies strictly between the cursors in the total order of the page. */
  lemma PredicateIsStrictlyBetween(row: Item, before: Option<Item>, after: Option<Item>)
    ensures CursorPredicate(row, before, after) == True
       <==> (after.Some? ==> Precedes(after.value, row)) && (before.Some? ==> Precedes(row, before.value))
  {
  }

  lemma OrdersAreTotal(inverted: bool)
    ensures TotalOrder(OrderBy(inverted))
    ensures forall a, b :: Follows(a, b) <==> Precedes(b, a)
  {
  }

  // ------------------------------------------------------------ queries

  /** What `items` asks the table for: visible rows that pass the cursors, ordered, at most `limit`. */
  ghost predicate IsQuery(table: set<Item>, visible: Item -> bool, before: Option<Item>, after: Option<Item>,
                          inverted: bool, limit: nat, fetched: seq<Item>, more: bool)
  {
    exists listing ::
      && Lists(OrderBy(inverted), table, row => visible(row) && CursorPredicate(row, before, after) == True, listing)
      && fetched == Limited(listing, limit) && more == (|listing| > limit)
  }

  lemma SameCondition<T(!new)>(less: (T, T) -> bool, rows: set<T>, some: T -> bool, other: T -> bool, listing: seq<T>)
    requires Lists(less, rows, some, listing) && forall row :: some(row) <==> other(row)
    ensures Lists(less, rows, other, listing)
  {
  }

  /** A forward query is the page strictly after its cursor. */
  lemma ForwardQueryIsPage(table: set<Item>, visible: Item -> bool, after: Option<Item>, limit: nat,
                           fetched: seq<Item>, more: bool)
    requires IsQuery(table, visible, None, after, false, limit, fetched, more)
    ensures IsPage(OrderBy(false), table, visible, after, limit, fetched, more)
  {
    var asked := (row: Item) => visible(row) && CursorPredicate(row, None, after) == True;
    var listing :| Lists(OrderBy(false), table, asked, listing) && fetched == Limited(listing, limit)
      && more == (|listing| > limit);
    forall row ensures asked(row) <==> Beyond(OrderBy(false), visible, after, row) {
      PredicateIsStrictlyBetween(row, None, after);
    }
    SameCondition(OrderBy(false), table, asked, row => Beyond(OrderBy(false), visible, after, row), listing);
  }

  /** An inverted query is the page strictly after its cursor in the opposite order. */
  lemma InvertedQueryIsPage(table: set<Item>, visible: Item -> bool, before: Option<Item>, limit: nat,
                            fetched: seq<Item>, more: bool)
    requires IsQuery(table, visible, before, None, true, limit, fetched, more)
    ensures IsPage(OrderBy(true), table, visible, before, limit, fetched, more)
  {
    OrdersAreTotal(true);
    var asked := (row: Item) => visible(row) && CursorPredicate(row, before, None) == True;
    var listing :| Lists(OrderBy(true), table, asked, listing) && fetched == Limited(listing, limit)
      && more == (|listing| > limit);
    forall row ensures asked(row) <==> Beyond(OrderBy(true), visible, before, row) {
      PredicateIsStrictlyBetween(row, before, None);
    }
    SameCondition(OrderBy(true), table, asked, row => Beyond(OrderBy(true), visible, before, row), listing);
  }

  // ------------------------------------------------------------ paging through

  /** Pages fetched one after another from one end, the cursor of each naming the last row fetched before. */
  ghost predicate IsPaging(table: set<Item>, visible: Item -> bool, inverted: bool, cursor: Option<Item>, limit: nat,
                           pages: seq<seq<Item>>)
    decreases |pages|
  {
    && pages != []
    && IsQuery(table, visible, if inverted then cursor else None, if inverted then None else cursor, inverted, limit,
               pages[0], |pages| > 1)
    && (|pages| > 1 ==>
          pages[0] != [] && IsPaging(table, visible, inverted, Some(pages[0][|pages[0]| - 1]), limit, pages[1..]))
  }

  lemma {:induction false} PagingIsWalk(table: set<Item>, visible: Item -> bool, inverted: bool, cursor: Option<Item>,
                                        limit: nat, pages: seq<seq<Item>>)
    requires IsPaging(table, visible, inverted, cursor, limit, pages)
    ensures IsWalk(OrderBy(inverted), table, visible, cursor, limit, pages)
    decreases |pages|
  {
    hide IsQuery, IsPage;
    if inverted {
      InvertedQueryIsPage(table, visible, cursor, limit, pages[0], |pages| > 1);
    } else {
      ForwardQueryIsPage(table, visible, cursor, limit, pages[0], |pages| > 1);
    }
    if |pages| > 1 { PagingIsWalk(table, visible, inverted, Some(pages[0][|pages[0]| - 1]), limit, pages[1..]); }
  }

  /** Conversely, the pages of the total order are what the queries answer. */
  lemma PageIsQuery(table: set<Item>, visible: Item -> bool, cursor: Option<Item>, inverted: bool, limit: nat,
                    page: seq<Item>, more: bool)
    requires IsPage(OrderBy(inverted), table, visible, cursor, limit, page, more)
    ensures IsQuery(table, visible, if inverted then cursor else None, if inverted then None else cursor, inverted,
                    limit, page, more)
  {
    OrdersAreTotal(inverted);
    var before, after := if inverted then cursor else None, if inverted then None else cursor;
    var beyond := (row: Item) => Beyond(OrderBy(inverted), visible, cursor, row);
    var listing :| Lists(OrderBy(inverted), table, beyond, listing) && page == Limited(listing, limit)
      && more == (|listing| > limit);
    forall row ensures beyond(row) <==> visible(row) && CursorPredicate(row, before, after) == True {
      PredicateIsStrictlyBetween(row, before, after);
    }
    SameCondition(OrderBy(inverted), table, beyond, row => visible(row) && CursorPredicate(row, before, after) == True,
                  listing);
  }

  lemma {:induction false} WalkIsPaging(table: set<Item>, visible: Item -> bool, inverted: bool, cursor: Option<Item>,
                                        limit: nat, pages: seq<seq<Item>>)
    requires IsWalk(OrderBy(inverted), table, visible, cursor, limit, pages)
    ensures IsPaging(table, visible, inverted, cursor, limit, pages)
    decreases |pages|
  {
    hide IsQuery, IsPage;
    PageIsQuery(table, visible, cursor, inverted, limit, pages[0], |pages| > 1);
    if |pages| > 1 { WalkIsPaging(table, visible, inverted, Some(pages[0][|pages[0]| - 1]), limit, pages[1..]); }
  }

  function Reversed(rows: seq<Item>): (r: seq<Item>)
    ensures |r| == |rows| && forall i | 0 <= i < |r| :: r[i] == rows[|rows| - 1 - i]
  {
    if rows == [] then [] else [rows[|rows| - 1]] + Reversed(rows[..|rows| - 1])
  }

  lemma ReversedLists(table: set<Item>, visible: Item -> bool, all: seq<Item>)
    requires Lists(OrderBy(false), table, visible, all)
    ensures Lists(OrderBy(true), table, visible, Reversed(all))
  {
    OrdersAreTotal(true);
    hide Precedes, Follows, Reversed;
    var back := Reversed(all);
    forall i, j | 0 <= i < j < |back| ensures Follows(back[i], back[j]) {
      assert Precedes(all[|all| - 1 - j], all[|all| - 1 - i]);
    }
    forall row ensures row in back <==> row in all {
      if row in all {
        var i :| 0 <= i < |all| && all[i] == row;
        assert back[|all| - 1 - i] == row;
      }
    }
  }

  /**
   * Paging through comes to an end, and however it goes, forward paging lists every visible item once,
   * in order, and inverted paging exactly the reverse.
   */
  lemma PagingListsAll(table: set<Item>, visible: Item -> bool, all: seq<Item>, inverted: bool, limit: nat)
    requires Lists(OrderBy(false), table, visible, all) && limit > 0
    ensures exists pages :: IsPaging(table, visible, inverted, None, limit, pages)
    ensures forall pages | IsPaging(table, visible, inverted, None, limit, pages) ::
      Flattened(pages) == if inverted then Reversed(all) else all
  {
    hide IsPaging, Lists, Flattened, IsWalk, Precedes, Follows;
    OrdersAreTotal(inverted);
    ReversedLists(table, visible, all);
    FollowingListsAll(OrderBy(inverted), table, visible, if inverted then Reversed(all) else all, limit);
    var some :| IsWalk(OrderBy(inverted), table, visible, None, limit, some);
    WalkIsPaging(table, visible, inverted, None, limit, some);
    forall pages | IsPaging(table, visible, inverted, None, limit, pages)
      ensures Flattened(pages) == if inverted then Reversed(all) else all
    {
      PagingIsWalk(table, visible, inverted, None, limit, pages);
    }
  }

  /** Remembers the position of each fetched item, from which its cursor is made. */
  method ResolveItems(fetched: seq<Item>) returns (ids: seq<int>, positions: map<int, Option<int>>)
    requires forall i, j | 0 <= i < j < |fetched| :: fetched[i].id != fetched[j].id
    ensures |ids| == |fetched| && forall i | 0 <= i < |ids| :: ids[i] == fetched[i].id
    ensures forall i | 0 <= i < |ids| :: ids[i] in positions && Item(positions[ids[i]], ids[i]) == fetched[i]
  {
    ids, positions := [], map[];
    for i := 0 to |fetched|
      invariant |ids| == i && forall k | 0 <= k < i :: ids[k] == fetched[k].id
      invariant forall k | 0 <= k < i :: ids[k] in positions && Item(positions[ids[k]], ids[k]) == fetched[k]
    {
      positions := positions[fetched[i].id := fetched[i].position];
      ids := ids + [fetched[i].id];
    }
  }
}
