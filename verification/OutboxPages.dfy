/** The pages of an actor's outbox, the activities they serve, and the counter beside them. */
module OutboxPages {
  import opened Wrappers
  import opened Calendar
  import opened Keyset
  import opened OutboxCursor

  const PAGE_SIZE := 20

  // ------------------------------------------------------------ what is served

  datatype AddressingProperty = To | Cc | Bto | Bcc | Audience
  datatype Row = Row(key: Key, activityType: string, objectId: int)
  datatype Addressed = Addressed(source: int, property: AddressingProperty, target: int)

  /** An actor's activities, the addressing, and the objects with their deletion marks. */
  datatype Store = Store(activities: map<Key, Row>, addressing: set<Addressed>, objects: map<int, bool>)

  const PUBLIC_ID := 0

  predicate PubliclyAddressed(store: Store, source: int) {
    Addressed(source, To, PUBLIC_ID) in store.addressing || Addressed(source, Cc, PUBLIC_ID) in store.addressing
  }

  /** A public `Create` whose object is not deleted; the pages and the counter share this condition. */
  predicate Served(store: Store, row: Row) {
    && row.activityType == "Create" && PubliclyAddressed(store, row.key.id)
    && row.objectId in store.objects && !store.objects[row.objectId]
  }

  ghost predicate Valid(store: Store) {
    forall key <- store.activities :: key.published.Valid() && store.activities[key].key == key
  }

  function ServedKey(store: Store): Key -> bool {
    key => key in store.activities && Served(store, store.activities[key])
  }

  function Counter(store: Store): nat {
    |set key | key in store.activities && Served(store, store.activities[key])|
  }

  // ------------------------------------------------------------ a page

  /** Latest publication first, then the larger identifier. */
  predicate Newer(a: Key, b: Key) {
    b.published.Before(a.published) || (a.published == b.published && a.id > b.id)
  }

  /** The row comparison `(published, id) < (boundary)`, on instants. */
  predicate BelowBoundary(key: Key, boundary: Boundary)
    requires key.published.Valid()
  {
    Micros(key.published) < boundary.published || (Micros(key.published) == boundary.published && key.id < boundary.id)
  }

  function Asked(store: Store, parsed: Parsed): Key -> bool {
    key =>
      && key in store.activities && Served(store, store.activities[key]) && key.published.Valid()
      && (parsed.After? ==> BelowBoundary(key, parsed.boundary))
  }

  /** One answer of the dispatcher: a page, and the cursor of the next one while rows remain. */
  ghost predicate IsAnswer(store: Store, uuids: Uuids, cursor: string, page: seq<Key>, next: Option<string>) {
    exists listing ::
      && Lists(Newer, store.activities.Keys, Asked(store, ParseCursor(uuids, cursor)), listing)
      && !ParseCursor(uuids, cursor).Invalid?
      && var fetched := Limited(listing, PAGE_SIZE + 1);
         && page == Limited(fetched, PAGE_SIZE)
         && (if |fetched| > PAGE_SIZE
             then page[|page| - 1].published.Valid() && next == Some(CursorText(uuids, page[|page| - 1]))
             else next == None)
  }

  /** Answers from the first page on, each to the cursor of the one before, until one has none. */
  ghost predicate IsBrowsing(store: Store, uuids: Uuids, cursor: string, pages: seq<seq<Key>>)
    decreases |pages|
  {
    && pages != []
    && exists next ::
         && IsAnswer(store, uuids, cursor, pages[0], next)
         && if |pages| == 1 then next == None else next.Some? && IsBrowsing(store, uuids, next.value, pages[1..])
  }

  lemma NewerIsTotal()
    ensures TotalOrder(Newer)
  {
  }

  /** The comparison with a boundary is the order of the listing. */
  lemma BoundaryMeansNewer(key: Key, after: Key)
    requires key.published.Valid() && after.published.Valid()
    ensures BelowBoundary(key, Boundary(Micros(after.published), after.id)) <==> Newer(after, key)
  {
    hide Micros;
    FieldOrderIsTimeOrder(key.published, after.published);
  }

  predicate InEra(key: Key) {
    1 <= key.published.year <= 9999
  }

  /** The activities that end a page with more to follow, and so become cursors, lie in the years 1 to 9999. */
  ghost predicate CursorsReturn(all: seq<Key>) {
    forall k: nat | 0 < k :: PageEndReturns(all, k)
  }

  predicate PageEndReturns(all: seq<Key>, k: nat)
    requires 0 < k
  {
    PAGE_SIZE * k < |all| ==> InEra(all[PAGE_SIZE * k - 1])
  }

  ghost predicate CursorNames(store: Store, uuids: Uuids, cursor: string, after: Option<Key>) {
    match after
    case None => cursor == ""
    case Some(key) => key.published.Valid() && InEra(key) && cursor == CursorText(uuids, key)
  }

  /** An answer is the keyset page after the activity its cursor names. */
  lemma AnswerIsPage(store: Store, uuids: Uuids, cursor: string, after: Option<Key>, page: seq<Key>,
                     next: Option<string>)
    requires Valid(store) && uuids.Faithful() && CursorNames(store, uuids, cursor, after)
    requires IsAnswer(store, uuids, cursor, page, next)
    ensures IsPage(Newer, store.activities.Keys, ServedKey(store), after, PAGE_SIZE, page, next.Some?)
    ensures next.Some? ==>
              page != [] && page[|page| - 1].published.Valid() && next == Some(CursorText(uuids, page[|page| - 1]))
    ensures forall key <- page :: key in store.activities && Served(store, store.activities[key])
  {
    hide Newer, BelowBoundary, Served, CursorText, Micros, ParseCursor;
    var parsed := ParseCursor(uuids, cursor);
    var listing :| Lists(Newer, store.activities.Keys, Asked(store, parsed), listing)
      && !parsed.Invalid?
      && var fetched := Limited(listing, PAGE_SIZE + 1);
         && page == Limited(fetched, PAGE_SIZE)
         && (if |fetched| > PAGE_SIZE
             then page[|page| - 1].published.Valid() && next == Some(CursorText(uuids, page[|page| - 1]))
             else next == None);
    ParsedNames(store, uuids, cursor, after);
    forall key | key in store.activities
      ensures Asked(store, parsed)(key) <==> Beyond(Newer, ServedKey(store), after, key)
    {
      if after.Some? { BoundaryMeansNewer(key, after.value); }
    }
    SameListing(store.activities.Keys, Asked(store, parsed), key => Beyond(Newer, ServedKey(store), after, key),
                listing);
    assert Limited(Limited(listing, PAGE_SIZE + 1), PAGE_SIZE) == Limited(listing, PAGE_SIZE);
    forall key <- page ensures key in store.activities && Served(store, store.activities[key]) {
      assert key in listing;
    }
  }

  lemma SameListing(rows: set<Key>, some: Key -> bool, other: Key -> bool, listing: seq<Key>)
    requires Lists(Newer, rows, some, listing) && forall key <- rows :: some(key) <==> other(key)
    ensures Lists(Newer, rows, other, listing)
  {
    hide Newer;
  }

  lemma ParsedNames(store: Store, uuids: Uuids, cursor: string, after: Option<Key>)
    requires uuids.Faithful() && CursorNames(store, uuids, cursor, after)
    ensures ParseCursor(uuids, cursor)
         == if after.None? then First else After(Boundary(Micros(after.value.published), after.value.id))
  {
    hide CursorText, Micros, Split, LooksLikeMoment, ReadMoment;
    if after.Some? { CursorReturnsExactlyWhen(uuids, after.value); }
  }

  /** The first answer after `k` full pages: the next page of the listing, and its last activity as the cursor. */
  lemma AnswerAt(store: Store, uuids: Uuids, cursor: string, after: Option<Key>, all: seq<Key>, k: nat, page: seq<Key>,
                 next: Option<string>)
    requires Valid(store) && uuids.Faithful() && CursorNames(store, uuids, cursor, after)
    requires Lists(Newer, store.activities.Keys, ServedKey(store), all) && PAGE_SIZE * k <= |all|
    requires if k == 0 then after == None else after == Some(all[PAGE_SIZE * k - 1])
    requires IsAnswer(store, uuids, cursor, page, next)
    ensures page == Limited(all[PAGE_SIZE * k..], PAGE_SIZE)
    ensures next.Some? <==> PAGE_SIZE * (k + 1) < |all|
    ensures next.Some? ==>
              && page == all[PAGE_SIZE * k..PAGE_SIZE * (k + 1)]
              && all[PAGE_SIZE * (k + 1) - 1].published.Valid()
                 && next == Some(CursorText(uuids, all[PAGE_SIZE * (k + 1) - 1]))
    ensures IsPage(Newer, store.activities.Keys, ServedKey(store), after, PAGE_SIZE, page, next.Some?)
  {
    hide Newer, Served, CursorText, IsAnswer, IsPage, Lists;
    NewerIsTotal();
    AnswerIsPage(store, uuids, cursor, after, page, next);
    PageFrom(Newer, store.activities.Keys, ServedKey(store), all, PAGE_SIZE * k, after, PAGE_SIZE, page, next.Some?);
  }

  lemma {:induction false} BrowsingIsWalk(store: Store, uuids: Uuids, cursor: string, after: Option<Key>,
                                          all: seq<Key>, k: nat, pages: seq<seq<Key>>)
    requires Valid(store) && uuids.Faithful() && CursorNames(store, uuids, cursor, after)
    requires Lists(Newer, store.activities.Keys, ServedKey(store), all) && PAGE_SIZE * k <= |all| && CursorsReturn(all)
    requires if k == 0 then after == None else after == Some(all[PAGE_SIZE * k - 1])
    requires IsBrowsing(store, uuids, cursor, pages)
    ensures IsWalk(Newer, store.activities.Keys, ServedKey(store), after, PAGE_SIZE, pages)
    decreases |pages|
  {
    hide IsAnswer, IsPage, Newer, Served, CursorText, Lists;
    var next :| IsAnswer(store, uuids, cursor, pages[0], next)
      && if |pages| == 1 then next == None else next.Some? && IsBrowsing(store, uuids, next.value, pages[1..]);
    AnswerAt(store, uuids, cursor, after, all, k, pages[0], next);
    if |pages| > 1 {
      var last := all[PAGE_SIZE * (k + 1) - 1];
      assert last == pages[0][|pages[0]| - 1] && PageEndReturns(all, k + 1);
      BrowsingIsWalk(store, uuids, next.value, Some(last), all, k + 1, pages[1..]);
    }
  }

  /** Every cursor of the outbox gets an answer: what follows the activity it names. */
  lemma AnswerExists(store: Store, uuids: Uuids, cursor: string, after: Option<Key>, all: seq<Key>, n: nat)
    requires Valid(store) && uuids.Faithful() && CursorNames(store, uuids, cursor, after)
    requires Lists(Newer, store.activities.Keys, ServedKey(store), all) && n <= |all|
    requires if n == 0 then after == None else after == Some(all[n - 1])
    ensures var page := Limited(all[n..], PAGE_SIZE);
            if |all[n..]| > PAGE_SIZE
            then page[|page| - 1].published.Valid()
              && IsAnswer(store, uuids, cursor, page, Some(CursorText(uuids, page[|page| - 1])))
            else IsAnswer(store, uuids, cursor, page, None)
  {
    hide Newer, BelowBoundary, Served, CursorText, Micros, ParseCursor;
    var parsed, listing := ParseCursor(uuids, cursor), all[n..];
    NewerIsTotal();
    RestLists(Newer, store.activities.Keys, ServedKey(store), all, n, after);
    ParsedNames(store, uuids, cursor, after);
    forall key | key in store.activities
      ensures Beyond(Newer, ServedKey(store), after, key) <==> Asked(store, parsed)(key)
    {
      if after.Some? { BoundaryMeansNewer(key, after.value); }
    }
    SameListing(store.activities.Keys, key => Beyond(Newer, ServedKey(store), after, key), Asked(store, parsed),
                listing);
    var page := Limited(listing, PAGE_SIZE);
    assert Limited(Limited(listing, PAGE_SIZE + 1), PAGE_SIZE) == page;
    if |listing| > PAGE_SIZE { assert page[|page| - 1] in listing; }
  }

  /** As long as cursors return, following them from any of them ends. */
  lemma {:induction false} BrowsingEnds(store: Store, uuids: Uuids, cursor: string, after: Option<Key>, all: seq<Key>,
                                        k: nat)
    returns (pages: seq<seq<Key>>)
    requires Valid(store) && uuids.Faithful() && CursorNames(store, uuids, cursor, after)
    requires Lists(Newer, store.activities.Keys, ServedKey(store), all) && PAGE_SIZE * k <= |all| && CursorsReturn(all)
    requires if k == 0 then after == None else after == Some(all[PAGE_SIZE * k - 1])
    ensures IsBrowsing(store, uuids, cursor, pages)
    decreases |all| - PAGE_SIZE * k
  {
    hide IsAnswer, Newer, Served, CursorText, Lists;
    AnswerExists(store, uuids, cursor, after, all, PAGE_SIZE * k);
    var page := Limited(all[PAGE_SIZE * k..], PAGE_SIZE);
    if PAGE_SIZE * (k + 1) < |all| {
      var last := all[PAGE_SIZE * (k + 1) - 1];
      assert last == page[|page| - 1] && PageEndReturns(all, k + 1);
      var rest := BrowsingEnds(store, uuids, CursorText(uuids, last), Some(last), all, k + 1);
      pages := [page] + rest;
      assert pages[1..] == rest && rest != [];
      assert IsAnswer(store, uuids, cursor, pages[0], Some(CursorText(uuids, last)));
    } else {
      pages := [page];
      assert IsAnswer(store, uuids, cursor, pages[0], None);
    }
  }

  // ------------------------------------------------------------ where browsing goes wrong

  /** A cursor that does not return is refused, or answered with an activity listed before. */
  lemma StrayAnswer(store: Store, uuids: Uuids, all: seq<Key>, n: nat, page: seq<Key>, next: Option<string>)
    requires Valid(store) && uuids.Faithful() && Lists(Newer, store.activities.Keys, ServedKey(store), all)
    requires 0 < n <= |all| && all[n - 1].published.Valid() && !InEra(all[n - 1])
    requires IsAnswer(store, uuids, CursorText(uuids, all[n - 1]), page, next)
    ensures page != [] && page[0] in all[..n]
  {
    hide Newer, Served, CursorText, Micros, ParseCursor;
    var last := all[n - 1];
    var parsed := ParseCursor(uuids, CursorText(uuids, last));
    CursorStraysOutside(uuids, last);
    var listing :| Lists(Newer, store.activities.Keys, Asked(store, parsed), listing) && !parsed.Invalid?
      && page == Limited(Limited(listing, PAGE_SIZE + 1), PAGE_SIZE);
    assert last in all && Asked(store, parsed)(last) && last in listing;
    assert page[0] == listing[0] && page[0] in listing;
    NewerIsTotal();
    FirstIsLeast(Newer, listing);
    assert page[0] in all;
    NotNewerIsLater(all, n - 1, page[0]);
  }

  /** What is not older than an activity of the listing stands at or before it. */
  lemma NotNewerIsLater(all: seq<Key>, i: nat, key: Key)
    requires Ascending(Newer, all) && i < |all| && key in all && (key == all[i] || Newer(key, all[i]))
    ensures key in all[..i + 1]
  {
    var j :| 0 <= j < |all| && all[j] == key;
    NewerIsTotal();
    assert j <= i;
    assert all[..i + 1][j] == key;
  }

  lemma NothingTwice(all: seq<Key>, n: nat)
    requires Ascending(Newer, all) && n < |all|
    ensures all[n] !in all[..n]
  {
    NewerIsTotal();
  }

  lemma StrayBrowsing(store: Store, uuids: Uuids, all: seq<Key>, n: nat, pages: seq<seq<Key>>)
    requires Valid(store) && uuids.Faithful() && Lists(Newer, store.activities.Keys, ServedKey(store), all)
    requires 0 < n < |all| && all[n - 1].published.Valid() && !InEra(all[n - 1])
    requires IsBrowsing(store, uuids, CursorText(uuids, all[n - 1]), pages)
    ensures Flattened(pages) != all[n..]
  {
    hide IsAnswer, Newer, Served, CursorText;
    var next :| IsAnswer(store, uuids, CursorText(uuids, all[n - 1]), pages[0], next);
    StrayAnswer(store, uuids, all, n, pages[0], next);
    assert Flattened(pages)[0] == pages[0][0];
    NothingTwice(all, n);
  }

  /** One such page ends in an activity whose cursor returns, or is the last. */
  lemma ListedPageReturns(store: Store, uuids: Uuids, cursor: string, after: Option<Key>, all: seq<Key>, k: nat,
                          pages: seq<seq<Key>>, next: Option<string>)
    requires Valid(store) && uuids.Faithful() && CursorNames(store, uuids, cursor, after)
    requires Lists(Newer, store.activities.Keys, ServedKey(store), all) && PAGE_SIZE * k <= |all|
    requires if k == 0 then after == None else after == Some(all[PAGE_SIZE * k - 1])
    requires pages != [] && IsAnswer(store, uuids, cursor, pages[0], next) && Flattened(pages) == all[PAGE_SIZE * k..]
    requires next.Some? ==> |pages| > 1 && IsBrowsing(store, uuids, next.value, pages[1..])
    ensures if next.Some? then
              && PAGE_SIZE * (k + 1) < |all| && InEra(all[PAGE_SIZE * (k + 1) - 1])
              && CursorNames(store, uuids, next.value, Some(all[PAGE_SIZE * (k + 1) - 1]))
              && Flattened(pages[1..]) == all[PAGE_SIZE * (k + 1)..]
            else |all| <= PAGE_SIZE * (k + 1)
  {
    hide IsAnswer, Newer, Served, CursorText, IsPage, InEra, IsBrowsing;
    AnswerAt(store, uuids, cursor, after, all, k, pages[0], next);
    if next.Some? {
      var n := PAGE_SIZE * (k + 1);
      RestFlattened(pages, all, PAGE_SIZE * k, n);
      hide Flattened, Lists, CursorNames;
      if !InEra(all[n - 1]) { StrayBrowsing(store, uuids, all, n, pages[1..]); }
      NamesItself(store, uuids, all[n - 1]);
    }
  }

  /** Pages that list everything from a cursor on have come from cursors that return. */
  lemma {:induction false} ListedCursorsReturn(store: Store, uuids: Uuids, cursor: string, after: Option<Key>,
                                               all: seq<Key>, k: nat, pages: seq<seq<Key>>)
    requires Valid(store) && uuids.Faithful() && CursorNames(store, uuids, cursor, after)
    requires Lists(Newer, store.activities.Keys, ServedKey(store), all) && PAGE_SIZE * k <= |all|
    requires if k == 0 then after == None else after == Some(all[PAGE_SIZE * k - 1])
    requires IsBrowsing(store, uuids, cursor, pages) && Flattened(pages) == all[PAGE_SIZE * k..]
    ensures forall j: nat | k < j :: PageEndReturns(all, j)
    decreases |pages|
  {
    hide IsAnswer, InEra, Flattened, Lists, CursorNames, Valid, PageEndReturns, Newer, ServedKey;
    var next :| IsAnswer(store, uuids, cursor, pages[0], next)
      && if |pages| == 1 then next == None else next.Some? && IsBrowsing(store, uuids, next.value, pages[1..]);
    hide IsBrowsing;
    ListedPageReturns(store, uuids, cursor, after, all, k, pages, next);
    if next.Some? {
      ListedCursorsReturn(store, uuids, next.value, Some(all[PAGE_SIZE * (k + 1) - 1]), all, k + 1, pages[1..]);
      PageEndsInEra(all, k + 1);
    } else {
      NoPageEndsAfter(all, k);
    }
  }

  lemma PageEndsInEra(all: seq<Key>, k: nat)
    requires 0 < k && PAGE_SIZE * k <= |all| && InEra(all[PAGE_SIZE * k - 1])
    ensures PageEndReturns(all, k)
  {
  }

  lemma NoPageEndsAfter(all: seq<Key>, k: nat)
    requires |all| <= PAGE_SIZE * (k + 1)
    ensures forall j: nat | k < j :: PageEndReturns(all, j)
  {
    forall j: nat | k < j ensures PageEndReturns(all, j) { assert PAGE_SIZE * (k + 1) <= PAGE_SIZE * j; }
  }

  lemma NamesItself(store: Store, uuids: Uuids, key: Key)
    requires key.published.Valid() && InEra(key)
    ensures CursorNames(store, uuids, CursorText(uuids, key), Some(key))
  {
  }

  lemma RestFlattened(pages: seq<seq<Key>>, all: seq<Key>, m: nat, n: nat)
    requires pages != [] && m <= n <= |all| && pages[0] == all[m..n] && Flattened(pages) == all[m..]
    ensures Flattened(pages[1..]) == all[n..]
  {
    assert Flattened(pages) == pages[0] + Flattened(pages[1..]);
    assert all[m..] == all[m..n] + all[n..];
    assert Flattened(pages)[n - m..] == Flattened(pages[1..]) && all[m..][n - m..] == all[n..];
  }

  /** A `Create` addressed to or copied to the public, of an object that is there and not deleted. */
  ghost predicate IsListed(store: Store, key: Key) {
    && key in store.activities
    && var row := store.activities[key];
       && row.activityType == "Create"
       && (exists property :: (property == To || property == Cc)
             && Addressed(row.key.id, property, PUBLIC_ID) in store.addressing)
       && row.objectId in store.objects && store.objects[row.objectId] == false
  }

  lemma ServedInWords(store: Store)
    ensures forall key :: ServedKey(store)(key) <==> IsListed(store, key)
  {
  }

  lemma {:induction false} NeededPages(n: nat)
    ensures Needed(n, PAGE_SIZE) == if n == 0 then 1 else (n + 19) / 20
  {
    if n > PAGE_SIZE { NeededPages(n - PAGE_SIZE); }
  }

  lemma {:induction false} ListingCounts(rows: set<Key>, listing: seq<Key>)
    requires Ascending(Newer, listing) && forall key :: key in listing <==> key in rows
    ensures |listing| == |rows|
    decreases |listing|
  {
    hide Newer;
    NewerIsTotal();
    if listing == [] {
      assert rows == {};
    } else {
      TailIsRest(Newer, listing);
      assert listing[0] in rows;
      ListingCounts(rows - {listing[0]}, listing[1..]);
    }
  }

  /**
   * Browsing an unchanging outbox from its first page can list every served activity once, latest
   * first, exactly when the activities that end its pages lie in the years 1 to 9999.
   */
  lemma OutboxIsListedExactlyWhen(store: Store, uuids: Uuids, all: seq<Key>)
    requires Valid(store) && uuids.Faithful() && Lists(Newer, store.activities.Keys, ServedKey(store), all)
    ensures (exists pages :: IsBrowsing(store, uuids, "", pages) && Flattened(pages) == all) <==> CursorsReturn(all)
  {
    hide IsBrowsing, Newer, Served, Lists, Flattened;
    assert all[0..] == all;
    if CursorsReturn(all) {
      var pages := BrowsingEnds(store, uuids, "", None, all, 0);
      OutboxIsListedOnce(store, uuids, all, pages);
    }
    forall pages | IsBrowsing(store, uuids, "", pages) && Flattened(pages) == all ensures CursorsReturn(all) {
      ListedCursorsReturn(store, uuids, "", None, all, 0, pages);
    }
  }

  /**
   * Then every browsing does so, on max(1, ceil(n / 20)) pages whose lengths add up to the counter.
   */
  lemma OutboxIsListedOnce(store: Store, uuids: Uuids, all: seq<Key>, pages: seq<seq<Key>>)
    requires Valid(store) && uuids.Faithful() && CursorsReturn(all)
    requires Lists(Newer, store.activities.Keys, ServedKey(store), all)
    requires IsBrowsing(store, uuids, "", pages)
    ensures Flattened(pages) == all && TotalLength(pages) == Counter(store)
    ensures |pages| == if Counter(store) == 0 then 1 else (Counter(store) + 19) / 20
    ensures forall key :: key in Flattened(pages) <==> IsListed(store, key)
  {
    ServedInWords(store);
    hide IsBrowsing, IsWalk, Flattened, TotalLength, Newer, Served, CursorsReturn;
    NewerIsTotal();
    BrowsingIsWalk(store, uuids, "", None, all, 0, pages);
    FollowingListsAll(Newer, store.activities.Keys, ServedKey(store), all, PAGE_SIZE);
    var served := set key | key in store.activities && Served(store, store.activities[key]);
    ListingCounts(served, all);
    NeededPages(|all|);
  }

  function EarlyKey(id: int): Key { Key(Moment(0, 3, 1, 0, 0, 0, 0), id) }

  function EarlyStore(): Store {
    Store(map id | 1 <= id <= 21 :: EarlyKey(id) := Row(EarlyKey(id), "Create", 0),
          set id | 1 <= id <= 21 :: Addressed(id, To, PUBLIC_ID), map[0 := false])
  }

  function EarlyKeys(): (all: seq<Key>)
    ensures |all| == 21 && forall i | 0 <= i < 21 :: all[i] == EarlyKey(21 - i)
  {
    seq(21, i => EarlyKey(21 - i))
  }

  lemma EarlyStoreIsValid()
    ensures Valid(EarlyStore())
  {
  }

  lemma EarlyPostsAreServed()
    ensures Lists(Newer, EarlyStore().activities.Keys, ServedKey(EarlyStore()), EarlyKeys())
  {
    var store, all := EarlyStore(), EarlyKeys();
    forall key ensures key in all <==> key in store.activities && ServedKey(store)(key) {
      if key in store.activities {
        assert key == EarlyKey(key.id) && 1 <= key.id <= 21 && Served(store, store.activities[key]);
        assert all[21 - key.id] == key;
      }
    }
  }

  /** For one, twenty-one public posts of the first of March of 1 BC are never listed by browsing. */
  lemma SomeOutboxIsNotListed(uuids: Uuids) returns (store: Store, all: seq<Key>)
    requires uuids.Faithful()
    ensures Valid(store) && Lists(Newer, store.activities.Keys, ServedKey(store), all) && |all| == 21
    ensures !exists pages :: IsBrowsing(store, uuids, "", pages) && Flattened(pages) == all
  {
    hide IsBrowsing, Flattened, EarlyStore, EarlyKeys, Newer, Served, Valid, Lists;
    store, all := EarlyStore(), EarlyKeys();
    EarlyStoreIsValid();
    EarlyPostsAreServed();
    OutboxIsListedExactlyWhen(store, uuids, all);
    assert !PageEndReturns(all, 1);
  }
}
