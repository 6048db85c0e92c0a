/** The versioned history of one canonical resource, and what one append does to it. */
module RevisionHistory {
  import opened Wrappers

  type Uuid = int

  datatype ResourceKind = Actor | Object | Activity | Collection | Unknown
  datatype Capture = Local | Received | Embedded | Fetched
  datatype Projection = Partial | Complete
  datatype AddressingProperty = To | Cc | Bto | Bcc | Audience
  datatype Occurrence = Occurrence(property: AddressingProperty, position: int, iri: string)
  datatype Representation = Reference | EmbeddedValue | Link
  datatype Relation = Relation(property: string, representation: Representation, targetIri: Option<string>)

  /** Documents are stored, and compared, as JSON text. */
  datatype Content = Snapshot(document: string) | Unavailable | Whiteout(deleted: int, formerTypes: seq<string>)

  datatype Revision = Revision(
    id: Uuid, sequence: nat, content: Content, capture: Capture, projection: Projection,
    addressing: seq<Occurrence>, relations: seq<Relation>)

  /** A prepared append: what is to be stored, and the revision it expects to follow. */
  datatype Draft =
    | NewSnapshot(document: string, capture: Capture, projection: Projection, addressing: seq<Occurrence>,
                  relations: seq<Relation>)
    | NewWhiteout(deleted: int, formerTypes: seq<string>)
  datatype Request = Request(kind: ResourceKind, expected: Option<Uuid>, draft: Draft)
  {
    ghost predicate Valid() { kind == Object || kind == Activity }
  }

  datatype Refusal =
    | NotRegistered
    | RevisionConflict(expected: Option<Uuid>, actual: Option<Uuid>)
    | LegacyRevision
    | KindConflict(registered: ResourceKind)
    | ActivityImmutable
    | Deleted
    | InitialWhiteout
    | Malformed

  /** What the tables say about one resource. `typed` tells whether an object or activity row exists. */
  datatype State = State(kind: ResourceKind, history: seq<Revision>, typed: bool)

  function Head(history: seq<Revision>): Option<Revision> {
    if history == [] then None else Some(history[|history| - 1])
  }

  function HeadId(history: seq<Revision>): Option<Uuid> {
    if history == [] then None else Some(history[|history| - 1].id)
  }

  /** The checks under the resource lock, in order; `coordinated` is a write that changes the typed row itself. */
  function Refused(state: State, request: Request, coordinated: bool): Option<Refusal> {
    var previous := Head(state.history);
    if HeadId(state.history) != request.expected then Some(RevisionConflict(request.expected, HeadId(state.history)))
    else if !coordinated && state.typed then Some(LegacyRevision)
    else if state.kind != Unknown && state.kind != request.kind then Some(KindConflict(state.kind))
    else if previous.Some? && request.kind == Activity then Some(ActivityImmutable)
    else if previous.Some? && previous.value.content.Whiteout? then Some(Deleted)
    else if request.draft.NewWhiteout? && previous.None? then Some(InitialWhiteout)
    else None
  }

  /** The stored revision: a whiteout keeps the provenance and projections of what it replaces. */
  function Stored(history: seq<Revision>, draft: Draft, id: Uuid): Revision
    requires draft.NewWhiteout? ==> history != []
  {
    match draft
    case NewSnapshot(document, capture, projection, addressing, relations) =>
      Revision(id, |history| + 1, Snapshot(document), capture, projection, addressing, relations)
    case NewWhiteout(deleted, formerTypes) =>
      var last := history[|history| - 1];
      Revision(id, |history| + 1, Whiteout(deleted, formerTypes), last.capture, last.projection, last.addressing,
               last.relations)
  }

  function Appended(state: State, request: Request, coordinated: bool, id: Uuid): Result<State, Refusal> {
    var refusal := Refused(state, request, coordinated);
    if refusal.Some? then Err(refusal.value)
    else Ok(state.(kind := request.kind, history := state.history + [Stored(state.history, request.draft, id)]))
  }

  // ------------------------------------------------------------ what every append keeps

  /** Sequences are exactly 1..n, ids differ, and only the last of several revisions is a whiteout. */
  ghost predicate LawfulHistory(history: seq<Revision>) {
    && (forall i | 0 <= i < |history| :: history[i].sequence == i + 1)
    && (forall i, j | 0 <= i < j < |history| :: history[i].id != history[j].id)
    && (forall i | 0 <= i < |history| && history[i].content.Whiteout? :: 0 < i == |history| - 1)
  }

  ghost predicate Lawful(state: State) {
    && LawfulHistory(state.history)
    && (state.history != [] ==> state.kind == Object || state.kind == Activity)
    && (state.kind == Activity ==> |state.history| <= 1)
  }

  ghost predicate FreshIn(history: seq<Revision>, id: Uuid) {
    forall revision <- history :: revision.id != id
  }

  lemma AppendKeepsLaw(state: State, request: Request, coordinated: bool, id: Uuid)
    requires Lawful(state) && request.Valid() && FreshIn(state.history, id)
    requires Appended(state, request, coordinated, id).Ok?
    ensures Lawful(Appended(state, request, coordinated, id).value)
  {
    var history := state.history;
    var more := Appended(state, request, coordinated, id).value.history;
    forall i | 0 <= i < |history|
      ensures more[i] == history[i] && !history[i].content.Whiteout? && history[i].id != id {
      assert history[i] in history;
    }
  }

  /** An append adds one revision behind the expected one, and changes no older revision. */
  lemma AppendExtends(state: State, request: Request, coordinated: bool, id: Uuid)
    requires Appended(state, request, coordinated, id).Ok?
    ensures var after := Appended(state, request, coordinated, id).value;
            && |after.history| == |state.history| + 1 && after.history[..|state.history|] == state.history
            && HeadId(after.history) == Some(id) && request.expected == HeadId(state.history)
            && after.typed == state.typed && (state.kind != Unknown ==> after.kind == state.kind)
  {
  }

  /** A lawful history accepts an append exactly when it follows the head it expects and may still grow. */
  lemma AcceptedExactlyWhen(state: State, request: Request, coordinated: bool)
    requires Lawful(state) && request.Valid()
    ensures Refused(state, request, coordinated).None?
       <==> && HeadId(state.history) == request.expected
            && (coordinated || !state.typed)
            && (state.kind == Unknown || state.kind == request.kind)
            && (if state.history == [] then request.draft.NewSnapshot?
                else state.kind == Object && forall revision <- state.history :: !revision.content.Whiteout?)
  {
    var history := state.history;
    if history != [] {
      assert history[|history| - 1] in history;
      if !history[|history| - 1].content.Whiteout? {
        forall revision <- history ensures !revision.content.Whiteout? {
          var i :| 0 <= i < |history| && history[i] == revision;
        }
      }
    }
  }

  /**
   * What an accepted append stores, part by part: a snapshot as it was submitted; a whiteout with the time
   * and the former types, and for the rest what it replaces.
   */
  lemma AppendInWords(state: State, request: Request, coordinated: bool, id: Uuid)
    requires Appended(state, request, coordinated, id).Ok?
    ensures var after, draft := Appended(state, request, coordinated, id).value, request.draft;
            && after.kind == request.kind && after.history != []
            && var added := after.history[|after.history| - 1];
               && added.id == id && added.sequence == |state.history| + 1
               && (draft.NewSnapshot? ==>
                     && added.content == Snapshot(draft.document) && added.capture == draft.capture
                     && added.projection == draft.projection && added.addressing == draft.addressing
                     && added.relations == draft.relations)
               && (draft.NewWhiteout? ==>
                     && state.history != [] && added.content == Whiteout(draft.deleted, draft.formerTypes)
                     && var replaced := state.history[|state.history| - 1];
                        && added.capture == replaced.capture && added.projection == replaced.projection
                        && added.addressing == replaced.addressing && added.relations == replaced.relations)
  {
  }

  /** A refusal says what stands in the way, and an earlier obstacle is named before a later one. */
  lemma RefusalsInWords(state: State, request: Request, coordinated: bool, refusal: Refusal)
    requires Lawful(state) && request.Valid() && Refused(state, request, coordinated) == Some(refusal)
    ensures var follows := HeadId(state.history) == request.expected;
            var history := state.history;
            match refusal
            case RevisionConflict(expected, actual) =>
              !follows && expected == request.expected && actual == HeadId(history)
            case LegacyRevision => follows && !coordinated && state.typed
            case KindConflict(registered) =>
              follows && registered == state.kind && registered != Unknown && registered != request.kind
            case ActivityImmutable => follows && history != [] && request.kind == Activity && state.kind == Activity
            case Deleted => follows && history != [] && history[|history| - 1].content.Whiteout?
            case InitialWhiteout => follows && history == [] && request.draft.NewWhiteout?
            case _ => false
    ensures refusal.KindConflict? || refusal.ActivityImmutable? || refusal.Deleted? || refusal.InitialWhiteout? ==>
              coordinated || !state.typed
  {
  }

  // ------------------------------------------------------------ paging through a history

  const DEFAULT_HISTORY_LIMIT := 20
  const MAX_HISTORY_LIMIT := 100

  predicate ValidBounds(before: Option<int>, limit: int) {
    1 <= limit <= MAX_HISTORY_LIMIT && (before.Some? ==> 1 <= before.value <= 9007199254740991)
  }

  function Reversed(history: seq<Revision>): (r: seq<Revision>)
    ensures |r| == |history| && forall i | 0 <= i < |r| :: r[i] == history[|history| - 1 - i]
  {
    if history == [] then [] else [history[|history| - 1]] + Reversed(history[..|history| - 1])
  }

  /** How many revisions come strictly before a sequence number. */
  function Older(history: seq<Revision>, before: Option<int>): nat
    requires before.Some? ==> before.value >= 1
  {
    if before.None? || before.value > |history| then |history| else before.value - 1
  }

  function Page(history: seq<Revision>, before: Option<int>, limit: nat): (page: seq<Revision>)
    requires before.Some? ==> before.value >= 1
    ensures |page| <= limit
  {
    var older := Reversed(history[..Older(history, before)]);
    if |older| <= limit then older else older[..limit]
  }

  /** Everything reached by asking for the next page before the last revision shown, until a page is empty. */
  function FollowPages(history: seq<Revision>, before: Option<int>, limit: nat): seq<Revision>
    requires LawfulHistory(history) && limit > 0 && (before.Some? ==> before.value >= 1)
    decreases Older(history, before)
  {
    var page := Page(history, before, limit);
    if page == [] then []
    else
      LastOfPage(history, before, limit);
      page + FollowPages(history, Some(page[|page| - 1].sequence), limit)
  }

  lemma LastOfPage(history: seq<Revision>, before: Option<int>, limit: nat)
    requires LawfulHistory(history) && limit > 0 && (before.Some? ==> before.value >= 1)
             && Page(history, before, limit) != []
    ensures var page, n := Page(history, before, limit), Older(history, before);
            && page[|page| - 1].sequence == n - |page| + 1
            && Older(history, Some(page[|page| - 1].sequence)) == n - |page|
  {
  }

  /** A page lists revisions by falling sequence, all of them strictly before the bound. */
  lemma PageIsDescending(history: seq<Revision>, before: Option<int>, limit: nat)
    requires LawfulHistory(history) && (before.Some? ==> before.value >= 1)
    ensures forall i, j | 0 <= i < j < |Page(history, before, limit)| ::
      Page(history, before, limit)[i].sequence > Page(history, before, limit)[j].sequence
    ensures forall revision <- Page(history, before, limit) ::
              revision in history && (before.Some? ==> revision.sequence < before.value)
  {
  }

  /** Following the pages lists every older revision exactly once, latest first. */
  lemma {:induction false} PagesListHistory(history: seq<Revision>, before: Option<int>, limit: nat)
    requires LawfulHistory(history) && limit > 0 && (before.Some? ==> before.value >= 1)
    ensures FollowPages(history, before, limit) == Reversed(history[..Older(history, before)])
    decreases Older(history, before)
  {
    hide Reversed, LawfulHistory;
    var page, n := Page(history, before, limit), Older(history, before);
    ReversedSplits(history, n, |page|);
    if page != [] {
      LastOfPage(history, before, limit);
      PagesListHistory(history, Some(page[|page| - 1].sequence), limit);
    }
  }

  lemma ReversedSplits(history: seq<Revision>, n: nat, k: nat)
    requires k <= n <= |history|
    ensures Reversed(history[..n]) == Reversed(history[..n])[..k] + Reversed(history[..n - k])
  {
    hide Reversed;
  }

  /** The rows a bound lets through, oldest first. */
  function Earlier(history: seq<Revision>, before: Option<int>): seq<Revision> {
    if history == [] then []
    else
      var last := history[|history| - 1];
      Earlier(history[..|history| - 1], before) + if before.None? || last.sequence < before.value then [last] else []
  }

  /** The query of a history page, latest first; `None` for bounds out of range. */
  function ListRevisions(history: seq<Revision>, before: Option<int>, limit: Option<int>): Option<seq<Revision>> {
    var size := if limit.None? then DEFAULT_HISTORY_LIMIT else limit.value;
    var rows := Reversed(Earlier(history, before));
    if !ValidBounds(before, size) then None
    else Some(if |rows| <= size then rows else rows[..size])
  }

  lemma {:induction false} EarlierIsPrefix(history: seq<Revision>, before: Option<int>, n: nat)
    requires LawfulHistory(history) && (before.Some? ==> before.value >= 1) && n <= |history|
    ensures Earlier(history[..n], before)
              == history[..if n <= Older(history, before) then n else Older(history, before)]
  {
    if n > 0 {
      EarlierIsPrefix(history, before, n - 1);
      assert history[..n][..n - 1] == history[..n - 1];
      assert history[n - 1].sequence == n;
    }
  }

  /** On a lawful history the query answers the page; it refuses exactly the bounds out of range. */
  lemma ListingIsPage(history: seq<Revision>, before: Option<int>, limit: Option<int>)
    requires LawfulHistory(history)
    ensures var size := if limit.None? then DEFAULT_HISTORY_LIMIT else limit.value;
            ListRevisions(history, before, limit) == if ValidBounds(before, size)
              then Some(Page(history, before, size)) else None
  {
    if before.Some? ==> before.value >= 1 {
      EarlierIsPrefix(history, before, |history|);
      assert history[..|history|] == history;
    }
  }
}
