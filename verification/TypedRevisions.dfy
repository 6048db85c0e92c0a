/** Objects that also have a typed row: their document and addressing are kept in step with their history. */
module TypedRevisions {
  import opened Wrappers
  import opened RevisionHistory
  import opened RevisionTables

  const MAX_POSITION := 2147483647

  // ------------------------------------------------------------ addressing occurrences

  ghost predicate WellFormed(occurrences: seq<Occurrence>) {
    && (forall o <- occurrences :: 0 <= o.position <= MAX_POSITION)
    && (forall i, j | 0 <= i < j < |occurrences| ::
          occurrences[i].property != occurrences[j].property || occurrences[i].position != occurrences[j].position)
  }

  /** Accepts occurrences exactly when every position fits its column and none is taken twice. */
  method CheckAddressingOccurrences(occurrences: seq<Occurrence>) returns (ok: bool)
    ensures ok <==> WellFormed(occurrences)
  {
    var seen: set<(AddressingProperty, int)> := {};
    for i := 0 to |occurrences|
      invariant WellFormed(occurrences[..i])
      invariant forall key ::
                  key in seen <==> exists j :: 0 <= j < i && (occurrences[j].property, occurrences[j].position) == key
    {
      var o := occurrences[i];
      assert occurrences[i] in occurrences;
      if o.position < 0 || o.position > MAX_POSITION { return false; }
      if (o.property, o.position) in seen { return false; }
      seen := seen + {(o.property, o.position)};
    }
    assert occurrences[..|occurrences|] == occurrences;
    return true;
  }

  // ------------------------------------------------------------ registering targets

  /** A new resource row for an IRI. */
  ghost function WithResource(db: Tables, iri: string): Tables {
    db.(resources := db.resources[db.clock := Registered(iri, Unknown)], history := db.history[db.clock := []],
        clock := db.clock + 1)
  }

  ghost predicate HasIri(db: Tables, iri: string) {
    exists r <- db.resources :: db.resources[r].iri == iri
  }

  lemma NewResourceIsValid(db: Tables, iri: string)
    requires db.Valid() && !HasIri(db, iri)
    ensures WithResource(db, iri).Valid()
    ensures forall r <- db.resources :: SameState(db, WithResource(db, iri), r)
  {
    hide Lawful, Hydrated;
    var db' := WithResource(db, iri);
    assert db.clock !in db.resources && db.clock !in db.heads;
    forall r <- db.resources ensures SameState(db, db', r) { assert db.HistoryIsStored(r); }
    NewHistoriesHold(db, iri);
    NewRevisionsHold(db, iri);
    NewReferencesHold(db, iri);
  }

  lemma NewHistoriesHold(db: Tables, iri: string)
    requires db.HistoriesHold() && db.clock !in db.resources && db.clock !in db.heads
    requires forall r <- db.resources :: SameState(db, WithResource(db, iri), r)
    ensures WithResource(db, iri).HistoriesHold()
  {
    hide Hydrated;
    var db' := WithResource(db, iri);
    assert db'.HistoryIsStored(db.clock) && Lawful(db'.StateOf(db.clock));
    hide Lawful;
    forall r <- db'.resources ensures db'.HistoryIsStored(r) && Lawful(db'.StateOf(r)) {
      if r != db.clock { assert SameState(db, db', r); }
    }
  }

  lemma NewRevisionsHold(db: Tables, iri: string)
    requires db.RevisionsHold() && db.clock !in db.history
    ensures WithResource(db, iri).RevisionsHold()
  {
  }

  lemma NewReferencesHold(db: Tables, iri: string)
    requires db.ReferencesHold() && !HasIri(db, iri)
    ensures WithResource(db, iri).ReferencesHold()
  {
  }

  /** Rows of known targets mean the same after more resources are registered. */
  lemma {:induction false} JoinedStays(rows: seq<Declared>, resources: map<Uuid, Registered>,
                                       more: map<Uuid, Registered>, source: Uuid)
    requires forall row <- rows :: row.target in resources
    requires forall r <- resources :: r in more && more[r].iri == resources[r].iri
    ensures Joined(rows, more, source) == Joined(rows, resources, source)
  {
    if rows != [] { JoinedStays(rows[1..], resources, more, source); }
  }

  lemma {:induction false} JoinedConcat(some: seq<Declared>, rest: seq<Declared>, resources: map<Uuid, Registered>,
                                        source: Uuid)
    ensures Joined(some + rest, resources, source) == Joined(some, resources, source) + Joined(rest, resources, source)
  {
    if some == [] {
      assert some + rest == rest;
    } else {
      assert (some + rest)[1..] == some[1..] + rest;
      JoinedConcat(some[1..], rest, resources, source);
    }
  }

  lemma {:induction false} JoinedWithout(rows: seq<Declared>, resources: map<Uuid, Registered>, source: Uuid,
                                         other: Uuid)
    ensures Joined(WithoutSource(rows, source), resources, other) == if other == source then multiset{}
            else Joined(rows, resources, other)
  {
    if rows != [] {
      JoinedWithout(rows[1..], resources, source, other);
      var rest := WithoutSource(rows[1..], source);
      assert ([rows[0]] + rest)[1..] == rest && [] + rest == rest;
    }
  }

  /** A resource's row and its history stay as they are. */
  ghost predicate Kept(db: Tables, db': Tables, r: Uuid) {
    r in db.resources && r in db'.resources && db'.resources[r] == db.resources[r] && SameState(db, db', r)
  }

  /** What registering targets changes: nothing but new resources without history. */
  ghost predicate OnlyRegisters(db: Tables, db': Tables) {
    && db.Valid() && db'.Valid()
    && (forall r <- db.resources :: Kept(db, db', r))
    && db'.objects == db.objects && db'.activities == db.activities && db'.addressing == db.addressing
    && db'.revisions == db.revisions && db'.heads == db.heads
    && (forall r <- db'.resources | r !in db.resources :: r !in db.objects)
  }

  lemma RegisteringChains(db: Tables, mid: Tables, db': Tables)
    requires OnlyRegisters(db, mid) && OnlyRegisters(mid, db')
    ensures OnlyRegisters(db, db')
  {
    hide Tables.Valid, Hydrated, Tables.HistoryIsStored;
    forall r <- db.resources ensures Kept(db, db', r) {
      assert Kept(db, mid, r) && Kept(mid, db', r);
    }
  }

  lemma NothingRegistered(db: Tables)
    requires db.Valid()
    ensures OnlyRegisters(db, db)
  {
    hide Lawful, Hydrated;
    forall r <- db.resources ensures Kept(db, db, r) { assert db.HistoryIsStored(r); }
  }

  lemma OneRegistered(db: Tables, iri: string)
    requires db.Valid() && !HasIri(db, iri)
    ensures OnlyRegisters(db, WithResource(db, iri))
  {
    NewResourceIsValid(db, iri);
    hide Lawful, Hydrated, SameState, Tables.HistoriesHold, Tables.RevisionsHold;
    forall r <- db.resources ensures Kept(db, WithResource(db, iri), r) {
      assert SameState(db, WithResource(db, iri), r);
    }
  }

  /** The resource of an IRI, registered now if it was not. */
  method EnsureResource(db: Database, iri: string) returns (id: Uuid)
    requires db.Now().Valid()
    modifies db`resources, db`history, db`clock
    ensures OnlyRegisters(old(db.Now()), db.Now())
    ensures id in db.resources && db.resources[id].iri == iri
  {
    hide Tables.Valid, OnlyRegisters;
    if r :| r in db.resources && db.resources[r].iri == iri {
      NothingRegistered(db.Now());
      return r;
    }
    OneRegistered(db.Now(), iri);
    id := db.clock;
    db.resources := db.resources[id := Registered(iri, Unknown)];
    db.history := db.history[id := []];
    db.clock := db.clock + 1;
    assert db.Now() == WithResource(old(db.Now()), iri);
  }

  // ------------------------------------------------------------ replacing addressing

  /** The current addressing changes, and nothing else but new resources without history. */
  ghost predicate OnlyAddresses(db: Tables, db': Tables) {
    && db.Valid() && db'.Valid()
    && (forall r <- db.resources :: Kept(db, db', r))
    && db'.objects == db.objects && db'.activities == db.activities
    && db'.revisions == db.revisions && db'.heads == db.heads
  }

  lemma AddressingChanges(db: Tables, rows: seq<Declared>)
    requires db.Valid() && forall row <- rows :: row.source in db.resources && row.target in db.resources
    ensures OnlyAddresses(db, db.(addressing := rows))
  {
    hide Lawful, Hydrated;
    var db' := db.(addressing := rows);
    forall r <- db.resources ensures Kept(db, db', r) { assert db.HistoryIsStored(r); }
  }

  lemma AddressingFollows(db: Tables, mid: Tables, db': Tables)
    requires OnlyRegisters(db, mid) && OnlyAddresses(mid, db')
    ensures OnlyAddresses(db, db')
  {
    hide Tables.Valid, Hydrated, Tables.HistoryIsStored;
    forall r <- db.resources ensures Kept(db, db', r) {
      assert Kept(db, mid, r) && Kept(mid, db', r);
    }
  }

  lemma AddressingTwice(db: Tables, mid: Tables, db': Tables)
    requires OnlyAddresses(db, mid) && OnlyAddresses(mid, db')
    ensures OnlyAddresses(db, db')
  {
    hide Tables.Valid, Hydrated, Tables.HistoryIsStored;
    forall r <- db.resources ensures Kept(db, db', r) {
      assert Kept(db, mid, r) && Kept(mid, db', r);
    }
  }

  function IrisOf(occurrences: seq<Occurrence>): (iris: set<string>)
    ensures forall o <- occurrences :: o.iri in iris
  {
    set o <- occurrences :: o.iri
  }

  /** The target rows of a list of occurrences. */
  ghost predicate Targets(resources: map<Uuid, Registered>, targets: map<string, Uuid>) {
    forall iri <- targets :: targets[iri] in resources && resources[targets[iri]].iri == iri
  }

  function RowsOf(source: Uuid, occurrences: seq<Occurrence>, targets: map<string, Uuid>): (rows: seq<Declared>)
    requires forall o <- occurrences :: o.iri in targets
    ensures |rows| == |occurrences|
    ensures forall i | 0 <= i < |rows| ::
      occurrences[i] in occurrences
      && rows[i] == Declared(source, occurrences[i].property, occurrences[i].position, targets[occurrences[i].iri])
  {
    if occurrences == [] then []
    else
      [Declared(source, occurrences[0].property, occurrences[0].position, targets[occurrences[0].iri])]
      + RowsOf(source, occurrences[1..], targets)
  }

  /** Joining the rows of occurrences back with their targets gives the occurrences. */
  lemma {:induction false} JoinedRows(source: Uuid, occurrences: seq<Occurrence>, targets: map<string, Uuid>,
                                      resources: map<Uuid, Registered>, other: Uuid)
    requires Targets(resources, targets) && forall o <- occurrences :: o.iri in targets
    ensures Joined(RowsOf(source, occurrences, targets), resources, other)
         == if other == source then multiset(occurrences) else multiset{}
  {
    if occurrences != [] {
      JoinedRows(source, occurrences[1..], targets, resources, other);
      var rest := RowsOf(source, occurrences[1..], targets);
      var first := Declared(source, occurrences[0].property, occurrences[0].position, targets[occurrences[0].iri]);
      assert RowsOf(source, occurrences, targets) == [first] + rest;
      assert ([first] + rest)[1..] == rest;
      assert occurrences == [occurrences[0]] + occurrences[1..];
      assert multiset(occurrences) == multiset{occurrences[0]} + multiset(occurrences[1..]);
    }
  }

  lemma RowsRefer(db: Tables)
    requires db.Valid()
    ensures forall row <- db.addressing :: row.source in db.resources && row.target in db.resources
  {
  }

  lemma TargetsStay(db: Tables, db': Tables, targets: map<string, Uuid>)
    requires OnlyRegisters(db, db') && Targets(db.resources, targets)
    ensures Targets(db'.resources, targets) && db'.Valid()
  {
    hide Tables.Valid, SameState;
    forall iri <- targets ensures targets[iri] in db'.resources && db'.resources[targets[iri]].iri == iri {
      assert Kept(db, db', targets[iri]);
    }
  }

  lemma NoTargets(resources: map<Uuid, Registered>)
    ensures Targets(resources, map[])
  {
  }

  lemma OneMoreTarget(iris: set<string>, left: set<string>, iri: string, targets: map<string, Uuid>, id: Uuid,
                      resources: map<Uuid, Registered>)
    requires Targets(resources, targets) && id in resources && resources[id].iri == iri
    requires iri in left && left <= iris && targets.Keys == iris - left
    ensures Targets(resources, targets[iri := id]) && targets[iri := id].Keys == iris - (left - {iri})
  {
  }

  /** Registers the IRIs that are not yet known, and returns their resources. */
  method EnsureTargets(db: Database, iris: set<string>) returns (targets: map<string, Uuid>)
    requires db.Now().Valid()
    modifies db`resources, db`history, db`clock
    ensures OnlyRegisters(old(db.Now()), db.Now())
    ensures targets.Keys == iris && Targets(db.resources, targets)
  {
    hide Tables.Valid, Tables.HistoryIsStored, OnlyRegisters, Targets;
    targets := map[];
    assert Targets(db.resources, targets) by { NoTargets(db.resources); }
    var left := iris;
    NothingRegistered(db.Now());
    while left != {}
      invariant OnlyRegisters(old(db.Now()), db.Now()) && db.Now().Valid()
      invariant left <= iris && targets.Keys == iris - left
      invariant Targets(db.resources, targets)
      decreases left
    {
      var iri :| iri in left;
      ghost var before := db.Now();
      var id := EnsureResource(db, iri);
      RegisteringChains(old(db.Now()), before, db.Now());
      TargetsStay(before, db.Now(), targets);
      OneMoreTarget(iris, left, iri, targets, id, db.resources);
      targets := targets[iri := id];
      left := left - {iri};
    }
  }

  /** Stores occurrences of one source, each at its own position. */
  method StoreAddressingOccurrences(db: Database, source: Uuid, occurrences: seq<Occurrence>)
    requires db.Now().Valid() && source in db.resources
    modifies db`resources, db`history, db`clock, db`addressing
    ensures OnlyAddresses(old(db.Now()), db.Now())
    ensures forall r <- old(db.resources) ::
      db.Now().DeclaredOf(r) == old(db.Now()).DeclaredOf(r)
          + (if r == source then multiset(occurrences) else multiset{})
  {
    hide Tables.Valid, Tables.HistoryIsStored, Joined, OnlyRegisters, OnlyAddresses;
    ghost var start := db.Now();
    var targets := EnsureTargets(db, IrisOf(occurrences));
    ghost var known := db.Now();
    ghost var rows := RowsOf(source, occurrences, targets);
    assert rows[..0] == [] && known.addressing + [] == known.addressing;
    for i := 0 to |occurrences|
      invariant db.Now() == known.(addressing := known.addressing + rows[..i])
    {
      var o := occurrences[i];
      assert o in occurrences;
      OneMoreRow(known.addressing, rows, i);
      db.addressing := db.addressing + [Declared(source, o.property, o.position, targets[o.iri])];
    }
    assert rows[..|occurrences|] == rows;
    StoredRows(start, known, source, occurrences, targets);
  }

  lemma OneMoreRow(addressing: seq<Declared>, rows: seq<Declared>, i: nat)
    requires i < |rows|
    ensures addressing + rows[..i] + [rows[i]] == addressing + rows[..i + 1]
  {
  }

  lemma StoredRows(start: Tables, known: Tables, source: Uuid, occurrences: seq<Occurrence>, targets: map<string, Uuid>)
    requires start.Valid() && OnlyRegisters(start, known) && source in start.resources
    requires targets.Keys == IrisOf(occurrences) && Targets(known.resources, targets)
    ensures var db' := known.(addressing := known.addressing + RowsOf(source, occurrences, targets));
            && OnlyAddresses(start, db')
            && forall r <- start.resources ::
                 db'.DeclaredOf(r) == start.DeclaredOf(r) + (if r == source then multiset(occurrences) else multiset{})
  {
    hide Tables.Valid, Tables.HistoryIsStored, Joined, OnlyAddresses;
    var rows := RowsOf(source, occurrences, targets);
    RowsRefer(start);
    RowsRefer(known);
    forall r <- start.resources ensures r in known.resources && known.resources[r].iri == start.resources[r].iri {
      assert Kept(start, known, r);
    }
    assert known.addressing == start.addressing && known.Valid();
    AddressingChanges(known, known.addressing + rows);
    AddressingFollows(start, known, known.(addressing := known.addressing + rows));
    forall r <- start.resources
      ensures Joined(known.addressing + rows, known.resources, r)
           == start.DeclaredOf(r) + (if r == source then multiset(occurrences) else multiset{})
    {
      JoinedConcat(known.addressing, rows, known.resources, r);
      JoinedStays(start.addressing, start.resources, known.resources, r);
      JoinedRows(source, occurrences, targets, known.resources, r);
    }
  }

  /** Replaces the current addressing of one source. */
  method ReplaceAddressing(db: Database, source: Uuid, occurrences: seq<Occurrence>)
    requires db.Now().Valid() && source in db.resources
    modifies db`resources, db`history, db`clock, db`addressing
    ensures OnlyAddresses(old(db.Now()), db.Now())
    ensures forall r <- old(db.resources) ::
      db.Now().DeclaredOf(r) == if r == source then multiset(occurrences) else old(db.Now()).DeclaredOf(r)
  {
    hide Tables.Valid, Tables.HistoryIsStored, Joined, OnlyAddresses;
    ghost var start := db.Now();
    RowsRefer(start);
    AddressingChanges(start, WithoutSource(start.addressing, source));
    db.addressing := WithoutSource(db.addressing, source);
    ghost var mid := db.Now();
    assert mid == start.(addressing := WithoutSource(start.addressing, source));
    AddressesValid(start, mid);
    StoreAddressingOccurrences(db, source, occurrences);
    AddressingTwice(start, mid, db.Now());
    forall r <- start.resources
      ensures db.Now().DeclaredOf(r) == if r == source then multiset(occurrences) else start.DeclaredOf(r)
    {
      JoinedWithout(start.addressing, start.resources, source, r);
    }
  }

  lemma AddressesValid(db: Tables, db': Tables)
    requires OnlyAddresses(db, db')
    ensures db'.Valid() && db'.resources.Keys >= db.resources.Keys
  {
    hide Tables.Valid, SameState;
    forall r <- db.resources ensures r in db'.resources { assert Kept(db, db', r); }
  }

  // ------------------------------------------------------------ coordinated writes

  datatype TypedDraft =
    | TypedSnapshot(document: string, columns: nat, updated: int, occurrences: seq<Occurrence>,
                    relations: seq<Relation>, projection: Projection)
    | TypedWhiteout(deleted: int, formerTypes: seq<string>)

  function DraftOf(draft: TypedDraft): Draft {
    match draft
    case TypedSnapshot(document, _, _, occurrences, relations, projection) =>
        NewSnapshot(document, Local, projection, occurrences, relations)
    case TypedWhiteout(deleted, formerTypes) => NewWhiteout(deleted, formerTypes)
  }

  /** The typed row after the write: a new document is local, a deletion keeps everything else. */
  function RowAfter(row: TypedObject, draft: TypedDraft): TypedObject {
    match draft
    case TypedSnapshot(document, columns, updated, _, _, _) =>
      row.(document := document, columns := columns, updated := updated, fetched := false)
    case TypedWhiteout(deleted, _) => row.(deleted := Some(deleted))
  }

  /** The live typed row and its addressing equal the snapshot its head holds. */
  ghost predicate SameTypedState(db: Tables, r: Uuid, head: Revision) {
    && r in db.objects && db.objects[r].deleted.None?
    && head.content == Snapshot(db.objects[r].document)
    && db.DeclaredOf(r) == multiset(head.addressing)
  }

  /** A versioned typed row agrees with its history: live with a snapshot head, deleted with a whiteout head. */
  ghost predicate Agrees(history: seq<Revision>, row: TypedObject, addressing: multiset<Occurrence>)
    requires history != []
  {
    var head := Head(history).value;
    && addressing == multiset(head.addressing)
    && (if row.deleted.None? then head.content == Snapshot(row.document) else head.content.Whiteout?)
  }

  ghost predicate InStep(db: Tables, r: Uuid) {
    r in db.objects && r in db.resources && db.HistoryIsStored(r) && db.history[r] != [] ==>
      Agrees(db.StateOf(r).history, db.objects[r], db.DeclaredOf(r))
  }

  /** Why a coordinated write is refused, in the order the checks run. */
  ghost function TypedRefusal(db: Tables, r: Uuid, expected: Option<Uuid>, draft: TypedDraft): Option<Refusal>
    requires db.Valid()
  {
    if draft.TypedSnapshot? && !WellFormed(draft.occurrences) then Some(Malformed)
    else if expected.None? then Some(Malformed)
    else if r !in db.resources || db.resources[r].kind != Object || r !in db.objects then Some(LegacyRevision)
    else
      var history := db.StateOf(r).history;
      if HeadId(history) != expected then Some(RevisionConflict(expected, HeadId(history)))
      else if Head(history).value.content.Whiteout? then Some(Deleted)
      else if !SameTypedState(db, r, Head(history).value) then Some(LegacyRevision)
      else None
  }

  /** Two selections of occurrences without anything left over on either side are the same selection. */
  method CompareTypedState(db: Database, r: Uuid, head: Revision) returns (same: bool)
    ensures same <==> SameTypedState(db.Now(), r, head)
  {
    if r !in db.objects || db.objects[r].deleted.Some? { return false; }
    var document := match head.content case Snapshot(document) => Some(document) case _ => None;
    var saved, declared := multiset(head.addressing), Joined(db.addressing, db.resources, r);
    ExceptAllBothEmpty(saved, declared);
    same := document == Some(db.objects[r].document)
            && ExceptAll(saved, declared) == multiset{} && ExceptAll(declared, saved) == multiset{};
  }

  /** The tables once the typed row is written. */
  ghost function WithRow(db: Tables, r: Uuid, row: TypedObject): Tables {
    db.(objects := db.objects[r := row])
  }

  lemma RowChanges(db: Tables, r: Uuid, row: TypedObject)
    requires db.Valid() && r in db.objects && r in db.resources
    ensures WithRow(db, r, row).Valid()
    ensures forall other <- db.resources :: Kept(db, WithRow(db, r, row), other)
  {
    hide Lawful, Hydrated;
    var db' := WithRow(db, r, row);
    forall other <- db.resources ensures Kept(db, db', other) { assert db.HistoryIsStored(other); }
    RowHistoriesHold(db, r, row);
  }

  lemma RowHistoriesHold(db: Tables, r: Uuid, row: TypedObject)
    requires db.HistoriesHold() && forall other <- db.resources :: Kept(db, WithRow(db, r, row), other)
    ensures WithRow(db, r, row).HistoriesHold()
  {
    hide Lawful, Hydrated;
    forall other <- db.resources
      ensures WithRow(db, r, row).HistoryIsStored(other) && Lawful(WithRow(db, r, row).StateOf(other))
    {
      assert Kept(db, WithRow(db, r, row), other);
    }
  }

  /** What one coordinated write does: refused without a trace, or row, addressing and history together. */
  ghost predicate TypedOutcome(db: Tables, r: Uuid, expected: Option<Uuid>, draft: TypedDraft, db': Tables,
                               result: Result<Revision, Refusal>)
  {
    && db.Valid() && db'.Valid()
    && match TypedRefusal(db, r, expected, draft)
       case Some(refusal) => result == Err(refusal) && db' == db
       case None => result.Ok? && TypedWritten(db, r, draft, db', result.value)
  }

  ghost predicate TypedWritten(db: Tables, r: Uuid, draft: TypedDraft, db': Tables, revision: Revision) {
    && r in db.resources && r in db.objects && db.HistoryIsStored(r) && r in db'.resources && db'.HistoryIsStored(r)
    && db.StateOf(r).history != []
    && revision == Stored(db.StateOf(r).history, DraftOf(draft), revision.id)
    && db'.StateOf(r).history == db.StateOf(r).history + [revision]
    && db'.objects == db.objects[r := RowAfter(db.objects[r], draft)]
    && InStep(db', r)
    && (draft.TypedSnapshot? ==> db'.DeclaredOf(r) == multiset(draft.occurrences))
    && (draft.TypedWhiteout? ==> db'.DeclaredOf(r) == db.DeclaredOf(r))
    && (forall other <- db.resources | other != r ::
          SameState(db, db', other) && db'.DeclaredOf(other) == db.DeclaredOf(other))
  }

  /** The addressing step: replaced for a snapshot, untouched for a whiteout. */
  ghost predicate AddressingStep(db: Tables, r: Uuid, draft: TypedDraft, db': Tables) {
    && OnlyAddresses(db, db')
    && (forall other <- db.resources ::
          db'.DeclaredOf(other) == if other == r && draft.TypedSnapshot? then multiset(draft.occurrences)
            else db.DeclaredOf(other))
  }

  /** The revision a coordinated write appends to an object whose head is a live snapshot. */
  lemma CoordinatedAppend(state: State, expected: Option<Uuid>, draft: TypedDraft, id: Uuid)
    requires Lawful(state) && state.kind == Object && expected.Some? && HeadId(state.history) == expected
    requires Head(state.history).value.content.Snapshot?
    ensures var appended := Appended(state, Request(Object, expected, DraftOf(draft)), true, id);
            && appended.Ok?
            && appended.value == state.(history := state.history + [Stored(state.history, DraftOf(draft), id)])
  {
  }

  lemma DeclaredAfterAppend(db: Tables, r: Uuid, request: Request, coordinated: bool, db': Tables,
                            result: Result<Revision, Refusal>, other: Uuid)
    requires Outcome(db, r, request, coordinated, db', result)
    ensures db'.DeclaredOf(other) == db.DeclaredOf(other)
  {
    hide Tables.HistoriesHold, Tables.RevisionsHold, Tables.IdentifiersHold, Tables.StateOf, Appended, SameState,
         Joined;
    JoinedStays(db.addressing, db.resources, db'.resources, other);
  }

  /** After the typed row and its addressing are written, the append cannot be refused, and leaves all in step. */
  lemma WriteLands(db: Tables, r: Uuid, expected: Option<Uuid>, draft: TypedDraft, mid: Tables, db': Tables,
                   result: Result<Revision, Refusal>)
    requires db.Valid() && TypedRefusal(db, r, expected, draft).None?
    requires AddressingStep(WithRow(db, r, RowAfter(db.objects[r], draft)), r, draft, mid)
    requires Outcome(mid, r, Request(Object, expected, DraftOf(draft)), true, db', result)
    ensures TypedOutcome(db, r, expected, draft, db', result)
  {
    hide Lawful, Hydrated, Tables.RevisionsHold, Tables.ReferencesHold, Tables.IdentifiersHold, Appended, Joined,
         WellFormed, Tables.Valid;
    var first := WithRow(db, r, RowAfter(db.objects[r], draft));
    assert db.HistoryIsStored(r) && Lawful(db.StateOf(r)) by { StoredAndLawful(db, r); }
    RowChanges(db, r, RowAfter(db.objects[r], draft));
    assert Kept(db, first, r) && Kept(first, mid, r);
    var state := db.StateOf(r);
    assert mid.StateOf(r) == state;
    CoordinatedAppend(state, expected, draft, mid.clock);
    var revision := Stored(state.history, DraftOf(draft), mid.clock);
    assert result == Ok(revision) && db'.StateOf(r).history == state.history + [revision];
    DeclaredAfterAppend(mid, r, Request(Object, expected, DraftOf(draft)), true, db', result, r);
    assert InStep(db', r);
    forall other <- db.resources | other != r
      ensures SameState(db, db', other) && db'.DeclaredOf(other) == db.DeclaredOf(other) {
      assert Kept(db, first, other) && Kept(first, mid, other) && SameState(mid, db', other);
      DeclaredAfterAppend(mid, r, Request(Object, expected, DraftOf(draft)), true, db', result, other);
    }
  }

  lemma StoredAndLawful(db: Tables, r: Uuid)
    requires db.Valid() && r in db.resources
    ensures db.HistoryIsStored(r) && Lawful(db.StateOf(r))
  {
  }

  /**
   * Edits or deletes an object that has a typed row.  Either every check passes and the row, its
   * addressing and its history change together, or nothing does.
   */
  method WriteTypedResourceRevision(db: Database, r: Uuid, expected: Option<Uuid>, draft: TypedDraft)
    returns (result: Result<Revision, Refusal>)
    requires db.Now().Valid()
    modifies db
    ensures TypedOutcome(old(db.Now()), r, expected, draft, db.Now(), result)
  {
    hide Lawful, Hydrated, TypedOutcome, SameTypedState, OnlyAddresses, WellFormed, Tables.RevisionsHold,
         Tables.ReferencesHold, Tables.IdentifiersHold;
    ghost var start := db.Now();
    if draft.TypedSnapshot? {
      var ok := CheckAddressingOccurrences(draft.occurrences);
      if !ok { RefusedTyped(start, r, expected, draft, Malformed); return Err(Malformed); }
    }
    if expected.None? { RefusedTyped(start, r, expected, draft, Malformed); return Err(Malformed); }
    if r !in db.resources || db.resources[r].kind != Object || r !in db.objects {
      RefusedTyped(start, r, expected, draft, LegacyRevision);
      return Err(LegacyRevision);
    }
    var head := db.Current(r);
    var actual := if head.Some? then Some(head.value.id) else None;
    if actual != expected {
      RefusedTyped(start, r, expected, draft, RevisionConflict(expected, actual));
      return Err(RevisionConflict(expected, actual));
    }
    if head.value.content.Whiteout? { RefusedTyped(start, r, expected, draft, Deleted); return Err(Deleted); }
    var same := CompareTypedState(db, r, head.value);
    if !same { RefusedTyped(start, r, expected, draft, LegacyRevision); return Err(LegacyRevision); }
    hide Tables.Valid, Outcome;
    RowChanges(start, r, RowAfter(start.objects[r], draft));
    db.objects := db.objects[r := RowAfter(db.objects[r], draft)];
    ghost var first := db.Now();
    assert first == WithRow(start, r, RowAfter(start.objects[r], draft));
    if draft.TypedSnapshot? {
      ReplaceAddressing(db, r, draft.occurrences);
    } else {
      NothingAddressed(first);
    }
    ghost var mid := db.Now();
    AddressesValid(first, mid);
    result := db.AppendPrepared(r, Request(Object, expected, DraftOf(draft)), true);
    WriteLands(start, r, expected, draft, mid, db.Now(), result);
  }

  lemma NothingAddressed(db: Tables)
    requires db.Valid()
    ensures OnlyAddresses(db, db)
  {
    RowsRefer(db);
    AddressingChanges(db, db.addressing);
  }

  lemma RefusedTyped(db: Tables, r: Uuid, expected: Option<Uuid>, draft: TypedDraft, refusal: Refusal)
    requires db.Valid() && TypedRefusal(db, r, expected, draft) == Some(refusal)
    ensures TypedOutcome(db, r, expected, draft, db, Err(refusal))
  {
    hide Lawful, Hydrated;
  }

  /** A coordinated write goes through exactly on a live object in step with the head it expects. */
  lemma WrittenExactlyWhen(db: Tables, r: Uuid, expected: Option<Uuid>, draft: TypedDraft, db': Tables,
                           result: Result<Revision, Refusal>)
    requires TypedOutcome(db, r, expected, draft, db', result)
    ensures result.Ok? <==>
              && (draft.TypedSnapshot? ==> WellFormed(draft.occurrences))
              && r in db.resources && db.resources[r].kind == Object && r in db.objects && db.HistoryIsStored(r)
              && var history := db.StateOf(r).history;
                 && history != [] && expected == Some(history[|history| - 1].id)
                 && var head, row := history[|history| - 1], db.objects[r];
                    && row.deleted.None? && head.content == Snapshot(row.document)
                    && db.DeclaredOf(r) == multiset(head.addressing)
    ensures result.Err? ==> db' == db
  {
    hide Lawful, Hydrated, Joined, WellFormed;
    if r in db.resources { StoredAndLawful(db, r); }
  }

  /** What a coordinated write leaves in the typed rows, column by column. */
  lemma TypedRowsInWords(db: Tables, r: Uuid, expected: Option<Uuid>, draft: TypedDraft, db': Tables,
                         result: Result<Revision, Refusal>)
    requires TypedOutcome(db, r, expected, draft, db', result) && result.Ok?
    ensures r in db.objects && db'.objects.Keys == db.objects.Keys
    ensures forall other <- db.objects | other != r :: db'.objects[other] == db.objects[other]
    ensures var before, after := db.objects[r], db'.objects[r];
            && (draft.TypedSnapshot? ==>
                  && after.document == draft.document && after.columns == draft.columns
                  && after.updated == draft.updated && !after.fetched && after.deleted == before.deleted == None)
            && (draft.TypedWhiteout? ==>
                  && after.deleted == Some(draft.deleted) && after.document == before.document
                  && after.columns == before.columns && after.updated == before.updated
                  && after.fetched == before.fetched)
  {
    hide Lawful, Hydrated, Joined, WellFormed, Tables.Valid;
  }

  /** What a coordinated write appends to the history, part by part. */
  lemma TypedRevisionsInWords(db: Tables, r: Uuid, expected: Option<Uuid>, draft: TypedDraft, db': Tables,
                              result: Result<Revision, Refusal>)
    requires TypedOutcome(db, r, expected, draft, db', result) && result.Ok?
    ensures r in db.resources && db.HistoryIsStored(r) && r in db'.resources && db'.HistoryIsStored(r)
    ensures var before, added := db.StateOf(r).history, result.value;
            && before != [] && db'.StateOf(r).history == before + [added]
            && added.sequence == |before| + 1
            && var replaced := before[|before| - 1];
               && (draft.TypedSnapshot? ==>
                     && added.content == Snapshot(draft.document) && added.capture == Local
                     && added.projection == draft.projection && added.addressing == draft.occurrences
                     && added.relations == draft.relations)
               && (draft.TypedWhiteout? ==>
                     && added.content == Whiteout(draft.deleted, draft.formerTypes)
                     && added.capture == replaced.capture && added.projection == replaced.projection
                     && added.addressing == replaced.addressing && added.relations == replaced.relations)
  {
    hide Lawful, Hydrated, Joined, WellFormed, Tables.Valid;
  }

  /** Being in step survives every coordinated write, whatever its outcome. */
  lemma WritesKeepStep(db: Tables, r: Uuid, expected: Option<Uuid>, draft: TypedDraft, db': Tables,
                       result: Result<Revision, Refusal>, other: Uuid)
    requires TypedOutcome(db, r, expected, draft, db', result)
    requires other in db.resources && InStep(db, other)
    ensures other in db'.resources && InStep(db', other)
  {
    hide Lawful, Hydrated, Tables.Valid, Joined, TypedRefusal, RowAfter;
    if result.Ok? && other != r {
      assert SameState(db, db', other);
    }
  }

  /** And every plain append: it never touches a resource with a typed row. */
  lemma AppendsKeepStep(db: Tables, r: Uuid, request: Request, db': Tables, result: Result<Revision, Refusal>,
                        other: Uuid)
    requires Outcome(db, r, request, false, db', result)
    requires other in db.resources && InStep(db, other)
    ensures other in db'.resources && InStep(db', other)
  {
    hide Lawful, Hydrated, Tables.Valid, Joined;
    DeclaredAfterAppend(db, r, request, false, db', result, other);
    if other != r { assert SameState(db, db', other); }
  }

  /** And the registration of new resources. */
  lemma RegisteringKeepsStep(db: Tables, db': Tables, other: Uuid)
    requires OnlyRegisters(db, db') && other in db.resources && InStep(db, other)
    ensures other in db'.resources && InStep(db', other)
  {
    hide Lawful, Hydrated;
    assert Kept(db, db', other);
    RowsRefer(db);
    JoinedStays(db.addressing, db.resources, db'.resources, other);
  }

  /** One transaction on the tables, with its answer. */
  datatype Write =
    | Coordinated(resource: Uuid, expected: Option<Uuid>, draft: TypedDraft, result: Result<Revision, Refusal>)
    | Plain(resource: Uuid, request: Request, result: Result<Revision, Refusal>)
    | Registration

  ghost predicate Written(db: Tables, write: Write, db': Tables) {
    match write
    case Coordinated(r, expected, draft, result) => TypedOutcome(db, r, expected, draft, db', result)
    case Plain(r, request, result) => Outcome(db, r, request, false, db', result)
    case Registration => OnlyRegisters(db, db')
  }

  ghost predicate IsWriting(states: seq<Tables>, writes: seq<Write>) {
    |states| == |writes| + 1 && forall i | 0 <= i < |writes| :: Written(states[i], writes[i], states[i + 1])
  }

  /** In every run of writes, a resource that starts in step stays in step. */
  lemma {:induction false} RunsStayInStep(states: seq<Tables>, writes: seq<Write>, i: nat, other: Uuid)
    requires IsWriting(states, writes) && i < |states| && other in states[0].resources && InStep(states[0], other)
    ensures other in states[i].resources && InStep(states[i], other)
  {
    hide InStep, TypedOutcome, Outcome, OnlyRegisters;
    if i > 0 {
      RunsStayInStep(states, writes, i - 1, other);
      assert Written(states[i - 1], writes[i - 1], states[i]);
      match writes[i - 1]
      case Coordinated(r, expected, draft, result) =>
          WritesKeepStep(states[i - 1], r, expected, draft, states[i], result, other);
      case Plain(r, request, result) => AppendsKeepStep(states[i - 1], r, request, states[i], result, other);
      case Registration => RegisteringKeepsStep(states[i - 1], states[i], other);
    }
  }
}
