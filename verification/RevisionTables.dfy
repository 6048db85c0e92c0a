/** The resource, revision, head and projection tables, and the statements an append runs on them. */
module RevisionTables {
  import opened Wrappers
  import opened RevisionHistory

  datatype Registered = Registered(iri: string, kind: ResourceKind)
  datatype RevisionRow = RevisionRow(resource: Uuid, sequence: nat, content: Content, capture: Capture,
                                     projection: Projection)
  datatype TypedObject = TypedObject(document: string, deleted: Option<int>, updated: int, columns: nat, fetched: bool)
  datatype Declared = Declared(source: Uuid, property: AddressingProperty, position: int, target: Uuid)

  /** The addressing rows of a source, joined with the IRIs of their targets. */
  function Joined(rows: seq<Declared>, resources: map<Uuid, Registered>, source: Uuid): multiset<Occurrence> {
    if rows == [] then multiset{}
    else
      (if rows[0].source == source && rows[0].target in resources
       then multiset{Occurrence(rows[0].property, rows[0].position, resources[rows[0].target].iri)} else multiset{})
      + Joined(rows[1..], resources, source)
  }

  function WithoutSource(rows: seq<Declared>, source: Uuid): (kept: seq<Declared>)
    ensures forall row <- kept :: row in rows && row.source != source
  {
    if rows == [] then [] else (if rows[0].source == source then [] else [rows[0]]) + WithoutSource(rows[1..], source)
  }

  /** The occurrences two projections share, with multiplicity, taken away from the first. */
  function ExceptAll(some: multiset<Occurrence>, others: multiset<Occurrence>): multiset<Occurrence> {
    some - others
  }

  /** Two empty differences mean the same occurrences, each as often. */
  lemma ExceptAllBothEmpty(some: multiset<Occurrence>, others: multiset<Occurrence>)
    ensures ExceptAll(some, others) == multiset{} && ExceptAll(others, some) == multiset{} <==> some == others
  {
    if ExceptAll(some, others) == multiset{} && ExceptAll(others, some) == multiset{} {
      forall o: Occurrence ensures some[o] == others[o] {
        assert ExceptAll(some, others)[o] == 0 && ExceptAll(others, some)[o] == 0;
      }
    }
  }

  function RevisionAt(id: Uuid, row: RevisionRow, addressing: seq<Occurrence>, relations: seq<Relation>): Revision {
    Revision(id, row.sequence, row.content, row.capture, row.projection, addressing, relations)
  }

  /** The revisions with the given identifiers, with their projections. */
  function Hydrated(ids: seq<Uuid>, revisions: map<Uuid, RevisionRow>, addressing: map<Uuid, seq<Occurrence>>,
                    relations: map<Uuid, seq<Relation>>): (hydrated: seq<Revision>)
    requires forall id <- ids :: id in revisions && id in addressing && id in relations
    ensures |hydrated| == |ids|
    ensures forall k | 0 <= k < |ids| ::
      ids[k] in ids && hydrated[k] == RevisionAt(ids[k], revisions[ids[k]], addressing[ids[k]], relations[ids[k]])
  {
    if ids == [] then []
    else
      [RevisionAt(ids[0], revisions[ids[0]], addressing[ids[0]], relations[ids[0]])]
      + Hydrated(ids[1..], revisions, addressing, relations)
  }

  lemma {:induction false} HydratedIgnores(ids: seq<Uuid>, revisions: map<Uuid, RevisionRow>,
                                           addressing: map<Uuid, seq<Occurrence>>, relations: map<Uuid, seq<Relation>>,
                                             id: Uuid, row: RevisionRow, occurrences: seq<Occurrence>,
                                               links: seq<Relation>)
    requires forall other <- ids :: other in revisions && other in addressing && other in relations
    requires id !in ids
    ensures Hydrated(ids, revisions[id := row], addressing[id := occurrences], relations[id := links])
         == Hydrated(ids, revisions, addressing, relations)
  {
    if ids != [] { HydratedIgnores(ids[1..], revisions, addressing, relations, id, row, occurrences, links); }
  }

  lemma HydratedMore(ids: seq<Uuid>, id: Uuid, revisions: map<Uuid, RevisionRow>,
                     addressing: map<Uuid, seq<Occurrence>>, relations: map<Uuid, seq<Relation>>)
    requires forall other <- ids + [id] :: other in revisions && other in addressing && other in relations
    ensures forall other <- ids :: other in revisions && other in addressing && other in relations
    ensures Hydrated(ids + [id], revisions, addressing, relations)
         == Hydrated(ids, revisions, addressing, relations)
             + [RevisionAt(id, revisions[id], addressing[id], relations[id])]
  {
    hide Hydrated;
    assert forall other <- ids :: other in ids + [id];
    assert forall k | 0 <= k < |ids| :: (ids + [id])[k] == ids[k];
    assert (ids + [id])[|ids|] == id;
  }

  // ------------------------------------------------------------ what the tables say

  /**
   * The contents of the tables.  `clock` is larger than every identifier given out so far; `history`
   * lists the revisions of each resource, oldest first.
   */
  datatype Tables = Tables(
    resources: map<Uuid, Registered>, revisions: map<Uuid, RevisionRow>, heads: map<Uuid, Uuid>,
    savedAddressing: map<Uuid, seq<Occurrence>>, savedRelations: map<Uuid, seq<Relation>>,
    objects: map<Uuid, TypedObject>, activities: set<Uuid>, addressing: seq<Declared>,
    clock: int, history: map<Uuid, seq<Uuid>>)
  {
    ghost predicate HistoryIsStored(r: Uuid) {
      && r in history && (r in heads <==> history[r] != [])
      && (forall id <- history[r] ::
            id in revisions && id in savedAddressing && id in savedRelations && revisions[id].resource == r)
      && (r in heads ==> heads[r] == history[r][|history[r]| - 1])
    }

    ghost function HistoryOf(r: Uuid): seq<Revision>
      requires HistoryIsStored(r)
    {
      Hydrated(history[r], revisions, savedAddressing, savedRelations)
    }

    ghost function StateOf(r: Uuid): State
      requires r in resources && HistoryIsStored(r)
    {
      State(resources[r].kind, HistoryOf(r), r in objects || r in activities)
    }

    /** The current addressing of a resource, as served. */
    ghost function DeclaredOf(r: Uuid): multiset<Occurrence> {
      Joined(addressing, resources, r)
    }

    /** Every resource has a lawful history, whose last revision is the head. */
    ghost predicate HistoriesHold() {
      && history.Keys == resources.Keys && heads.Keys <= resources.Keys
      && (forall r <- resources :: HistoryIsStored(r) && Lawful(StateOf(r)))
    }

    /** Every revision belongs to the history of its resource. */
    ghost predicate RevisionsHold() {
      && savedAddressing.Keys == revisions.Keys == savedRelations.Keys
      && (forall id <- revisions :: revisions[id].resource in history && id in history[revisions[id].resource])
    }

    /** One row per IRI, and no reference to a missing one. */
    ghost predicate ReferencesHold() {
      && objects.Keys <= resources.Keys && activities <= resources.Keys
      && (forall r, s | r in resources && s in resources && resources[r].iri == resources[s].iri :: r == s)
      && (forall row <- addressing :: row.source in resources && row.target in resources)
    }

    ghost predicate IdentifiersHold() {
      (forall r <- resources :: r < clock) && (forall id <- revisions :: id < clock)
    }

    ghost predicate Valid() {
      HistoriesHold() && RevisionsHold() && ReferencesHold() && IdentifiersHold()
    }
  }

  /** A revision inserted and made the head of its resource. */
  ghost function Published(db: Tables, r: Uuid, id: Uuid, row: RevisionRow, occurrences: seq<Occurrence>,
                           links: seq<Relation>): Tables
    requires r in db.history
  {
    db.(revisions := db.revisions[id := row], savedAddressing := db.savedAddressing[id := occurrences],
        savedRelations := db.savedRelations[id := links], heads := db.heads[r := id],
        history := db.history[r := db.history[r] + [id]])
  }

  lemma PublishedState(db: Tables, r: Uuid, id: Uuid, row: RevisionRow, occurrences: seq<Occurrence>,
                       links: seq<Relation>)
    requires r in db.resources && db.HistoryIsStored(r) && id !in db.revisions && row.resource == r
    ensures var db' := Published(db, r, id, row, occurrences, links);
            && db'.HistoryIsStored(r)
            && db'.StateOf(r)
                 == db.StateOf(r).(history := db.StateOf(r).history + [RevisionAt(id, row, occurrences, links)])
  {
    hide Hydrated;
    var db' := Published(db, r, id, row, occurrences, links);
    HydratedIgnores(db.history[r], db.revisions, db.savedAddressing, db.savedRelations, id, row, occurrences, links);
    HydratedMore(db.history[r], id, db'.revisions, db'.savedAddressing, db'.savedRelations);
  }

  lemma PublishedElsewhere(db: Tables, r: Uuid, id: Uuid, row: RevisionRow, occurrences: seq<Occurrence>,
                           links: seq<Relation>, other: Uuid)
    requires r in db.history && other in db.resources && db.HistoryIsStored(other) && id !in db.revisions && other != r
    ensures var db' := Published(db, r, id, row, occurrences, links);
            db'.HistoryIsStored(other) && db'.StateOf(other) == db.StateOf(other)
  {
    hide Hydrated;
    HydratedIgnores(db.history[other], db.revisions, db.savedAddressing, db.savedRelations, id, row, occurrences,
                    links);
  }

  lemma PublishedHistoriesHold(db: Tables, r: Uuid, id: Uuid, row: RevisionRow, occurrences: seq<Occurrence>,
                               links: seq<Relation>)
    requires db.HistoriesHold() && r in db.resources && id !in db.revisions && row.resource == r
    requires Lawful(db.StateOf(r).(history := db.StateOf(r).history + [RevisionAt(id, row, occurrences, links)]))
    ensures Published(db, r, id, row, occurrences, links).HistoriesHold()
  {
    hide Lawful, Hydrated;
    var db' := Published(db, r, id, row, occurrences, links);
    PublishedState(db, r, id, row, occurrences, links);
    forall other <- db'.resources ensures db'.HistoryIsStored(other) && Lawful(db'.StateOf(other)) {
      if other != r { PublishedElsewhere(db, r, id, row, occurrences, links, other); }
    }
  }

  lemma PublishedRevisionsHold(db: Tables, r: Uuid, id: Uuid, row: RevisionRow, occurrences: seq<Occurrence>,
                               links: seq<Relation>)
    requires db.RevisionsHold() && r in db.history && id !in db.revisions && row.resource == r
    ensures Published(db, r, id, row, occurrences, links).RevisionsHold()
  {
    var db' := Published(db, r, id, row, occurrences, links);
    assert (db.history[r] + [id])[|db.history[r]|] == id;
    assert db'.savedAddressing.Keys == db'.revisions.Keys == db'.savedRelations.Keys;
  }

  lemma PublishedIsValid(db: Tables, r: Uuid, id: Uuid, row: RevisionRow, occurrences: seq<Occurrence>,
                         links: seq<Relation>)
    requires db.Valid() && r in db.resources && id !in db.revisions && id < db.clock && row.resource == r
    requires db.HistoryIsStored(r)
    requires Lawful(db.StateOf(r).(history := db.StateOf(r).history + [RevisionAt(id, row, occurrences, links)]))
    ensures Published(db, r, id, row, occurrences, links).Valid()
  {
    PublishedHistoriesHold(db, r, id, row, occurrences, links);
    PublishedRevisionsHold(db, r, id, row, occurrences, links);
    hide Lawful, Hydrated, Tables.HistoriesHold, Tables.RevisionsHold;
  }

  lemma HistoryIsOld(db: Tables, r: Uuid)
    requires db.Valid() && r in db.resources
    ensures db.clock !in db.revisions && FreshIn(db.StateOf(r).history, db.clock) && Lawful(db.StateOf(r))
  {
    hide Lawful;
  }

  lemma ClockMoves(db: Tables)
    requires db.Valid()
    ensures var db' := db.(clock := db.clock + 1);
            db'.Valid() && forall r <- db.resources :: db'.HistoryIsStored(r) && db'.StateOf(r) == db.StateOf(r)
  {
    hide Lawful, Hydrated;
    var db' := db.(clock := db.clock + 1);
    forall r <- db.resources ensures db'.HistoryIsStored(r) && db'.StateOf(r) == db.StateOf(r) {
      assert db.HistoryIsStored(r);
    }
  }

  /** The kind of a resource is settled. */
  lemma KindSettles(db: Tables, r: Uuid, kind: ResourceKind)
    requires db.Valid() && r in db.resources && Lawful(db.StateOf(r).(kind := kind))
    ensures var db' := db.(resources := db.resources[r := db.resources[r].(kind := kind)]);
            && db'.Valid() && db'.StateOf(r) == db.StateOf(r).(kind := kind)
            && forall other <- db.resources | other != r :: db'.StateOf(other) == db.StateOf(other)
  {
    hide Lawful, Hydrated;
    var db' := db.(resources := db.resources[r := db.resources[r].(kind := kind)]);
    assert db'.resources.Keys == db.resources.Keys;
    forall other <- db.resources
      ensures db'.HistoryIsStored(other)
           && db'.StateOf(other) == if other == r then db.StateOf(r).(kind := kind) else db.StateOf(other)
    {
      assert db.HistoryIsStored(other);
    }
  }

  /** Whether an append that passed the checks finds the resource's kind undecided or already right. */
  lemma AcceptedKind(state: State, request: Request, coordinated: bool)
    requires Lawful(state) && request.Valid() && Refused(state, request, coordinated).None?
    ensures Lawful(state.(kind := request.kind))
  {
  }

  /** The row built from the head read under the lock is the one the history calls for. */
  lemma FollowsHead(state: State, r: Uuid, request: Request, coordinated: bool, id: Uuid, row: RevisionRow,
                    occurrences: seq<Occurrence>, links: seq<Relation>)
    requires Lawful(state) && request.Valid() && FreshIn(state.history, id)
             && Refused(state, request, coordinated).None?
    requires IsNext(Head(state.history), r, request.draft, row, occurrences, links)
    ensures var revision := RevisionAt(id, row, occurrences, links);
            && Appended(state, request, coordinated, id)
                 == Ok(state.(kind := request.kind, history := state.history + [revision]))
            && Lawful(state.(kind := request.kind, history := state.history + [revision]))
  {
    AppendKeepsLaw(state, request, coordinated, id);
  }

  /** The row and projections that an append builds from the head read under the lock. */
  ghost predicate IsNext(previous: Option<Revision>, r: Uuid, draft: Draft, row: RevisionRow,
                         occurrences: seq<Occurrence>, links: seq<Relation>)
  {
    && row.sequence == (if previous.Some? then previous.value.sequence + 1 else 1)
    && match draft
       case NewSnapshot(document, capture, projection, addressing, relations) =>
         && row == RevisionRow(r, row.sequence, Snapshot(document), capture, projection)
         && occurrences == addressing && links == relations
       case NewWhiteout(deleted, formerTypes) =>
         && previous.Some? && occurrences == previous.value.addressing && links == previous.value.relations
         && row == RevisionRow(r, row.sequence, Whiteout(deleted, formerTypes), previous.value.capture,
                               previous.value.projection)
  }

  ghost function Settled(db: Tables, r: Uuid, kind: ResourceKind): Tables
    requires r in db.resources
  {
    db.(resources := db.resources[r := db.resources[r].(kind := kind)], clock := db.clock + 1)
  }

  lemma SettledIsValid(db: Tables, r: Uuid, request: Request, coordinated: bool)
    requires db.Valid() && request.Valid() && r in db.resources && db.HistoryIsStored(r)
    requires Refused(db.StateOf(r), request, coordinated).None?
    ensures var db' := Settled(db, r, request.kind);
            && db'.Valid() && db.clock !in db'.revisions && db.clock < db'.clock
            && db'.HistoryIsStored(r) && db'.StateOf(r) == db.StateOf(r).(kind := request.kind)
            && forall other <- db.resources | other != r :: SameState(db, db', other)
  {
    var settled := db.(resources := db.resources[r := db.resources[r].(kind := request.kind)]);
    HistoryIsOld(db, r);
    AcceptedKind(db.StateOf(r), request, coordinated);
    KindSettles(db, r, request.kind);
    ClockMoves(settled);
    hide Lawful, Refused, Hydrated;
    assert settled.(clock := settled.clock + 1) == Settled(db, r, request.kind);
  }

  lemma AppendLands(db: Tables, r: Uuid, request: Request, coordinated: bool, row: RevisionRow,
                    occurrences: seq<Occurrence>, links: seq<Relation>)
    requires db.Valid() && request.Valid() && r in db.resources && db.HistoryIsStored(r)
    requires Refused(db.StateOf(r), request, coordinated).None? && row.resource == r
    requires IsNext(Head(db.StateOf(r).history), r, request.draft, row, occurrences, links)
    ensures Outcome(db, r, request, coordinated,
                    Published(Settled(db, r, request.kind), r, db.clock, row, occurrences, links),
                    Ok(RevisionAt(db.clock, row, occurrences, links)))
  {
    hide Lawful, Refused, Hydrated, Appended, Tables.Valid, Tables.StateOf, SameState, Published;
    var state, revision := db.StateOf(r), RevisionAt(db.clock, row, occurrences, links);
    var settled := Settled(db, r, request.kind);
    HistoryIsOld(db, r);
    FollowsHead(state, r, request, coordinated, db.clock, row, occurrences, links);
    SettledIsValid(db, r, request, coordinated);
    PublishedIsValid(settled, r, db.clock, row, occurrences, links);
    PublishedState(settled, r, db.clock, row, occurrences, links);
    var db' := Published(settled, r, db.clock, row, occurrences, links);
    forall other <- db.resources | other != r ensures SameState(db, db', other) {
      SettledElsewhere(db, r, request.kind, row, occurrences, links, other);
    }
    PublishedKeeps(settled, r, db.clock, row, occurrences, links);
    LastOfMore(state.history, revision);
  }

  lemma PublishedKeeps(db: Tables, r: Uuid, id: Uuid, row: RevisionRow, occurrences: seq<Occurrence>,
                       links: seq<Relation>)
    requires r in db.history
    ensures var db' := Published(db, r, id, row, occurrences, links);
            && db'.resources == db.resources && db'.objects == db.objects && db'.activities == db.activities
               && db'.addressing == db.addressing
  {
  }

  lemma SettledElsewhere(db: Tables, r: Uuid, kind: ResourceKind, row: RevisionRow, occurrences: seq<Occurrence>,
                         links: seq<Relation>, other: Uuid)
    requires r in db.resources && r in db.history && other != r && SameState(db, Settled(db, r, kind), other)
             && db.clock !in db.revisions
    ensures SameState(db, Published(Settled(db, r, kind), r, db.clock, row, occurrences, links), other)
  {
    hide Hydrated;
    PublishedElsewhere(Settled(db, r, kind), r, db.clock, row, occurrences, links, other);
  }

  lemma LastOfMore(history: seq<Revision>, revision: Revision)
    ensures (history + [revision])[|history + [revision]| - 1] == revision
  {
  }

  /** What an append does to the tables, and what it answers. */
  ghost predicate Outcome(db: Tables, r: Uuid, request: Request, coordinated: bool, db': Tables,
                          result: Result<Revision, Refusal>)
  {
    && db.Valid() && db'.Valid() && db'.resources.Keys == db.resources.Keys
    && (forall other <- db.resources :: db'.resources[other].iri == db.resources[other].iri)
    && db'.objects == db.objects && db'.activities == db.activities && db'.addressing == db.addressing
    && (result.Err? ==> db' == db)
    && (if r !in db.resources then result == Err(NotRegistered)
        else
          && db.HistoryIsStored(r) && db'.HistoryIsStored(r)
          && match Appended(db.StateOf(r), request, coordinated, db.clock)
             case Err(refusal) => result == Err(refusal)
             case Ok(after) => db'.StateOf(r) == after && result == Ok(after.history[|after.history| - 1]))
    && (forall other <- db.resources | other != r :: SameState(db, db', other))
  }

  ghost predicate SameState(db: Tables, db': Tables, r: Uuid) {
    && r in db.resources && r in db'.resources && db.HistoryIsStored(r) && db'.HistoryIsStored(r)
    && db'.StateOf(r) == db.StateOf(r)
  }

  lemma RefusedOutcome(db: Tables, r: Uuid, request: Request, coordinated: bool, refusal: Refusal)
    requires db.Valid()
    requires if r in db.resources then db.HistoryIsStored(r)
             && Refused(db.StateOf(r), request, coordinated) == Some(refusal)
             else refusal == NotRegistered
    ensures Outcome(db, r, request, coordinated, db, Err(refusal))
  {
    hide Hydrated, Lawful;
  }

  // ------------------------------------------------------------ the statements

  class Database {
    var resources: map<Uuid, Registered>
    var revisions: map<Uuid, RevisionRow>
    var heads: map<Uuid, Uuid>
    var savedAddressing: map<Uuid, seq<Occurrence>>
    var savedRelations: map<Uuid, seq<Relation>>
    var objects: map<Uuid, TypedObject>
    var activities: set<Uuid>
    var addressing: seq<Declared>
    var clock: int
    ghost var history: map<Uuid, seq<Uuid>>

    ghost function Now(): Tables
      reads this
    {
      Tables(resources, revisions, heads, savedAddressing, savedRelations, objects, activities, addressing, clock,
             history)
    }

    /** The revision the head of a resource names. */
    method Current(r: Uuid) returns (head: Option<Revision>)
      requires Now().Valid()
      ensures head == if r in resources then Head(Now().StateOf(r).history) else None
    {
      hide Lawful;
      if r !in heads { return None; }
      assert Now().HistoryIsStored(r);
      var id := heads[r];
      assert id in history[r];
      head := Some(RevisionAt(id, revisions[id], savedAddressing[id], savedRelations[id]));
    }

    /** The checks of an append under the resource lock, and the promotion of an unknown resource. */
    method LockRevisionTarget(r: Uuid, request: Request, coordinated: bool)
      returns (result: Result<Option<Revision>, Refusal>)
      requires Now().Valid() && request.Valid()
      modifies this`resources
      ensures r !in old(resources) ==> result == Err(NotRegistered)
      ensures r in old(resources) ==>
                match Refused(old(Now().StateOf(r)), request, coordinated)
                case Some(refusal) => result == Err(refusal)
                case None =>
                  && result == Ok(Head(old(Now().StateOf(r)).history))
                  && (request.draft.NewWhiteout? ==> result.value.Some?)
                  && resources == old(resources)[r := old(resources)[r].(kind := request.kind)]
      ensures result.Err? ==> resources == old(resources)
    {
      hide Lawful, Hydrated;
      if r !in resources { return Err(NotRegistered); }
      assert Now().HistoryIsStored(r);
      var previous := Current(r);
      var actual := if previous.Some? then Some(previous.value.id) else None;
      if actual != request.expected { return Err(RevisionConflict(request.expected, actual)); }
      if !coordinated && (r in objects || r in activities) { return Err(LegacyRevision); }
      var kind := resources[r].kind;
      if kind != Unknown && kind != request.kind { return Err(KindConflict(kind)); }
      if previous.Some? && request.kind == Activity { return Err(ActivityImmutable); }
      if previous.Some? && previous.value.content.Whiteout? { return Err(Deleted); }
      if request.draft.NewWhiteout? && previous.None? { return Err(InitialWhiteout); }
      if kind == Unknown { resources := resources[r := resources[r].(kind := request.kind)]; }
      assert resources == old(resources)[r := old(resources)[r].(kind := request.kind)];
      return Ok(previous);
    }

    /** Inserts a revision with its projections, and publishes it as the head. */
    method Publish(r: Uuid, id: Uuid, row: RevisionRow, occurrences: seq<Occurrence>, links: seq<Relation>)
      requires r in history
      modifies this`revisions, this`heads, this`savedAddressing, this`savedRelations, this`history
      ensures Now() == Published(old(Now()), r, id, row, occurrences, links)
    {
      revisions := revisions[id := row];
      savedAddressing := savedAddressing[id := occurrences];
      savedRelations := savedRelations[id := links];
      heads := heads[r := id];
      history := history[r := history[r] + [id]];
    }

    /** Appends a revision: the row, its projections, and the head that publishes it. */
    method AppendPrepared(r: Uuid, request: Request, coordinated: bool) returns (result: Result<Revision, Refusal>)
      requires Now().Valid() && request.Valid()
      modifies this`resources, this`revisions, this`heads, this`savedAddressing, this`savedRelations, this`clock,
               this`history
      ensures Outcome(old(Now()), r, request, coordinated, Now(), result)
    {
      hide Lawful, Hydrated, Outcome, Tables.RevisionsHold, Tables.ReferencesHold, Tables.IdentifiersHold;
      ghost var db := Now();
      assert r in resources ==> db.HistoryIsStored(r);
      var locked := LockRevisionTarget(r, request, coordinated);
      if locked.Err? {
        RefusedOutcome(db, r, request, coordinated, locked.error);
        return Err(locked.error);
      }
      var previous := locked.value;
      var id := clock;
      clock := clock + 1;
      var row, occurrences, links;
      match request.draft {
        case NewSnapshot(document, capture, projection, addressing, relations) =>
          row := RevisionRow(r, if previous.Some? then previous.value.sequence + 1 else 1, Snapshot(document), capture,
                             projection);
          occurrences, links := addressing, relations;
        case NewWhiteout(deleted, formerTypes) =>
          row := RevisionRow(r, previous.value.sequence + 1, Whiteout(deleted, formerTypes),
                             previous.value.capture, previous.value.projection);
          occurrences, links := previous.value.addressing, previous.value.relations;
      }
      AppendLands(db, r, request, coordinated, row, occurrences, links);
      hide Refused, Tables.HistoriesHold, Tables.HistoryIsStored;
      assert Now() == Settled(db, r, request.kind);
      Publish(r, id, row, occurrences, links);
      return Ok(RevisionAt(id, row, occurrences, links));
    }
  }
}
