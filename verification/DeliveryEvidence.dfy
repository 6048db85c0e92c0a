/**
 * What a delivery proves it carried: marks and receipts, recomputed whenever its link or its
 * fetched object changes.
 */
module DeliveryEvidence {
  import opened Wrappers

  type Uuid = int
  type Document = string

  datatype Status =
    | Queued | Sent | Failed | PermanentlyFailed | Abandoned
    | Received | Acknowledged | Unverified | Rejected
  datatype Receipts = Receipts(ofActivity: Option<Uuid>, ofObject: Option<Uuid>)

  datatype Delivery = Delivery(
    inbound: bool, status: Status, verified: bool, activityIri: Option<string>, activityId: Option<Uuid>,
    payload: Option<Document>, fetchedObject: Option<Document>, carried: bool, carriedObject: bool, receipts: Receipts)

  datatype StoredObject = StoredObject(id: Uuid, document: Document, fetched: bool)
  /** The first revision of a resource, and its document when it is a snapshot. */
  datatype FirstRevision = FirstRevision(id: Uuid, snapshot: Option<Document>)

  /** The stored activities by their IRI and identifier, the object each brought along, and first revisions. */
  datatype Catalogue = Catalogue(
    activityAt: map<string, Uuid>, activities: map<Uuid, Document>, objects: map<Uuid, StoredObject>,
      revisions: map<Uuid, FirstRevision>)

  const NONE := Receipts(None, None)

  function Snapshot(c: Catalogue, resource: Uuid): Option<FirstRevision> {
    if resource in c.revisions && c.revisions[resource].snapshot.Some? then Some(c.revisions[resource]) else None
  }

  // ------------------------------------------------------------ what a delivery carried, stated outright

  /** The payload is the stored activity. */
  predicate CarriesActivity(c: Catalogue, d: Delivery) {
    d.activityId.Some? && d.activityId.value in c.activities && d.payload == Some(c.activities[d.activityId.value])
  }

  /** The object stored with that activity came from the payload, or is the object the listener fetched. */
  predicate CarriesObject(c: Catalogue, d: Delivery) {
    && CarriesActivity(c, d) && d.activityId.value in c.objects
    && var brought := c.objects[d.activityId.value];
       !brought.fetched || d.fetchedObject == Some(brought.document)
  }

  predicate ProvesActivity(c: Catalogue, d: Delivery) {
    && CarriesActivity(c, d)
    && var revision := Snapshot(c, d.activityId.value);
       revision.Some? && revision.value.snapshot == Some(c.activities[d.activityId.value])
  }

  predicate ProvesObject(c: Catalogue, d: Delivery) {
    && ProvesActivity(c, d) && CarriesObject(c, d)
    && var brought := c.objects[d.activityId.value];
       var revision := Snapshot(c, brought.id);
       revision.Some? && revision.value.snapshot == Some(brought.document)
  }

  /** The marks and receipts of a delivery, from its link, payload and fetched object alone. */
  function Decided(c: Catalogue, d: Delivery): Delivery {
    if !d.inbound then d
    else if d.activityId.None? || d.activityId.value !in c.activities then d.(receipts := NONE)
    else
      d.(carried := CarriesActivity(c, d), carriedObject := CarriesObject(c, d),
         receipts := Receipts(
           if ProvesActivity(c, d) then Some(c.revisions[d.activityId.value].id) else None,
           if ProvesObject(c, d) then Some(c.revisions[c.objects[d.activityId.value].id].id) else None))
  }

  predicate Linkable(c: Catalogue, d: Delivery) {
    && d.inbound && (d.status == Received || d.status == Acknowledged) && d.verified && d.activityId.None?
    && d.activityIri.Some? && d.activityIri.value in c.activityAt && c.activityAt[d.activityIri.value] in c.activities
  }

  function Linked(c: Catalogue, d: Delivery): Delivery
    requires Linkable(c, d)
  {
    d.(activityId := Some(c.activityAt[d.activityIri.value]))
  }

  // ------------------------------------------------------------ the operations

  class Deliveries {
    var catalogue: Catalogue
    var rows: map<Uuid, Delivery>

    /** Decides what a linked inbound delivery carried, anew every time. */
    method DecideCarried(id: Uuid)
      modifies this`rows
      ensures rows == if id in old(rows) then old(rows)[id := Decided(catalogue, old(rows)[id])] else old(rows)
    {
      if id !in rows || !rows[id].inbound { return; }
      var delivery := rows[id];
      rows := rows[id := rows[id].(receipts := NONE)];
      if delivery.activityId.None? || delivery.activityId.value !in catalogue.activities { return; }
      var activityId := delivery.activityId.value;
      var document := catalogue.activities[activityId];
      var brought := if activityId in catalogue.objects then Some(catalogue.objects[activityId]) else None;
      var carried := delivery.payload.Some? && delivery.payload.value == document;
      var carriedObject :=
        carried && brought.Some?
        && (!brought.value.fetched
            || (delivery.fetchedObject.Some? && delivery.fetchedObject.value == brought.value.document));
      rows := rows[id := rows[id].(carried := carried, carriedObject := carriedObject)];
      if !carried { return; }
      var activityRevision := Snapshot(catalogue, activityId);
      if activityRevision.None? || activityRevision.value.snapshot.value != document { return; }
      var receipts := Receipts(Some(activityRevision.value.id), None);
      if carriedObject {
        var objectRevision := Snapshot(catalogue, brought.value.id);
        if objectRevision.Some? && objectRevision.value.snapshot.value == brought.value.document {
          receipts := receipts.(ofObject := Some(objectRevision.value.id));
        }
      }
      rows := rows[id := rows[id].(receipts := receipts)];
    }

    /** Links a verified, accepted inbound delivery to the activity its IRI names. */
    method LinkInboundActivity(id: Uuid) returns (linked: bool)
      modifies this`rows
      ensures linked <==> id in old(rows) && Linkable(catalogue, old(rows)[id])
      ensures rows == if linked then old(rows)[id := Decided(catalogue, Linked(catalogue, old(rows)[id]))]
              else old(rows)
    {
      if id !in rows || !Linkable(catalogue, rows[id]) { return false; }
      rows := rows[id := Linked(catalogue, rows[id])];
      DecideCarried(id);
      return true;
    }

    /** Records the object an inbound delivery's listener fetched; `stored` is what a json column can hold of it. */
    method RecordFetchedObject(id: Uuid, stored: Option<Document>) returns (found: bool)
      modifies this`rows
      ensures found <==> id in old(rows) && old(rows)[id].inbound
      ensures rows == if found then old(rows)[id := Decided(catalogue, old(rows)[id].(fetchedObject := stored))]
              else old(rows)
    {
      if id !in rows || !rows[id].inbound { return false; }
      rows := rows[id := rows[id].(fetchedObject := stored)];
      DecideCarried(id);
      return true;
    }

    /** Records that the listener of an acknowledged delivery ran. */
    method ReceiveInbound(id: Uuid) returns (found: bool)
      modifies this`rows
      ensures found <==> id in old(rows) && old(rows)[id].inbound && old(rows)[id].status == Acknowledged
      ensures rows == if found then old(rows)[id := old(rows)[id].(status := Received)] else old(rows)
    {
      if id !in rows || !rows[id].inbound || rows[id].status != Acknowledged { return false; }
      rows := rows[id := rows[id].(status := Received)];
      return true;
    }
  }

  // ------------------------------------------------------------ the evidence, from the catalogue

  /**
   * The marks and receipts of a linked delivery.  The activity's receipt names the first revision of the
   * activity, the object's that of the object it brought along, each a snapshot of what is stored.
   */
  lemma EvidenceInWords(c: Catalogue, d: Delivery)
    requires d.inbound && d.activityId.Some? && d.activityId.value in c.activities
    ensures var activity, after := d.activityId.value, Decided(c, d);
            var document := c.activities[activity];
            && (after.carried <==> d.payload == Some(document))
            && (after.carriedObject <==>
                  && d.payload == Some(document) && activity in c.objects
                  && (c.objects[activity].fetched ==> d.fetchedObject == Some(c.objects[activity].document)))
            && (forall x :: after.receipts.ofActivity == Some(x) <==>
                  && d.payload == Some(document)
                  && activity in c.revisions && c.revisions[activity] == FirstRevision(x, Some(document)))
            && (forall x :: after.receipts.ofObject == Some(x) <==>
                  && d.payload == Some(document)
                  && activity in c.revisions && c.revisions[activity].snapshot == Some(document)
                  && activity in c.objects
                  && var brought := c.objects[activity];
                     && (brought.fetched ==> d.fetchedObject == Some(brought.document))
                     && brought.id in c.revisions
                     && c.revisions[brought.id] == FirstRevision(x, Some(brought.document)))
            && after == d.(carried := after.carried, carriedObject := after.carriedObject, receipts := after.receipts)
  {
  }

  /** Without a stored activity the receipts go, and outbound deliveries are left alone. */
  lemma NoEvidenceInWords(c: Catalogue, d: Delivery)
    ensures !d.inbound ==> Decided(c, d) == d
    ensures d.inbound && (d.activityId.None? || d.activityId.value !in c.activities) ==>
              Decided(c, d) == d.(receipts := Receipts(None, None))
  {
  }

  /** A delivery is linked to the activity its IRI names, once it is verified and accepted, and only once. */
  lemma LinksInWords(c: Catalogue, d: Delivery, activity: Uuid)
    ensures Linkable(c, d) && Linked(c, d).activityId == Some(activity) <==>
              && d.inbound && d.verified && (d.status == Received || d.status == Acknowledged) && d.activityId == None
              && d.activityIri.Some? && d.activityIri.value in c.activityAt
              && c.activityAt[d.activityIri.value] == activity && activity in c.activities
    ensures Linkable(c, d) ==> Linked(c, d) == d.(activityId := Linked(c, d).activityId)
    ensures Linkable(c, d) ==> Linked(c, d).activityId.Some?
  {
  }

  // ------------------------------------------------------------ what holds of every delivery

  /**
   * An object mark or receipt never stands without the activity's, and only verified, accepted
   * deliveries are linked.
   */
  ghost predicate Consistent(d: Delivery) {
    d.inbound ==>
      && (d.carriedObject ==> d.carried)
      && (d.receipts.ofObject.Some? ==> d.receipts.ofActivity.Some?)
      && (d.activityId.Some? ==> d.verified && (d.status == Received || d.status == Acknowledged))
  }

  datatype Operation = Link | Fetch(stored: Option<Document>) | Receive | ActivityDeleted

  /** One operation on a delivery, as the methods above run it; a deleted activity takes its link along. */
  function Applied(c: Catalogue, op: Operation, d: Delivery): Delivery {
    match op
    case Link => if Linkable(c, d) then Decided(c, Linked(c, d)) else d
    case Fetch(stored) => if d.inbound then Decided(c, d.(fetchedObject := stored)) else d
    case Receive => if d.inbound && d.status == Acknowledged then d.(status := Received) else d
    case ActivityDeleted => d.(activityId := None)
  }

  lemma OperationsStayConsistent(c: Catalogue, op: Operation, d: Delivery)
    requires Consistent(d)
    ensures Consistent(Applied(c, op, d))
  {
  }

  /** A history: each operation meets the catalogue as it then is. */
  function RunAll(history: seq<(Catalogue, Operation)>, d: Delivery): Delivery {
    if history == [] then d else RunAll(history[1..], Applied(history[0].0, history[0].1, d))
  }

  /** Whatever happens to a delivery, and to what is stored meanwhile, its evidence stays consistent. */
  lemma {:induction false} HistoriesStayConsistent(history: seq<(Catalogue, Operation)>, d: Delivery)
    requires Consistent(d)
    ensures Consistent(RunAll(history, d))
  {
    if history != [] {
      OperationsStayConsistent(history[0].0, history[0].1, d);
      HistoriesStayConsistent(history[1..], Applied(history[0].0, history[0].1, d));
    }
  }

  // ------------------------------------------------------------ confluence

  function Run(c: Catalogue, ops: seq<Operation>, d: Delivery): Delivery {
    if ops == [] then d else Run(c, ops[1..], Applied(c, ops[0], d))
  }

  /** The operations of one delivery's listener and linker: all fetches carry the same document. */
  ghost predicate SameFetch(ops: seq<Operation>, stored: Option<Document>) {
    forall op <- ops :: op == Link || op == Receive || op == Fetch(stored)
  }

  function Kept(d: Delivery, fetched: bool, received: bool, stored: Option<Document>): Delivery {
    var reached := if received && d.inbound && d.status == Acknowledged then d.(status := Received) else d;
    if fetched && d.inbound then reached.(fetchedObject := stored) else reached
  }

  /** One computation on the final inputs: linked if it ever was, with the fetched object if there was one. */
  function Final(c: Catalogue, d: Delivery, linked: bool, fetched: bool, received: bool,
                 stored: Option<Document>): Delivery
  {
    var kept := Kept(d, fetched, received, stored);
    if linked && Linkable(c, d) then Decided(c, Linked(c, kept))
    else if fetched && d.inbound then Decided(c, kept)
    else kept
  }

  /** What is decided depends on the link, the payload and the fetched object, not on earlier marks or on the status. */
  lemma EvidenceIsFresh(c: Catalogue, d: Delivery, e: Delivery)
    requires d.activityId == e.activityId && d.payload == e.payload && d.fetchedObject == e.fetchedObject
    ensures CarriesActivity(c, d) == CarriesActivity(c, e) && CarriesObject(c, d) == CarriesObject(c, e)
    ensures ProvesActivity(c, d) == ProvesActivity(c, e) && ProvesObject(c, d) == ProvesObject(c, e)
  {
  }

  lemma DecidingAgain(c: Catalogue, d: Delivery, stored: Option<Document>)
    ensures Decided(c, Decided(c, d).(fetchedObject := stored)) == Decided(c, d.(fetchedObject := stored))
    ensures Decided(c, d).(status := Received) == Decided(c, d.(status := Received))
  {
    EvidenceIsFresh(c, Decided(c, d).(fetchedObject := stored), d.(fetchedObject := stored));
    EvidenceIsFresh(c, d, d.(status := Received));
    hide CarriesActivity, CarriesObject, ProvesActivity, ProvesObject;
  }

  lemma LinkingDecided(c: Catalogue, d: Delivery)
    requires Linkable(c, d)
    ensures Linkable(c, Decided(c, d)) && Decided(c, Linked(c, Decided(c, d))) == Decided(c, Linked(c, d))
  {
    EvidenceIsFresh(c, Linked(c, Decided(c, d)), Linked(c, d));
    hide CarriesActivity, CarriesObject, ProvesActivity, ProvesObject;
  }

  lemma DecidedKeepsRest(c: Catalogue, d: Delivery)
    ensures var e := Decided(c, d);
            && e.inbound == d.inbound && e.status == d.status && e.verified == d.verified
               && e.activityIri == d.activityIri
            && e.activityId == d.activityId && e.payload == d.payload && e.fetchedObject == d.fetchedObject
  {
    hide CarriesActivity, CarriesObject, ProvesActivity, ProvesObject;
  }

  lemma LinkAfter(c: Catalogue, d: Delivery, linked: bool, fetched: bool, received: bool, stored: Option<Document>)
    ensures Applied(c, Link, Final(c, d, linked, fetched, received, stored))
              == Final(c, d, true, fetched, received, stored)
  {
    hide Decided;
    var kept := Kept(d, fetched, received, stored);
    DecidedKeepsRest(c, kept);
    if Linkable(c, d) {
      DecidedKeepsRest(c, Linked(c, kept));
      LinkingDecided(c, kept);
    }
  }

  lemma FetchAfter(c: Catalogue, d: Delivery, linked: bool, fetched: bool, received: bool, stored: Option<Document>)
    ensures Applied(c, Fetch(stored), Final(c, d, linked, fetched, received, stored))
              == Final(c, d, linked, true, received, stored)
  {
    hide Decided;
    var kept := Kept(d, fetched, received, stored);
    DecidedKeepsRest(c, kept);
    DecidingAgain(c, kept, stored);
    if Linkable(c, d) {
      DecidedKeepsRest(c, Linked(c, kept));
      DecidingAgain(c, Linked(c, kept), stored);
    }
  }

  lemma ReceiveAfter(c: Catalogue, d: Delivery, linked: bool, fetched: bool, received: bool, stored: Option<Document>)
    ensures Applied(c, Receive, Final(c, d, linked, fetched, received, stored))
              == Final(c, d, linked, fetched, true, stored)
  {
    hide Decided;
    var kept := Kept(d, fetched, received, stored);
    DecidedKeepsRest(c, kept);
    DecidingAgain(c, kept, stored);
    if Linkable(c, d) {
      DecidedKeepsRest(c, Linked(c, kept));
      DecidingAgain(c, Linked(c, kept), stored);
    }
  }

  lemma OneMoreOperation(c: Catalogue, d: Delivery, linked: bool, fetched: bool, received: bool,
                         stored: Option<Document>, op: Operation)
    requires op == Link || op == Receive || op == Fetch(stored)
    ensures Applied(c, op, Final(c, d, linked, fetched, received, stored))
         == Final(c, d, linked || op == Link, fetched || op == Fetch(stored), received || op == Receive, stored)
  {
    hide Applied, Final;
    match op
    case Link => LinkAfter(c, d, linked, fetched, received, stored);
    case Fetch(_) => FetchAfter(c, d, linked, fetched, received, stored);
    case Receive => ReceiveAfter(c, d, linked, fetched, received, stored);
  }

  lemma {:induction false} RunFrom(c: Catalogue, ops: seq<Operation>, d: Delivery, linked: bool, fetched: bool,
                                   received: bool, stored: Option<Document>)
    requires SameFetch(ops, stored)
    ensures Run(c, ops, Final(c, d, linked, fetched, received, stored))
         == Final(c, d, linked || Link in ops, fetched || Fetch(stored) in ops, received || Receive in ops, stored)
  {
    hide Final, Applied;
    if ops != [] {
      assert ops[0] in ops && forall op <- ops[1..] :: op in ops;
      OneMoreOperation(c, d, linked, fetched, received, stored, ops[0]);
      RunFrom(c, ops[1..], d, linked || ops[0] == Link, fetched || ops[0] == Fetch(stored),
              received || ops[0] == Receive, stored);
      assert ops == [ops[0]] + ops[1..];
    }
  }

  /** Any order and repetition ends as a single computation on the final inputs does. */
  lemma EvidenceIsConfluent(c: Catalogue, ops: seq<Operation>, d: Delivery, stored: Option<Document>)
    requires SameFetch(ops, stored)
    ensures Run(c, ops, d) == Final(c, d, Link in ops, Fetch(stored) in ops, Receive in ops, stored)
  {
    hide Run, Applied, Decided;
    assert Final(c, d, false, false, false, stored) == d;
    RunFrom(c, ops, d, false, false, false, stored);
  }

  /** So two runs with the same operations, however ordered and repeated, agree. */
  lemma OrderDoesNotMatter(c: Catalogue, some: seq<Operation>, others: seq<Operation>, d: Delivery,
                           stored: Option<Document>)
    requires SameFetch(some, stored) && SameFetch(others, stored)
    requires forall op :: op in some <==> op in others
    ensures Run(c, some, d) == Run(c, others, d)
  {
    hide Run, Final;
    EvidenceIsConfluent(c, some, d, stored);
    EvidenceIsConfluent(c, others, d, stored);
  }
}
