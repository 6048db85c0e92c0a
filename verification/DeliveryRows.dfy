/** The actor rows of an inbound delivery, and the settlement of outbound ones. */
module DeliveryRows {
  import opened Wrappers
  import opened Calendar
  import opened Keyset

  type Uuid = int

  // ------------------------------------------------------------ who a delivery reached

  datatype Addressed = Addressed(actor: Uuid, via: Option<string>)
  datatype ActorRow = ActorRow(inboxOwner: bool, addressed: bool, directly: bool, collections: seq<string>)

  /** Every way an actor was reached, whatever order the ways come in. */
  ghost predicate Merged(owner: Option<Uuid>, mentions: seq<Addressed>, rows: map<Uuid, ActorRow>) {
    && (forall actor :: actor in rows <==> owner == Some(actor) || exists m <- mentions :: m.actor == actor)
    && (forall actor <- rows :: RowMatches(owner, mentions, actor, rows[actor]))
  }

  ghost predicate RowMatches(owner: Option<Uuid>, mentions: seq<Addressed>, actor: Uuid, row: ActorRow) {
    && row.inboxOwner == (owner == Some(actor))
    && row.addressed == (exists m <- mentions :: m.actor == actor)
    && row.directly == (Addressed(actor, None) in mentions)
    && Ascending(TextBefore, row.collections)
    && (forall iri :: iri in row.collections <==> Addressed(actor, Some(iri)) in mentions)
  }

  /** A sorted list of IRIs with one more, kept sorted and without repetition. */
  function Sorted(iris: seq<string>, iri: string): seq<string> {
    if iris == [] then [iri]
    else if iris[0] == iri then iris
    else if TextBefore(iri, iris[0]) then [iri] + iris
    else [iris[0]] + Sorted(iris[1..], iri)
  }

  lemma {:induction false} SortedIsSorted(iris: seq<string>, iri: string)
    requires Ascending(TextBefore, iris)
    ensures Ascending(TextBefore, Sorted(iris, iri)) && forall x :: x in Sorted(iris, iri) <==> x in iris || x == iri
  {
    hide TextBefore;
    TextOrderIsTotalOrder();
    if iris != [] && iris[0] != iri && !TextBefore(iri, iris[0]) {
      TailIsRest(TextBefore, iris);
      SortedIsSorted(iris[1..], iri);
      FirstIsLeast(TextBefore, iris);
      var rest := Sorted(iris[1..], iri);
      forall j | 0 <= j < |rest| ensures TextBefore(iris[0], rest[j]) { assert rest[j] in rest; }
    }
  }

  /** The rows are determined by what was said, not by its order or repetition. */
  lemma MergingIgnoresOrder(owner: Option<Uuid>, some: seq<Addressed>, others: seq<Addressed>,
                            rows: map<Uuid, ActorRow>, rows': map<Uuid, ActorRow>)
    requires Merged(owner, some, rows) && Merged(owner, others, rows')
    requires forall m :: m in some <==> m in others
    ensures rows == rows'
  {
    forall actor ensures actor in rows <==> actor in rows' {
      if m :| m in some && m.actor == actor { assert m in others; }
      if m :| m in others && m.actor == actor { assert m in some; }
    }
    forall actor <- rows ensures rows[actor] == rows'[actor] {
      assert RowMatches(owner, some, actor, rows[actor]) && RowMatches(owner, others, actor, rows'[actor]);
      SameRow(owner, some, others, actor, rows[actor], rows'[actor]);
    }
  }

  lemma SameRow(owner: Option<Uuid>, some: seq<Addressed>, others: seq<Addressed>, actor: Uuid, row: ActorRow,
                row': ActorRow)
    requires RowMatches(owner, some, actor, row) && RowMatches(owner, others, actor, row')
    requires forall m :: m in some <==> m in others
    ensures row == row'
  {
    if m :| m in some && m.actor == actor { assert m in others; }
    if m :| m in others && m.actor == actor { assert m in some; }
    TextOrderIsTotalOrder();
    hide TextBefore, TotalOrder;
    SameElements(TextBefore, row.collections, row'.collections);
  }

  method InboundActorRows(owner: Option<Uuid>, mentions: seq<Addressed>) returns (rows: map<Uuid, ActorRow>)
    ensures Merged(owner, mentions, rows)
  {
    hide RowMatches;
    rows := map[];
    if owner.Some? { rows := rows[owner.value := ActorRow(true, false, false, [])]; }
    NoMentions(owner, rows);
    for i := 0 to |mentions|
      invariant Merged(owner, mentions[..i], rows)
    {
      var m := mentions[i];
      var row := if m.actor in rows then rows[m.actor] else ActorRow(false, false, false, []);
      var merged := ActorRow(row.inboxOwner, true, row.directly || m.via.None?,
                             if m.via.None? then row.collections else Sorted(row.collections, m.via.value));
      OneMoreMention(owner, mentions[..i], m, rows, row, merged);
      assert mentions[..i + 1] == mentions[..i] + [m];
      rows := rows[m.actor := merged];
    }
    assert mentions[..|mentions|] == mentions;
  }

  lemma NoMentions(owner: Option<Uuid>, rows: map<Uuid, ActorRow>)
    requires rows == if owner.Some? then map[owner.value := ActorRow(true, false, false, [])] else map[]
    ensures Merged(owner, [], rows)
  {
  }

  lemma OneMoreMention(owner: Option<Uuid>, mentions: seq<Addressed>, m: Addressed, rows: map<Uuid, ActorRow>,
                       row: ActorRow, merged: ActorRow)
    requires Merged(owner, mentions, rows)
    requires row == if m.actor in rows then rows[m.actor] else ActorRow(false, false, false, [])
    requires merged == ActorRow(row.inboxOwner, true, row.directly || m.via.None?,
                                if m.via.None? then row.collections else Sorted(row.collections, m.via.value))
    ensures Merged(owner, mentions + [m], rows[m.actor := merged])
  {
    var more, rows' := mentions + [m], rows[m.actor := merged];
    assert forall x :: x in more <==> x in mentions || x == m;
    forall actor ensures actor in rows' <==> owner == Some(actor) || exists x <- more :: x.actor == actor {
      assert m in more;
      if x :| x in mentions && x.actor == actor { assert x in more; }
    }
    forall actor <- rows' ensures RowMatches(owner, more, actor, rows'[actor]) {
      RowGrows(owner, mentions, m, rows, actor, rows'[actor], row, merged);
    }
  }

  lemma RowGrows(owner: Option<Uuid>, mentions: seq<Addressed>, m: Addressed, rows: map<Uuid, ActorRow>, actor: Uuid,
                 after: ActorRow, row: ActorRow, merged: ActorRow)
    requires Merged(owner, mentions, rows)
    requires row == if m.actor in rows then rows[m.actor] else ActorRow(false, false, false, [])
    requires merged == ActorRow(row.inboxOwner, true, row.directly || m.via.None?,
                                if m.via.None? then row.collections else Sorted(row.collections, m.via.value))
    requires if actor == m.actor then after == merged else actor in rows && after == rows[actor]
    ensures RowMatches(owner, mentions + [m], actor, after)
  {
    var more := mentions + [m];
    if actor in rows { assert RowMatches(owner, mentions, actor, rows[actor]); }
    if m.actor in rows { assert RowMatches(owner, mentions, m.actor, rows[m.actor]); }
    if m.via.Some? { SortedIsSorted(row.collections, m.via.value); }
    hide TextBefore, Ascending, Sorted;
    assert m in more && forall x :: x in more <==> x in mentions || x == m;
    if actor in rows {
      assert RowMatches(owner, mentions, actor, rows[actor]);
      if x :| x in mentions && x.actor == actor { assert x in more; }
    } else {
      assert forall x <- mentions :: x.actor != actor;
    }
  }

  // ------------------------------------------------------------ settling an outbound delivery

  datatype Status = Queued | Failed | Sent | PermanentlyFailed | Abandoned
  datatype Outbound = Outbound(activityIri: string, inboxUrl: string, status: Status, created: int, summary: nat,
                               completed: Option<int>)
  datatype Attempt = Attempt(delivery: Uuid, succeeded: bool, summary: nat, created: int)
  datatype Settlement = Settlement(activityIri: string, inboxUrl: string, status: Status, summary: nat,
                                   attempted: bool, id: Option<Uuid>)

  predicate Pending(entry: Settlement, id: Uuid, row: Outbound) {
    && row.activityIri == entry.activityIri && row.inboxUrl == entry.inboxUrl
    && (row.status == Queued || row.status == Failed)
    && (entry.id.None? || entry.id.value == id)
  }

  /** A settlement names an activity and an inbox, and may name the very delivery; it is for unsettled ones. */
  lemma PendingInWords(entry: Settlement, id: Uuid, row: Outbound)
    ensures Pending(entry, id, row) <==>
              (row.status == Queued || row.status == Failed) && entry.inboxUrl == row.inboxUrl
              && entry.activityIri == row.activityIri && (entry.id == None || entry.id == Some(id))
  {
  }

  predicate Later(created: int, id: Uuid, created': int, id': Uuid) {
    created > created' || (created == created' && id > id')
  }

  class Outbox {
    var rows: map<Uuid, Outbound>
    var attempts: seq<Attempt>

    /** Settles the latest pending delivery to an inbox, if there is one. */
    method SettleOutbound(entry: Settlement, now: int) returns (settled: Option<Uuid>)
      modifies this
      ensures settled.Some? <==> exists id <- old(rows) :: Pending(entry, id, old(rows)[id])
      ensures settled.None? ==> rows == old(rows) && attempts == old(attempts)
      ensures settled.Some? ==>
                && settled.value in old(rows) && Pending(entry, settled.value, old(rows)[settled.value])
                && (forall id <- old(rows) | Pending(entry, id, old(rows)[id]) ::
                      && old(rows)[settled.value].created >= old(rows)[id].created
                      && (old(rows)[settled.value].created == old(rows)[id].created ==> settled.value >= id))
                && rows == old(rows)[settled.value := old(rows)[settled.value].(
                             status := entry.status, summary := entry.summary, completed := Some(now))]
                && attempts == old(attempts)
                   + (if entry.attempted then [Attempt(settled.value, entry.status == Sent, entry.summary, now)]
                      else [])
    {
      settled := None;
      var left := rows.Keys;
      while left != {}
        invariant left <= rows.Keys && rows == old(rows) && attempts == old(attempts)
        invariant settled.None? ==> forall id <- rows | Pending(entry, id, rows[id]) :: id in left
        invariant settled.Some? ==>
                    settled.value in rows && settled.value !in left
                      && Pending(entry, settled.value, rows[settled.value])
        invariant settled.Some? ==>
          forall id <- rows | Pending(entry, id, rows[id]) && id != settled.value && id !in left ::
            Later(rows[settled.value].created, settled.value, rows[id].created, id)
        decreases left
      {
        var id :| id in left;
        left := left - {id};
        if Pending(entry, id, rows[id]) {
          if settled.None? || Later(rows[id].created, id, rows[settled.value].created, settled.value) {
            settled := Some(id);
          }
        }
      }
      if settled.Some? {
        if entry.attempted {
          attempts := attempts + [Attempt(settled.value, entry.status == Sent, entry.summary, now)];
        }
        rows := rows[settled.value := rows[settled.value].(status := entry.status, summary := entry.summary,
                                                           completed := Some(now))];
      }
    }
  }
}
