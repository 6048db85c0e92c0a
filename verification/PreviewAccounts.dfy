/** Which removed fields belong to which part of the walk that proposed them. */
module PreviewAccounts {
  import opened Diagnostics
  import opened DocumentGraph
  import opened DocumentRules
  import opened DocumentWalk
  import opened WorkStack
  import opened OpenContainers
  import opened Proposals
  import opened PreviewNodes

  ghost predicate Proposes(events: seq<Event>, path: FieldPath) {
    exists e <- events :: e.Proposed? && e.path == path
  }

  /** Among the fields a task decides about, the removed ones are those its walk proposes. */
  ghost predicate Accounts(gone: set<FieldPath>, t: Task, events: seq<Event>) {
    forall path | InScope(path, t) :: path in gone <==> Proposes(events, path)
  }

  ghost predicate ComesFrom(heap: Heap, voc: Vocabulary, tasks: seq<Task>, ancestors: set<nat>, e: Event) {
    exists i :: 0 <= i < |tasks| && FromTask(heap, voc, tasks[i], ancestors, e)
  }

  ghost predicate FromTask(heap: Heap, voc: Vocabulary, t: Task, ancestors: set<nat>, e: Event) {
    Bounded(t) && e in Walk(heap, voc, t, ancestors).0
  }

  lemma {:induction false} EventsComeFrom(heap: Heap, voc: Vocabulary, tasks: seq<Task>, ancestors: set<nat>,
                                          room: nat, e: Event)
    requires forall t <- tasks :: Bounded(t) && Room(t) < room
    ensures e in WalkAll(heap, voc, tasks, ancestors, room).0 <==> ComesFrom(heap, voc, tasks, ancestors, e)
    decreases |tasks|
  {
    hide Walk, Bounded, Room;
    if tasks != [] {
      EventsComeFrom(heap, voc, tasks[1..], ancestors, room, e);
      if ComesFrom(heap, voc, tasks[1..], ancestors, e) {
        var i :| 0 <= i < |tasks[1..]| && FromTask(heap, voc, tasks[1..][i], ancestors, e);
        assert FromTask(heap, voc, tasks[i + 1], ancestors, e);
      }
      if ComesFrom(heap, voc, tasks, ancestors, e) && e !in Walk(heap, voc, tasks[0], ancestors).0 {
        var i :| 0 <= i < |tasks| && FromTask(heap, voc, tasks[i], ancestors, e);
        assert FromTask(heap, voc, tasks[1..][i - 1], ancestors, e);
      }
      if e in Walk(heap, voc, tasks[0], ancestors).0 { assert FromTask(heap, voc, tasks[0], ancestors, e); }
    }
  }

  /** The events of a walk are those of its first step and those of its children. */
  lemma WalkSplits(heap: Heap, voc: Vocabulary, t: Task, ancestors: set<nat>, e: Event)
    requires Bounded(t)
    ensures var visit := VisitTask(heap, voc, t, ancestors);
            e in Walk(heap, voc, t, ancestors).0
            <==> e in visit.events || ComesFrom(heap, voc, visit.children, ancestors + Opened(visit), e)
  {
    var visit := VisitTask(heap, voc, t, ancestors);
    ChildrenHaveLessRoom(heap, voc, t, ancestors);
    hide VisitTask, WalkAll, Bounded, Room;
    EventsComeFrom(heap, voc, visit.children, ancestors + Opened(visit), Room(t), e);
  }

  lemma ProposalIsInScope(heap: Heap, voc: Vocabulary, t: Task, ancestors: set<nat>, e: Event)
    requires FromTask(heap, voc, t, ancestors, e) && e.Proposed?
    ensures InScope(e.path, t)
  {
    hide Walk, InScope;
    WalkProposesWithin(heap, voc, t, ancestors);
  }

  lemma ProposedByChild(heap: Heap, voc: Vocabulary, t: Task, ancestors: set<nat>,
                        path: FieldPath) returns (child: Task, e: Event)
    requires Bounded(t) && !LeavesOut(heap, voc, t) && Proposes(Walk(heap, voc, t, ancestors).0, path)
    ensures var visit := VisitTask(heap, voc, t, ancestors);
            child in visit.children && FromTask(heap, voc, child, ancestors + Opened(visit), e)
            && e.Proposed? && e.path == path && InScope(path, child)
  {
    hide Walk, VisitTask, InScope, LeavesOut, FromTask;
    e :| e in Walk(heap, voc, t, ancestors).0 && e.Proposed? && e.path == path;
    WalkSplits(heap, voc, t, ancestors, e);
    VisitProposes(heap, voc, t, ancestors);
    var visit := VisitTask(heap, voc, t, ancestors);
    assert ComesFrom(heap, voc, visit.children, ancestors + Opened(visit), e);
    var i :| 0 <= i < |visit.children| && FromTask(heap, voc, visit.children[i], ancestors + Opened(visit), e);
    child := visit.children[i];
    ProposalIsInScope(heap, voc, child, ancestors + Opened(visit), e);
  }

  lemma ChildAccounts(heap: Heap, voc: Vocabulary, gone: set<FieldPath>, t: Task, ancestors: set<nat>, child: Task)
    requires Closed(heap) && Bounded(t) && !LeavesOut(heap, voc, t)
    requires Accounts(gone, t, Walk(heap, voc, t, ancestors).0)
    requires child in VisitTask(heap, voc, t, ancestors).children && Bounded(child)
    ensures Accounts(gone, child, Walk(heap, voc, child, ancestors + Opened(VisitTask(heap, voc, t, ancestors))).0)
  {
    hide Walk, VisitTask, InScope, LeavesOut, Closed, Bounded, Clear, Unrelated, FromTask;
    var visit := VisitTask(heap, voc, t, ancestors);
    var inner := ancestors + Opened(visit);
    ChildrenStayWithin(heap, voc, t, ancestors);
    assert Within(t, child);
    forall path | InScope(path, child) ensures path in gone <==> Proposes(Walk(heap, voc, child, inner).0, path) {
      assert InScope(path, t);
      if path in gone {
        ProposalStaysWithChild(heap, voc, t, ancestors, child, path);
      }
      if Proposes(Walk(heap, voc, child, inner).0, path) {
        ProposalReachesParent(heap, voc, t, ancestors, child, path);
      }
    }
  }

  lemma ProposalStaysWithChild(heap: Heap, voc: Vocabulary, t: Task, ancestors: set<nat>, child: Task, path: FieldPath)
    requires Closed(heap) && Bounded(t) && !LeavesOut(heap, voc, t) && Bounded(child)
    requires Proposes(Walk(heap, voc, t, ancestors).0, path)
    requires child in VisitTask(heap, voc, t, ancestors).children && InScope(path, child)
    ensures Proposes(Walk(heap, voc, child, ancestors + Opened(VisitTask(heap, voc, t, ancestors))).0, path)
  {
    hide Walk, VisitTask, InScope, LeavesOut, Closed, Bounded, Unrelated;
    var other, e := ProposedByChild(heap, voc, t, ancestors, path);
    ChildrenAreSiblings(heap, voc, t, ancestors);
    if other != child {
      SiblingsAreUnrelated(VisitTask(heap, voc, t, ancestors).children, child, other);
      ScopesAreApart(child, other, path, path);
    }
  }

  lemma SiblingsAreUnrelated(tasks: seq<Task>, t: Task, u: Task)
    requires Siblings(tasks) && t in tasks && u in tasks && t != u
    ensures Unrelated(t, u)
  {
    var i :| 0 <= i < |tasks| && tasks[i] == t;
    var j :| 0 <= j < |tasks| && tasks[j] == u;
    assert Unrelated(tasks[if i < j then i else j], tasks[if i < j then j else i]);
  }

  lemma ProposalReachesParent(heap: Heap, voc: Vocabulary, t: Task, ancestors: set<nat>, child: Task, path: FieldPath)
    requires Bounded(t) && Bounded(child) && child in VisitTask(heap, voc, t, ancestors).children
    requires Proposes(Walk(heap, voc, child, ancestors + Opened(VisitTask(heap, voc, t, ancestors))).0, path)
    ensures Proposes(Walk(heap, voc, t, ancestors).0, path)
  {
    hide Walk, VisitTask, Bounded;
    var visit := VisitTask(heap, voc, t, ancestors);
    var e :| e in Walk(heap, voc, child, ancestors + Opened(visit)).0 && e.Proposed? && e.path == path;
    var i :| 0 <= i < |visit.children| && visit.children[i] == child;
    assert FromTask(heap, voc, visit.children[i], ancestors + Opened(visit), e);
    WalkSplits(heap, voc, t, ancestors, e);
  }

  /** A property's own field is removed exactly when its check leaves it out. */
  lemma GoneWhenLeftOut(heap: Heap, voc: Vocabulary, gone: set<FieldPath>, t: Task, ancestors: set<nat>)
    requires t.Property? && Bounded(t) && Accounts(gone, t, Walk(heap, voc, t, ancestors).0)
    ensures OpenPath(t) in gone <==> LeavesOut(heap, voc, t)
  {
    assert InScope(OpenPath(t), t);
    hide Walk, VisitTask, InScope, LeavesOut;
    var events := VisitTask(heap, voc, t, ancestors).events;
    if LeavesOut(heap, voc, t) {
      VisitProposes(heap, voc, t, ancestors);
      var last := events[|events| - 1];
      assert last in events && last.Proposed? && last.path == OpenPath(t) by { OmissionPath(heap, voc, t); }
      WalkSplits(heap, voc, t, ancestors, last);
    } else if OpenPath(t) in gone {
      var child, e := ProposedByChild(heap, voc, t, ancestors, OpenPath(t));
      ChildrenStayWithin(heap, voc, t, ancestors);
      assert false;
    }
  }

  lemma OmissionPath(heap: Heap, voc: Vocabulary, t: Task)
    requires LeavesOut(heap, voc, t)
    ensures OmissionOf(heap, t).Proposed? && OmissionOf(heap, t).path == OpenPath(t)
  {
  }

  /** Nothing is removed at or below a property that holds no documents. */
  lemma PropertyUntouched(heap: Heap, voc: Vocabulary, gone: set<FieldPath>, t: Task, ancestors: set<nat>)
    requires t.Property? && Bounded(t) && Accounts(gone, t, Walk(heap, voc, t, ancestors).0) && !LeavesOut(heap, voc, t)
    requires forall child <- VisitTask(heap, voc, t, ancestors).children :: child.Extension?
    ensures Untouched(gone, OpenPath(t))
  {
    hide Walk, VisitTask, LeavesOut;
    forall p <- gone ensures !Prefix(OpenPath(t), p) {
      if Prefix(OpenPath(t), p) {
        assert InScope(p, t);
        var child, e := ProposedByChild(heap, voc, t, ancestors, p);
        assert false;
      }
    }
  }

  /** What removal leaves alone in a document: its context, and the spelling and value of its type. */
  ghost predicate HeaderStays(voc: Vocabulary, gone: set<FieldPath>, path: FieldPath, fields: map<string, Value>,
                              context: nat)
  {
    && Untouched(gone, At(path, Key("@context")))
    && (forall key <- fields | At(path, Key(key)) in gone :: !voc.names(context, key) && !fields[key].Str?)
  }

  lemma OmittableIsNoText(heap: Heap, voc: Vocabulary, t: Task)
    requires LeavesOut(heap, voc, t)
    ensures !heap[t.doc].fields[t.source].Str?
  {
  }

  lemma DocumentHeaderStays(heap: Heap, voc: Vocabulary, gone: set<FieldPath>, t: Task, ancestors: set<nat>,
                            id: nat, path: FieldPath, context: nat, kind: nat)
    requires Closed(heap) && Bounded(t) && (t.Document? || t.Embedded?) && t.path == path
    requires id in heap && heap[id].Record?
    requires VisitTask(heap, voc, t, ancestors).children == PropertyTasks(voc, id, path, context, kind, heap[id].keys)
    requires Accounts(gone, t, Walk(heap, voc, t, ancestors).0)
    ensures HeaderStays(voc, gone, path, heap[id].fields, context)
  {
    hide Walk, VisitTask, LeavesOut, Accounts, Closed;
    forall p <- gone ensures !Prefix(At(path, Key("@context")), p) {
      if Prefix(At(path, Key("@context")), p) {
        var child := OwnerOfGone(heap, voc, gone, t, ancestors, Key("@context"), p);
        assert false;
      }
    }
    forall key <- heap[id].fields | At(path, Key(key)) in gone
      ensures !voc.names(context, key) && !heap[id].fields[key].Str? {
      var child := OwnerOfGone(heap, voc, gone, t, ancestors, Key(key), At(path, Key(key)));
      GoneWhenLeftOut(heap, voc, gone, child, ancestors + Opened(VisitTask(heap, voc, t, ancestors)));
      OmittableIsNoText(heap, voc, child);
    }
  }

  lemma ScopedIsProposed(gone: set<FieldPath>, t: Task, events: seq<Event>, path: FieldPath)
    requires Accounts(gone, t, events) && InScope(path, t)
    ensures path in gone <==> Proposes(events, path)
  {
  }

  lemma DocumentsStay(heap: Heap, voc: Vocabulary, t: Task)
    requires !t.Property?
    ensures !LeavesOut(heap, voc, t)
  {
  }

  /** The property task that decides about a removed field below a document. */
  lemma OwnerOfGone(heap: Heap, voc: Vocabulary, gone: set<FieldPath>, t: Task, ancestors: set<nat>, part: PathPart,
                    p: FieldPath)
    returns (child: Task)
    requires Closed(heap) && Bounded(t) && (t.Document? || t.Embedded?)
    requires forall c <- VisitTask(heap, voc, t, ancestors).children :: c.Property? && c.path == t.path
    requires Accounts(gone, t, Walk(heap, voc, t, ancestors).0)
    requires p in gone && Prefix(At(t.path, part), p)
    ensures child in VisitTask(heap, voc, t, ancestors).children && child.Property? && Key(child.source) == part
            && Bounded(child)
    ensures Accounts(gone, child, Walk(heap, voc, child, ancestors + Opened(VisitTask(heap, voc, t, ancestors))).0)
  {
    hide Walk, VisitTask, LeavesOut, Closed, Bounded, Accounts;
    assert InScope(p, t) by { PrefixOfPrefix(t.path, At(t.path, part), p); }
    ScopedIsProposed(gone, t, Walk(heap, voc, t, ancestors).0, p);
    DocumentsStay(heap, voc, t);
    var e;
    child, e := ProposedByChild(heap, voc, t, ancestors, p);
    assert p[|t.path|] == part && OpenPath(child)[|t.path|] == Key(child.source);
    ChildrenHaveLessRoom(heap, voc, t, ancestors);
    ChildAccounts(heap, voc, gone, t, ancestors, child);
  }
}
