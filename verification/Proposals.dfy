/** What the check proposes to leave out: fields that exist, hold nothing, and never lie inside one another. */
module Proposals {
  import opened Wrappers
  import opened Diagnostics
  import opened DocumentGraph
  import opened DocumentRules
  import opened DocumentWalk
  import opened WorkStack
  import opened OpenContainers
  import opened Omission

  // ------------------------------------------------------------ where a task may propose

  /** The fields whose omission belongs to a task: its own field, or the fields inside its value. */
  predicate InScope(path: FieldPath, t: Task) {
    match t
    case Property(_, _, _, _, _) => Prefix(OpenPath(t), path)
    case Document(_, _, _, _, _) => |t.path| < |path| && Prefix(t.path, path)
    case Embedded(_, _, _, _, _) => |t.path| < |path| && Prefix(t.path, path)
    case Extension(_, _, _) => false
    case Finding(_) => false
  }

  /** No field belongs to two of the tasks. */
  ghost predicate Siblings(tasks: seq<Task>) {
    forall i, j | 0 <= i < j < |tasks| :: Unrelated(tasks[i], tasks[j])
  }

  ghost predicate Unrelated(t: Task, u: Task) {
    t.Finding? || u.Finding? || t.Extension? || u.Extension?
    || (|OpenPath(t)| == |OpenPath(u)| && OpenPath(t) != OpenPath(u))
  }

  lemma ScopesAreApart(t: Task, u: Task, p: FieldPath, q: FieldPath)
    requires Unrelated(t, u) && InScope(p, t) && InScope(q, u)
    ensures p != q && !Encloses(p, q) && !Encloses(q, p)
  {
    var n := |OpenPath(t)|;
    assert p[..n] == OpenPath(t) && q[..n] == OpenPath(u);
    assert |p| <= |q| ==> q[..|p|][..n] == q[..n];
    assert |q| <= |p| ==> p[..|q|][..n] == p[..n];
  }

  lemma {:induction false} PropertiesAreSiblings(voc: Vocabulary, doc: nat, path: FieldPath, context: nat, kind: nat,
                                                 keys: seq<string>)
    requires Distinct(keys)
    ensures Siblings(PropertyTasks(voc, doc, path, context, kind, keys))
  {
    if keys != [] {
      PropertiesAreSiblings(voc, doc, path, context, kind, keys[1..]);
      var rest := PropertyTasks(voc, doc, path, context, kind, keys[1..]);
      var first := Property(doc, path, context, kind, keys[0]);
      forall t <- rest ensures Unrelated(first, t) {
        assert keys[0] !in keys[1..];
        assert OpenPath(first)[|path|] != OpenPath(t)[|path|];
      }
    }
  }

  ghost predicate FromEntry(t: Task, path: FieldPath, from: nat) {
    && t.Embedded? && |t.path| == |path| + 1 && Prefix(path, t.path)
    && t.path[|path|].Index? && from <= t.path[|path|].index
  }

  lemma {:induction false} EmbeddedAreIndexed(items: seq<Value>, from: nat, nulls: bool, path: FieldPath, context: nat,
                                              range: Option<nat>, decoder: Option<nat>)
    ensures forall t <- EmbeddedTasks(items, from, nulls, path, context, range, decoder) :: FromEntry(t, path, from)
    decreases |items| - from
  {
    if from < |items| {
      EmbeddedAreIndexed(items, from + 1, nulls, path, context, range, decoder);
      assert FromEntry(Embedded(items[from], At(path, Index(from)), context, range, decoder), path, from);
    }
  }

  lemma {:induction false} EmbeddedAreSiblings(items: seq<Value>, from: nat, nulls: bool, path: FieldPath, context: nat,
                                               range: Option<nat>, decoder: Option<nat>)
    ensures Siblings(EmbeddedTasks(items, from, nulls, path, context, range, decoder))
    decreases |items| - from
  {
    hide Unrelated, Prefix;
    if from < |items| {
      EmbeddedAreSiblings(items, from + 1, nulls, path, context, range, decoder);
      EmbeddedAreIndexed(items, from + 1, nulls, path, context, range, decoder);
      var rest := EmbeddedTasks(items, from + 1, nulls, path, context, range, decoder);
      var first := Embedded(items[from], At(path, Index(from)), context, range, decoder);
      forall t <- rest ensures Unrelated(first, t) {
        EntriesAreUnrelated(first, t, path, from);
      }
    }
  }

  lemma EntriesAreUnrelated(t: Task, u: Task, path: FieldPath, from: nat)
    requires t.Embedded? && t.path == At(path, Index(from)) && FromEntry(u, path, from + 1)
    ensures Unrelated(t, u)
  {
    assert t.path[|path|] != u.path[|path|];
  }

  lemma ReferencesAreSiblings(heap: Heap, rule: Rule, v: Value, path: FieldPath, context: nat)
    requires rule.References?
    ensures Siblings(VisitReferences(heap, rule, v, path, context).children)
  {
    hide CountValues;
    if IsList(heap, v) && heap[v.id].items != [] {
      EmbeddedAreSiblings(heap[v.id].items, 0, !rule.navigation, path, context, rule.range, rule.decoder);
    }
  }

  lemma DocumentsHaveSiblings(heap: Heap, voc: Vocabulary, v: Value, path: FieldPath, inherited: Option<nat>,
                              range: Option<nat>, decoder: Option<nat>, ancestors: set<nat>)
    requires Closed(heap)
    ensures Siblings(VisitDocument(heap, voc, v, path, inherited, range, decoder, ancestors).children)
  {
    hide EnterRecord, FirstAlien;
    if IsRecord(heap, v) {
      assert WellFormed(heap, heap[v.id]);
      var entrance := EnterRecord(heap, voc, heap[v.id], path, inherited, range, decoder);
      if entrance.Entered? { PropertiesAreSiblings(voc, v.id, path, entrance.context, entrance.kind, heap[v.id].keys); }
    }
  }

  lemma ChildrenAreSiblings(heap: Heap, voc: Vocabulary, t: Task, ancestors: set<nat>)
    requires Closed(heap)
    ensures Siblings(VisitTask(heap, voc, t, ancestors).children)
  {
    hide VisitDocument, VisitReferences, CheckLeaf, Omittable, Aliased, CheckKeywords, CheckScalar, IsJsonLiteral,
         FirstAlien, CountValues;
    match t
    case Document(v, path, inherited, range, decoder) =>
      DocumentsHaveSiblings(heap, voc, v, path, inherited, range, decoder, ancestors);
    case Embedded(v, path, context, range, decoder) =>
      DocumentsHaveSiblings(heap, voc, v, path, Some(context), range, decoder, ancestors);
    case Property(doc, path, context, kind, source) =>
      if doc in heap && heap[doc].Record? && source in heap[doc].fields {
        var plan := voc.plan(context, kind, source);
        if plan.Checked? && plan.rule.References? {
          ReferencesAreSiblings(heap, plan.rule, heap[doc].fields[source], At(path, Key(source)), context);
        }
      }
    case Extension(_, _, _) =>
    case Finding(_) =>
  }

  /** A child's fields are among its parent's, and a property's own field is none of its children's. */
  ghost predicate Within(t: Task, child: Task) {
    forall path | InScope(path, child) :: InScope(path, t) && (t.Property? ==> path != OpenPath(t))
  }

  lemma ChildrenStayWithin(heap: Heap, voc: Vocabulary, t: Task, ancestors: set<nat>)
    ensures forall child <- VisitTask(heap, voc, t, ancestors).children :: Within(t, child)
  {
    hide CheckLeaf, Omittable, Aliased, CheckKeywords, CheckScalar, IsJsonLiteral, FirstAlien, CountValues,
         EnterRecord, InScope;
    forall child <- VisitTask(heap, voc, t, ancestors).children ensures Within(t, child) {
      match t
      case Property(_, path, _, _, source) =>
        assert child.Extension? || child.Finding? || (child.Embedded? && Prefix(OpenPath(t), child.path)) by {
          PropertyChildShape(heap, voc, t, ancestors, child);
        }
        WithinProperty(t, child);
      case Document(_, path, _, _, _) => WithinDocument(t, child);
      case Embedded(_, path, _, _, _) => WithinDocument(t, child);
      case Extension(_, _, _) => WithinNothing(t, child);
      case Finding(_) =>
    }
  }

  lemma PropertyChildShape(heap: Heap, voc: Vocabulary, t: Task, ancestors: set<nat>, child: Task)
    requires t.Property? && child in VisitProperty(heap, voc, t, ancestors).children
    ensures child.Extension? || child.Finding? || (child.Embedded? && Prefix(OpenPath(t), child.path))
  {
    hide CheckLeaf, Omittable, Aliased, CheckKeywords, IsJsonLiteral, FirstAlien, CountValues;
    var v, plan := heap[t.doc].fields[t.source], voc.plan(t.context, t.kind, t.source);
    if plan.Checked? && plan.rule.References? && IsList(heap, v) {
      EmbeddedAreIndexed(heap[v.id].items, 0, !plan.rule.navigation, OpenPath(t), t.context, plan.rule.range,
                         plan.rule.decoder);
    }
  }

  lemma WithinProperty(t: Task, child: Task)
    requires t.Property? && (child.Extension? || child.Finding? || (child.Embedded? && Prefix(OpenPath(t), child.path)))
    ensures Within(t, child)
  {
    forall path | InScope(path, child) ensures InScope(path, t) && path != OpenPath(t) {
      PrefixOfPrefix(OpenPath(t), child.path, path);
    }
  }

  lemma WithinDocument(t: Task, child: Task)
    requires (t.Document? || t.Embedded?) && (child.Finding? || (child.Property? && child.path == t.path))
    ensures Within(t, child)
  {
    forall path | InScope(path, child) ensures InScope(path, t) {
      if child.Property? {
        assert Prefix(t.path, OpenPath(child)) && |OpenPath(child)| == |t.path| + 1;
        PrefixOfPrefix(t.path, OpenPath(child), path);
      }
    }
  }

  lemma WithinNothing(t: Task, child: Task)
    requires t.Extension? && child.Extension?
    ensures Within(t, child)
  {
  }

  // ------------------------------------------------------------ every proposal belongs to its task

  ghost predicate ProposesWithin(events: seq<Event>, t: Task) {
    forall e <- events | e.Proposed? :: InScope(e.path, t)
  }

  /** The task checks a field that the preview leaves out. */
  ghost predicate LeavesOut(heap: Heap, voc: Vocabulary, t: Task) {
    && t.Property? && t.doc in heap && heap[t.doc].Record? && t.source in heap[t.doc].fields
    && var plan := voc.plan(t.context, t.kind, t.source);
       plan.Checked? && Omittable(heap, plan.rule, heap[t.doc].fields[t.source])
  }

  ghost function OmissionOf(heap: Heap, t: Task): Event
    requires t.Property? && t.doc in heap && heap[t.doc].Record? && t.source in heap[t.doc].fields
  {
    Proposed(OpenPath(t), heap[t.doc].fields[t.source])
  }

  ghost predicate Quietly(events: seq<Event>) {
    forall e <- events :: e.Reported?
  }

  lemma OnlyLast(events: seq<Event>)
    requires events != [] && Quietly(events[..|events| - 1])
    ensures forall i | 0 <= i < |events| - 1 :: events[i].Reported?
    ensures forall e <- events | e.Proposed? :: e == events[|events| - 1]
  {
    forall i | 0 <= i < |events| - 1 ensures events[i].Reported? {
      assert events[..|events| - 1][i] in events[..|events| - 1];
    }
  }

  lemma ExtensionsAreQuiet(heap: Heap, v: Value, path: FieldPath, keywords: bool, ancestors: set<nat>)
    ensures Quietly(VisitExtension(heap, v, path, keywords, ancestors).events)
  {
    hide CheckKeywords, IsJsonLiteral, FirstAlien;
  }

  lemma DocumentsAreQuiet(heap: Heap, voc: Vocabulary, v: Value, path: FieldPath, inherited: Option<nat>,
                          range: Option<nat>, decoder: Option<nat>, ancestors: set<nat>)
    ensures Quietly(VisitDocument(heap, voc, v, path, inherited, range, decoder, ancestors).events)
  {
    hide EnterRecord, FirstAlien;
  }

  lemma ReferencesAreQuiet(heap: Heap, rule: Rule, v: Value, path: FieldPath, context: nat)
    requires rule.References?
    ensures Quietly(VisitReferences(heap, rule, v, path, context).events)
  {
    hide CountValues, IsList;
  }

  /** Only a property that is left out proposes; it does so last, and leaves nothing else to do. */
  lemma VisitProposes(heap: Heap, voc: Vocabulary, t: Task, ancestors: set<nat>)
    ensures var visit := VisitTask(heap, voc, t, ancestors);
            if LeavesOut(heap, voc, t)
            then visit.events != [] && visit.events[|visit.events| - 1] == OmissionOf(heap, t)
                 && Quietly(visit.events[..|visit.events| - 1]) && visit.children == []
            else Quietly(visit.events)
  {
    hide VisitExtension, VisitDocument, VisitReferences, CheckLeaf, Omittable, Aliased, CheckScalar, IsList;
    match t
    case Property(doc, path, context, kind, source) =>
      if doc in heap && heap[doc].Record? && source in heap[doc].fields {
        var v, plan := heap[doc].fields[source], voc.plan(context, kind, source);
        ExtensionsAreQuiet(heap, v, At(path, Key(source)), true, ancestors);
        if plan.Checked? && plan.rule.References? {
          ReferencesAreQuiet(heap, plan.rule, v, At(path, Key(source)), context);
        }
      }
    case Document(v, path, inherited, range, decoder) =>
      DocumentsAreQuiet(heap, voc, v, path, inherited, range, decoder, ancestors);
    case Embedded(v, path, context, range, decoder) =>
      DocumentsAreQuiet(heap, voc, v, path, Some(context), range, decoder, ancestors);
    case Extension(v, path, keywords) => ExtensionsAreQuiet(heap, v, path, keywords, ancestors);
    case Finding(_) =>
  }

  lemma VisitProposesWithin(heap: Heap, voc: Vocabulary, t: Task, ancestors: set<nat>)
    ensures ProposesWithin(VisitTask(heap, voc, t, ancestors).events, t)
  {
    hide VisitTask, Omittable;
    VisitProposes(heap, voc, t, ancestors);
    if LeavesOut(heap, voc, t) { OnlyLast(VisitTask(heap, voc, t, ancestors).events); }
  }

  ghost predicate SomeTaskProposes(tasks: seq<Task>, path: FieldPath) {
    exists i :: 0 <= i < |tasks| && InScope(path, tasks[i])
  }

  lemma {:induction false} WalkProposesWithin(heap: Heap, voc: Vocabulary, t: Task, ancestors: set<nat>)
    requires Bounded(t)
    ensures ProposesWithin(Walk(heap, voc, t, ancestors).0, t)
    decreases Room(t) + 1, 0
  {
    var visit := VisitTask(heap, voc, t, ancestors);
    ChildrenHaveLessRoom(heap, voc, t, ancestors);
    VisitProposesWithin(heap, voc, t, ancestors);
    ChildrenStayWithin(heap, voc, t, ancestors);
    hide VisitTask, InScope;
    AllProposeWithin(heap, voc, visit.children, ancestors + Opened(visit), Room(t));
    forall e <- Walk(heap, voc, t, ancestors).0 | e.Proposed? ensures InScope(e.path, t) {
      if e !in visit.events {
        assert SomeTaskProposes(visit.children, e.path);
        var i :| 0 <= i < |visit.children| && InScope(e.path, visit.children[i]);
        assert Within(t, visit.children[i]);
      }
    }
  }

  lemma {:induction false} AllProposeWithin(heap: Heap, voc: Vocabulary, tasks: seq<Task>, ancestors: set<nat>,
                                            room: nat)
    requires forall t <- tasks :: Bounded(t) && Room(t) < room
    ensures forall e <- WalkAll(heap, voc, tasks, ancestors, room).0 | e.Proposed? :: SomeTaskProposes(tasks, e.path)
    decreases room, |tasks|
  {
    hide Walk, InScope, Bounded, Room;
    if tasks != [] {
      WalkProposesWithin(heap, voc, tasks[0], ancestors);
      AllProposeWithin(heap, voc, tasks[1..], ancestors, room);
      var first, rest := Walk(heap, voc, tasks[0], ancestors).0, WalkAll(heap, voc, tasks[1..], ancestors, room).0;
      forall e: Event | e in first + rest && e.Proposed? ensures SomeTaskProposes(tasks, e.path) {
        if e in first {
          assert InScope(e.path, tasks[0]);
        } else {
          assert SomeTaskProposes(tasks[1..], e.path);
          var i :| 0 <= i < |tasks[1..]| && InScope(e.path, tasks[1..][i]);
          assert tasks[i + 1] == tasks[1..][i];
        }
      }
    }
  }

  // ------------------------------------------------------------ no two proposals overlap

  /** The paths of the proposals are distinct and none lies inside another. */
  ghost predicate Scattered(events: seq<Event>) {
    forall i, j | 0 <= i < j < |events| && events[i].Proposed? && events[j].Proposed? ::
        Clear(events[i].path, events[j].path)
  }

  ghost predicate Clear(p: FieldPath, q: FieldPath) {
    p != q && !Encloses(p, q) && !Encloses(q, p)
  }

  lemma ScatteredConcat(first: seq<Event>, rest: seq<Event>)
    requires Scattered(first) && Scattered(rest)
    requires forall e, f | e in first && f in rest && e.Proposed? && f.Proposed? :: Clear(e.path, f.path)
    ensures Scattered(first + rest)
  {
    hide Clear;
    var all := first + rest;
    forall i, j | 0 <= i < j < |all| && all[i].Proposed? && all[j].Proposed? ensures Clear(all[i].path, all[j].path) {
      if i < |first| { assert all[i] in first; }
      if j >= |first| { assert all[j] in rest; }
      if i < |first| <= j {
      } else if j < |first| {
        assert all[i] == first[i] && all[j] == first[j];
      } else {
        assert all[i] == rest[i - |first|] && all[j] == rest[j - |first|];
      }
    }
  }

  lemma VisitProposesOnce(heap: Heap, voc: Vocabulary, t: Task, ancestors: set<nat>)
    ensures var visit := VisitTask(heap, voc, t, ancestors);
            && Scattered(visit.events)
            && ((exists e <- visit.events :: e.Proposed?) ==> visit.children == [])
  {
    hide VisitTask, Omittable, Clear, LeavesOut;
    VisitProposes(heap, voc, t, ancestors);
    OneIsScattered(VisitTask(heap, voc, t, ancestors).events);
  }

  lemma OneIsScattered(events: seq<Event>)
    requires Quietly(events) || (events != [] && Quietly(events[..|events| - 1]))
    ensures Scattered(events)
  {
    hide Clear;
    if Quietly(events) {
      forall i | 0 <= i < |events| ensures events[i].Reported? { assert events[i] in events; }
    } else {
      OnlyLast(events);
    }
  }

  lemma {:induction false} WalkIsScattered(heap: Heap, voc: Vocabulary, t: Task, ancestors: set<nat>)
    requires Closed(heap) && Bounded(t)
    ensures Scattered(Walk(heap, voc, t, ancestors).0)
    decreases Room(t) + 1, 0
  {
    var visit := VisitTask(heap, voc, t, ancestors);
    ChildrenHaveLessRoom(heap, voc, t, ancestors);
    VisitProposesOnce(heap, voc, t, ancestors);
    ChildrenAreSiblings(heap, voc, t, ancestors);
    hide VisitTask, InScope, Clear, Siblings, Closed, Scattered;
    AllAreScattered(heap, voc, visit.children, ancestors + Opened(visit), Room(t));
    var below := WalkAll(heap, voc, visit.children, ancestors + Opened(visit), Room(t)).0;
    assert visit.children == [] ==> below == [];
    assert Walk(heap, voc, t, ancestors).0 == visit.events + below;
    hide Walk, WalkAll;
    ScatteredConcat(visit.events, below);
  }

  lemma {:induction false} AllAreScattered(heap: Heap, voc: Vocabulary, tasks: seq<Task>, ancestors: set<nat>,
                                           room: nat)
    requires Closed(heap) && Siblings(tasks)
    requires forall t <- tasks :: Bounded(t) && Room(t) < room
    ensures Scattered(WalkAll(heap, voc, tasks, ancestors, room).0)
    decreases room, |tasks|
  {
    hide Walk, InScope, Bounded, Room, Unrelated, Clear, Closed, ProposesWithin;
    if tasks != [] {
      WalkIsScattered(heap, voc, tasks[0], ancestors);
      assert Siblings(tasks[1..]) by {
        assert forall i | 0 <= i < |tasks| - 1 :: tasks[1..][i] == tasks[i + 1];
      }
      AllAreScattered(heap, voc, tasks[1..], ancestors, room);
      WalkProposesWithin(heap, voc, tasks[0], ancestors);
      AllProposeWithin(heap, voc, tasks[1..], ancestors, room);
      var first, rest := Walk(heap, voc, tasks[0], ancestors).0, WalkAll(heap, voc, tasks[1..], ancestors, room).0;
      hide WalkAll, Scattered;
      forall e: Event, f: Event | e in first && f in rest && e.Proposed? && f.Proposed? ensures Clear(e.path, f.path) {
        SiblingsPropose(tasks, first, e, f);
      }
      ScatteredConcat(first, rest);
    }
  }

  lemma SiblingsPropose(tasks: seq<Task>, first: seq<Event>, e: Event, f: Event)
    requires tasks != [] && Siblings(tasks) && ProposesWithin(first, tasks[0]) && e in first
    requires e.Proposed? && f.Proposed? && SomeTaskProposes(tasks[1..], f.path)
    ensures Clear(e.path, f.path)
  {
    hide InScope, Unrelated;
    var i :| 0 <= i < |tasks[1..]| && InScope(f.path, tasks[1..][i]);
    assert tasks[1..][i] == tasks[i + 1];
    assert Unrelated(tasks[0], tasks[i + 1]);
    ScopesAreApart(tasks[0], tasks[i + 1], e.path, f.path);
  }

  // ------------------------------------------------------------ proposals name existing, empty fields

  ghost predicate Vacant(heap: Heap, v: Value) {
    v.Null? || (IsList(heap, v) && forall item <- heap[v.id].items :: item.Null?)
  }

  /** The proposal removes a field of a record, and keeps the value the field had. */
  ghost predicate Genuine(heap: Heap, root: Value, e: Event) {
    e.Proposed? ==>
      && e.path != [] && e.path[|e.path| - 1].Key?
      && Lookup(heap, root, e.path) == Some(e.before)
      && Vacant(heap, e.before)
  }

  lemma VisitIsGenuine(heap: Heap, voc: Vocabulary, root: Value, t: Task, ancestors: set<nat>)
    requires Leads(heap, root, t)
    ensures forall e <- VisitTask(heap, voc, t, ancestors).events :: Genuine(heap, root, e)
  {
    hide VisitTask, Lookup;
    VisitProposes(heap, voc, t, ancestors);
    var events := VisitTask(heap, voc, t, ancestors).events;
    if LeavesOut(heap, voc, t) {
      LookupChild(heap, root, t.path, Key(t.source));
      assert Genuine(heap, root, OmissionOf(heap, t));
      OnlyLast(events);
    }
  }

  lemma {:induction false} WalkIsGenuine(heap: Heap, voc: Vocabulary, root: Value, t: Task, ancestors: set<nat>)
    requires Closed(heap) && Bounded(t) && Leads(heap, root, t)
    ensures forall e <- Walk(heap, voc, t, ancestors).0 :: Genuine(heap, root, e)
    decreases Room(t) + 1, 0
  {
    hide VisitTask, Lookup, Genuine, ChildPlaced;
    var visit := VisitTask(heap, voc, t, ancestors);
    ChildrenHaveLessRoom(heap, voc, t, ancestors);
    VisitIsGenuine(heap, voc, root, t, ancestors);
    ChildrenArePlaced(heap, voc, root, t, ancestors);
    forall child <- visit.children ensures Leads(heap, root, child) {
      LeadsFromPlaced(heap, voc, root, t, visit.opens.Some?, child);
    }
    hide Leads;
    AllAreGenuine(heap, voc, root, visit.children, ancestors + Opened(visit), Room(t));
  }

  lemma LeadsFromPlaced(heap: Heap, voc: Vocabulary, root: Value, t: Task, opens: bool, child: Task)
    requires ChildPlaced(heap, voc, root, t, opens, child)
    ensures Leads(heap, root, child)
  {
  }

  lemma {:induction false} AllAreGenuine(heap: Heap, voc: Vocabulary, root: Value, tasks: seq<Task>,
                                         ancestors: set<nat>, room: nat)
    requires Closed(heap)
    requires forall t <- tasks :: Bounded(t) && Room(t) < room && Leads(heap, root, t)
    ensures forall e <- WalkAll(heap, voc, tasks, ancestors, room).0 :: Genuine(heap, root, e)
    decreases room, |tasks|
  {
    hide Walk, Bounded, Room, Genuine, Leads, Closed;
    if tasks != [] {
      WalkIsGenuine(heap, voc, root, tasks[0], ancestors);
      AllAreGenuine(heap, voc, root, tasks[1..], ancestors, room);
    }
  }
}
