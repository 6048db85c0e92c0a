/** The open containers of the work stack are those on the path to the value being checked. */
module OpenContainers {
  import opened Wrappers
  import opened Diagnostics
  import opened DocumentGraph
  import opened DocumentRules
  import opened DocumentWalk
  import opened WorkStack

  predicate Prefix(some: FieldPath, all: FieldPath) {
    |some| <= |all| && all[..|some|] == some
  }

  lemma PrefixOfPrefix(some: FieldPath, more: FieldPath, all: FieldPath)
    requires Prefix(some, more) && Prefix(more, all)
    ensures Prefix(some, all)
  {
  }

  function ValueOf(t: Task): Value
    requires !t.Finding?
  {
    if t.Property? then Ref(t.doc) else t.v
  }

  /** How many prefixes of its path lie above a task: a property task belongs inside its document. */
  function Above(t: Task): nat
    requires !t.Finding?
  {
    if t.Property? then |t.path| + 1 else |t.path|
  }

  ghost predicate Leads(heap: Heap, root: Value, t: Task) {
    !t.Finding? ==> Lookup(heap, root, t.path) == Some(ValueOf(t))
  }

  /** Whether some container at `path` is open among `pending`. */
  ghost predicate OpenAt(pending: seq<Work>, path: FieldPath) {
    exists work <- pending :: work.Close? && work.path == path
  }

  /** The field that ends the first `n` parts of a path is opaque to the vocabulary in some context. */
  ghost predicate OpaqueField(voc: Vocabulary, path: FieldPath, n: nat) {
    0 < n <= |path| && path[n - 1].Key? && IsOpaqueSomewhere(voc, path[n - 1].name)
  }

  ghost predicate IsOpaqueSomewhere(voc: Vocabulary, source: string) {
    exists context, kind :: IsOpaque(voc, context, kind, source)
  }

  predicate IsOpaque(voc: Vocabulary, context: nat, kind: nat, source: string) {
    voc.plan(context, kind, source).Opaque?
  }

  /** Where the opaque data around a task begins: at the value of an opaque property, or nowhere above it. */
  ghost predicate IsBase(voc: Vocabulary, t: Task, base: nat)
    requires !t.Finding?
  {
    if t.Extension? then base < |t.path| && OpaqueField(voc, t.path, base) else base == Above(t)
  }

  /** Above a task exactly the records are open, and inside opaque data every container. */
  ghost predicate OpensFrom(heap: Heap, root: Value, below: seq<Work>, t: Task, base: nat)
    requires !t.Finding?
  {
    forall n: nat | n < Above(t) :: OpenAt(below, t.path[..n]) <==> RecordAt(heap, root, t.path[..n]) || base <= n
  }

  /** A task's path leads to its value, and the containers open below it on the stack are those it lies in. */
  ghost predicate TaskPlaced(heap: Heap, voc: Vocabulary, root: Value, below: seq<Work>, t: Task) {
    !t.Finding? ==>
      && Leads(heap, root, t)
      && (exists base: nat :: IsBase(voc, t, base) && OpensFrom(heap, root, below, t, base))
      && (forall work <- below | work.Close? :: |work.path| < Above(t) && Prefix(work.path, t.path))
  }

  ghost predicate RecordAt(heap: Heap, root: Value, path: FieldPath) {
    var v := Lookup(heap, root, path);
    v.Some? && IsRecord(heap, v.value)
  }

  ghost predicate ClosePlaced(heap: Heap, root: Value, below: seq<Work>, id: nat, path: FieldPath) {
    && Lookup(heap, root, path) == Some(Ref(id))
    && (forall work <- below | work.Close? :: |work.path| < |path| && Prefix(work.path, path))
  }

  ghost predicate Placed(heap: Heap, voc: Vocabulary, root: Value, pending: seq<Work>) {
    forall i | 0 <= i < |pending| ::
      match pending[i]
      case Run(t) => TaskPlaced(heap, voc, root, pending[..i], t)
      case Close(id, path) => ClosePlaced(heap, root, pending[..i], id, path)
  }

  /** Where the children of a task are: inside the container it opens, or among the values of its property. */
  ghost predicate ChildPlaced(heap: Heap, voc: Vocabulary, root: Value, t: Task, opens: bool, child: Task) {
    !child.Finding? ==>
      && !t.Finding?
      && Leads(heap, root, child)
      && if opens && (t.Extension? || t.Property?) then
           && child.Extension? && |child.path| == |OpenPath(t)| + 1 && Prefix(OpenPath(t), child.path)
           && (t.Property? ==> OpaqueField(voc, child.path, |OpenPath(t)|))
         else if opens then
           child.Property? && child.path == OpenPath(t) && RecordAt(heap, root, OpenPath(t))
         else
           && t.Property? && child.Embedded?
           && (child.path == OpenPath(t)
               || (|child.path| == |OpenPath(t)| + 1 && Prefix(OpenPath(t), child.path)
                   && !RecordAt(heap, root, OpenPath(t))))
  }

  lemma ChildrenArePlaced(heap: Heap, voc: Vocabulary, root: Value, t: Task, ancestors: set<nat>)
    requires Closed(heap) && Leads(heap, root, t)
    ensures var visit := VisitTask(heap, voc, t, ancestors);
            && (visit.opens.Some? ==> !t.Finding? && Lookup(heap, root, OpenPath(t)) == Some(Ref(visit.opens.value)))
            && (forall child <- visit.children :: ChildPlaced(heap, voc, root, t, visit.opens.Some?, child))
  {
    match t
    case Extension(v, path, keywords) => ExtensionChildren(heap, voc, root, v, path, keywords, ancestors, t);
    case Document(v, path, inherited, range, decoder) =>
        DocumentChildren(heap, voc, root, v, path, inherited, range, decoder, ancestors, t);
    case Embedded(v, path, context, range, decoder) =>
      DocumentChildren(heap, voc, root, v, path, Some(context), range, decoder, ancestors, t);
      hide CheckScalar, VisitDocument;
    case Property(_, path, _, _, source) => PropertyChildren(heap, voc, root, t, ancestors);
    case Finding(_) =>
  }

  lemma ExtensionChildren(heap: Heap, voc: Vocabulary, root: Value, v: Value, path: FieldPath, keywords: bool,
                          ancestors: set<nat>, t: Task)
    requires Closed(heap) && Lookup(heap, root, path) == Some(v) && OpenPath(t) == path
    requires t.Extension? || (t.Property? && OpaqueField(voc, path, |path|))
    ensures var visit := VisitExtension(heap, v, path, keywords, ancestors);
            && (visit.opens.Some? ==> Lookup(heap, root, path) == Some(Ref(visit.opens.value)))
            && (forall child <- visit.children :: ChildPlaced(heap, voc, root, t, visit.opens.Some?, child))
  {
    hide CheckKeywords, IsJsonLiteral, FirstAlien;
    var visit := VisitExtension(heap, v, path, keywords, ancestors);
    if visit.opens.Some? {
      assert WellFormed(heap, heap[v.id]);
      hide OpaqueField;
      forall child <- visit.children ensures ChildPlaced(heap, voc, root, t, visit.opens.Some?, child) {
        var part := child.path[|path|];
        LookupChild(heap, root, path, part);
        if t.Property? { OpaqueStays(voc, path, child.path); }
      }
    }
  }

  lemma OpaqueStays(voc: Vocabulary, path: FieldPath, longer: FieldPath)
    requires OpaqueField(voc, path, |path|) && Prefix(path, longer)
    ensures OpaqueField(voc, longer, |path|)
  {
    assert longer[|path| - 1] == longer[..|path|][|path| - 1];
  }

  lemma DocumentChildren(heap: Heap, voc: Vocabulary, root: Value, v: Value, path: FieldPath, inherited: Option<nat>,
                         range: Option<nat>, decoder: Option<nat>, ancestors: set<nat>, t: Task)
    requires Lookup(heap, root, path) == Some(v) && (t.Document? || t.Embedded?) && OpenPath(t) == path
    ensures var visit := VisitDocument(heap, voc, v, path, inherited, range, decoder, ancestors);
            && (visit.opens.Some? ==> Lookup(heap, root, path) == Some(Ref(visit.opens.value)))
            && (forall child <- visit.children :: ChildPlaced(heap, voc, root, t, visit.opens.Some?, child))
  {
    hide EnterRecord, FirstAlien;
  }

  lemma PropertyChildren(heap: Heap, voc: Vocabulary, root: Value, t: Task, ancestors: set<nat>)
    requires Closed(heap) && t.Property? && Leads(heap, root, t)
    ensures var visit := VisitProperty(heap, voc, t, ancestors);
            && (visit.opens.Some? ==> Lookup(heap, root, OpenPath(t)) == Some(Ref(visit.opens.value)))
            && (forall child <- visit.children :: ChildPlaced(heap, voc, root, t, visit.opens.Some?, child))
  {
    hide CheckLeaf, Omittable, Aliased, VisitExtension, VisitReferences, ChildPlaced;
    if t.doc in heap && heap[t.doc].Record? && t.source in heap[t.doc].fields {
      var v := heap[t.doc].fields[t.source];
      LookupChild(heap, root, t.path, Key(t.source));
      hide Lookup, Closed, Leads, CountValues, IsList;
      var plan := voc.plan(t.context, t.kind, t.source);
      if plan.Opaque? {
        assert IsOpaque(voc, t.context, t.kind, t.source) && OpaqueField(voc, OpenPath(t), |OpenPath(t)|);
        ExtensionChildren(heap, voc, root, v, OpenPath(t), true, ancestors, t);
      }
      if plan.Checked? && plan.rule.References? { ReferenceChildren(heap, voc, root, plan.rule, v, t); }
    }
  }

  lemma ReferenceChildren(heap: Heap, voc: Vocabulary, root: Value, rule: Rule, v: Value, t: Task)
    requires rule.References? && t.Property? && Lookup(heap, root, OpenPath(t)) == Some(v)
    ensures var visit := VisitReferences(heap, rule, v, OpenPath(t), t.context);
            visit.opens.None?
              && forall child <- visit.children :: ChildPlaced(heap, voc, root, t, visit.opens.Some?, child)
  {
    hide CountValues;
    if IsList(heap, v) {
      EmbeddedArePlaced(heap, root, heap[v.id].items, 0, !rule.navigation, OpenPath(t), t.context, rule.range,
                        rule.decoder);
    }
  }

  lemma {:induction false} EmbeddedArePlaced(
      heap: Heap, root: Value, items: seq<Value>, from: nat, nulls: bool, path: FieldPath, context: nat,
      range: Option<nat>, decoder: Option<nat>)
    requires var v := Lookup(heap, root, path); v.Some? && IsList(heap, v.value) && heap[v.value.id].items == items
    ensures forall child <- EmbeddedTasks(items, from, nulls, path, context, range, decoder) ::
      child.Embedded? && Prefix(path, child.path) && |child.path| == |path| + 1 && Leads(heap, root, child)
    decreases |items| - from
  {
    if from < |items| {
      LookupChild(heap, root, path, Index(from));
      EmbeddedArePlaced(heap, root, items, from + 1, nulls, path, context, range, decoder);
    }
  }

  lemma OneMoreIsPlaced(heap: Heap, voc: Vocabulary, root: Value, pending: seq<Work>, work: Work)
    requires Placed(heap, voc, root, pending)
    requires match work
             case Run(t) => TaskPlaced(heap, voc, root, pending, t)
             case Close(id, path) => ClosePlaced(heap, root, pending, id, path)
    ensures Placed(heap, voc, root, pending + [work])
  {
    hide TaskPlaced, ClosePlaced;
    var more := pending + [work];
    assert more[..|pending|] == pending;
    assert forall i | 0 <= i < |pending| :: more[..i] == pending[..i] && more[i] == pending[i];
  }

  lemma RunsOpenNothing(below: seq<Work>, runs: seq<Work>, path: FieldPath)
    requires forall work <- runs :: work.Run?
    ensures OpenAt(below + runs, path) <==> OpenAt(below, path)
  {
    if OpenAt(below, path) {
      var work :| work in below && work.Close? && work.path == path;
      assert work in below + runs;
    }
  }

  /** Only the containers below a task matter to its place, not the other tasks. */
  lemma RunsDoNotMatter(heap: Heap, voc: Vocabulary, root: Value, below: seq<Work>, runs: seq<Work>, t: Task)
    requires TaskPlaced(heap, voc, root, below, t) && forall work <- runs :: work.Run?
    ensures TaskPlaced(heap, voc, root, below + runs, t)
  {
    hide Leads, RecordAt, OpenAt, IsBase;
    if !t.Finding? {
      var base: nat :| IsBase(voc, t, base) && OpensFrom(heap, root, below, t, base);
      forall n: nat | n < Above(t) ensures OpenAt(below + runs, t.path[..n]) <==> OpenAt(below, t.path[..n]) {
        RunsOpenNothing(below, runs, t.path[..n]);
      }
      assert OpensFrom(heap, root, below + runs, t, base);
    }
  }

  lemma {:induction false} PushingKeepsPlaces(heap: Heap, voc: Vocabulary, root: Value, below: seq<Work>,
                                              children: seq<Task>)
    requires Placed(heap, voc, root, below) && forall child <- children :: TaskPlaced(heap, voc, root, below, child)
    ensures Placed(heap, voc, root, below + Pushed(children))
  {
    hide Placed, TaskPlaced;
    if children == [] {
      assert below + Pushed(children) == below;
    } else {
      PushingKeepsPlaces(heap, voc, root, below, children[1..]);
      PushedAreRuns(children[1..]);
      RunsDoNotMatter(heap, voc, root, below, Pushed(children[1..]), children[0]);
      OneMoreIsPlaced(heap, voc, root, below + Pushed(children[1..]), Run(children[0]));
      assert below + Pushed(children) == below + Pushed(children[1..]) + [Run(children[0])];
    }
  }

  lemma TopIsPlaced(heap: Heap, voc: Vocabulary, root: Value, below: seq<Work>, t: Task)
    requires Placed(heap, voc, root, below + [Run(t)])
    ensures Placed(heap, voc, root, below) && TaskPlaced(heap, voc, root, below, t)
  {
    hide TaskPlaced, ClosePlaced;
    var stack := below + [Run(t)];
    assert stack[..|below|] == below;
    assert forall i | 0 <= i < |below| :: stack[..i] == below[..i] && stack[i] == below[i];
  }

  /** Running a task keeps every open container on the path of what is above it. */
  lemma RunningKeepsPlaces(heap: Heap, voc: Vocabulary, root: Value, below: seq<Work>, t: Task, ancestors: set<nat>)
    requires Closed(heap) && Placed(heap, voc, root, below + [Run(t)])
    ensures Placed(heap, voc, root, After(below, t, VisitTask(heap, voc, t, ancestors)))
  {
    hide VisitTask, Placed, ClosePlaced, ChildPlaced;
    var visit := VisitTask(heap, voc, t, ancestors);
    TopIsPlaced(heap, voc, root, below, t);
    assert Leads(heap, root, t);
    hide TaskPlaced;
    ChildrenArePlaced(heap, voc, root, t, ancestors);
    var opens := below + Closing(t, visit);
    if visit.opens.Some? {
      ClosingIsPlaced(heap, voc, root, below, t, visit);
      OneMoreIsPlaced(heap, voc, root, below, Close(visit.opens.value, OpenPath(t)));
    } else {
      assert opens == below;
    }
    forall child <- visit.children ensures TaskPlaced(heap, voc, root, opens, child) {
      ChildIsPlaced(heap, voc, root, below, t, visit, child);
    }
    PushingKeepsPlaces(heap, voc, root, opens, visit.children);
  }

  lemma ClosingIsPlaced(heap: Heap, voc: Vocabulary, root: Value, below: seq<Work>, t: Task, visit: Visit)
    requires TaskPlaced(heap, voc, root, below, t) && !t.Finding? && visit.opens.Some?
    requires Lookup(heap, root, OpenPath(t)) == Some(Ref(visit.opens.value))
    ensures ClosePlaced(heap, root, below, visit.opens.value, OpenPath(t))
  {
  }

  /** A child lies below its parent, and nothing but the parent's own container is in between. */
  lemma ChildIsBelow(heap: Heap, voc: Vocabulary, root: Value, t: Task, visit: Visit, child: Task)
    requires ChildPlaced(heap, voc, root, t, visit.opens.Some?, child) && !child.Finding?
    ensures !t.Finding? && Prefix(t.path, OpenPath(t)) && Prefix(OpenPath(t), child.path) && Prefix(t.path, child.path)
    ensures Above(t) <= Above(child) <= |OpenPath(t)| + 1 && (visit.opens.Some? ==> |OpenPath(t)| < Above(child))
  {
    hide Leads, RecordAt, OpaqueField;
    assert OpenPath(t)[..|t.path|] == t.path;
    PrefixOfPrefix(t.path, OpenPath(t), child.path);
  }

  lemma ClosingIsAt(t: Task, visit: Visit, work: Work)
    requires work in Closing(t, visit)
    ensures work.Close? && work.path == OpenPath(t) && visit.opens.Some?
  {
  }

  /** The containers open around a child: those around its parent, and the one its parent opens. */
  lemma OpenAroundChild(heap: Heap, voc: Vocabulary, root: Value, below: seq<Work>, t: Task, visit: Visit, child: Task,
                        n: nat)
    requires TaskPlaced(heap, voc, root, below, t) && ChildPlaced(heap, voc, root, t, visit.opens.Some?, child)
    requires !child.Finding? && n < Above(child)
    ensures OpenAt(below + Closing(t, visit), child.path[..n])
       <==> if n < Above(t) then OpenAt(below, t.path[..n]) else visit.opens.Some? && n == |OpenPath(t)|
    ensures n < Above(t) ==> child.path[..n] == t.path[..n]
  {
    ChildIsBelow(heap, voc, root, t, visit, child);
    hide ChildPlaced, RecordAt, Leads, OpenPath, IsBase, OpensFrom;
    var under := below + Closing(t, visit);
    if n < Above(t) {
      assert child.path[..n] == child.path[..|t.path|][..n];
      if OpenAt(below, t.path[..n]) {
        var work :| work in below && work.Close? && work.path == t.path[..n];
        assert work in under;
      }
      if OpenAt(under, child.path[..n]) {
        var work :| work in under && work.Close? && work.path == child.path[..n];
        if work in Closing(t, visit) { ClosingIsAt(t, visit, work); }
      }
    } else {
      if visit.opens.Some? && n == |OpenPath(t)| { assert Closing(t, visit)[0] in under; }
      if OpenAt(under, child.path[..n]) {
        var work :| work in under && work.Close? && work.path == child.path[..n];
        assert work in below ==> |work.path| < Above(t);
      }
    }
  }

  lemma ContainerIsAboveChild(heap: Heap, voc: Vocabulary, root: Value, below: seq<Work>, t: Task, visit: Visit,
                              child: Task, work: Work)
    requires TaskPlaced(heap, voc, root, below, t) && ChildPlaced(heap, voc, root, t, visit.opens.Some?, child)
    requires !child.Finding? && work in below + Closing(t, visit) && work.Close?
    ensures |work.path| < Above(child) && Prefix(work.path, child.path)
  {
    ChildIsBelow(heap, voc, root, t, visit, child);
    if work in below {
      PrefixOfPrefix(work.path, t.path, child.path);
    } else {
      assert work == Closing(t, visit)[0];
    }
  }

  lemma ChildIsPlaced(heap: Heap, voc: Vocabulary, root: Value, below: seq<Work>, t: Task, visit: Visit, child: Task)
    requires TaskPlaced(heap, voc, root, below, t) && ChildPlaced(heap, voc, root, t, visit.opens.Some?, child)
    ensures TaskPlaced(heap, voc, root, below + Closing(t, visit), child)
  {
    if !child.Finding? {
      assert Leads(heap, root, child);
      ChildIsBased(heap, voc, root, below, t, visit, child);
      hide ChildPlaced, RecordAt, Leads, OpenPath, IsBase, OpensFrom;
      forall work <- below + Closing(t, visit) | work.Close?
        ensures |work.path| < Above(child) && Prefix(work.path, child.path)
      {
        ContainerIsAboveChild(heap, voc, root, below, t, visit, child, work);
      }
    }
  }

  /** Opaque data begins for the children of a task where it begins for the task, or with the property that opens it. */
  lemma ChildIsBased(heap: Heap, voc: Vocabulary, root: Value, below: seq<Work>, t: Task, visit: Visit, child: Task)
    requires TaskPlaced(heap, voc, root, below, t) && ChildPlaced(heap, voc, root, t, visit.opens.Some?, child)
    requires !child.Finding?
    ensures exists base: nat ::
              IsBase(voc, child, base) && OpensFrom(heap, root, below + Closing(t, visit), child, base)
  {
    ChildIsBelow(heap, voc, root, t, visit, child);
    hide Leads, RecordAt, OpenAt, Closing, OpaqueField;
    var base: nat :| IsBase(voc, t, base) && OpensFrom(heap, root, below, t, base);
    var next := BaseOfChild(t, child, base);
    hide OpensFrom, ChildPlaced;
    forall n: nat | n < Above(child)
      ensures OpenAt(below + Closing(t, visit), child.path[..n]) <==> RecordAt(heap, root, child.path[..n]) || next <= n
    {
      OpensAroundChild(heap, voc, root, below, t, visit, child, base, n);
    }
    assert OpensFrom(heap, root, below + Closing(t, visit), child, next) by {
      OpensBelow(heap, root, below + Closing(t, visit), child, next);
    }
    BaseIsInherited(heap, voc, root, t, visit, child, base);
  }

  function BaseOfChild(t: Task, child: Task, base: nat): nat
    requires !t.Finding? && !child.Finding?
  {
    if child.Extension? then (if t.Extension? then base else |OpenPath(t)|) else Above(child)
  }

  lemma OpensBelow(heap: Heap, root: Value, below: seq<Work>, t: Task, base: nat)
    requires !t.Finding?
    requires forall n: nat | n < Above(t) ::
               OpenAt(below, t.path[..n]) <==> RecordAt(heap, root, t.path[..n]) || base <= n
    ensures OpensFrom(heap, root, below, t, base)
  {
  }

  lemma BaseIsInherited(heap: Heap, voc: Vocabulary, root: Value, t: Task, visit: Visit, child: Task, base: nat)
    requires ChildPlaced(heap, voc, root, t, visit.opens.Some?, child) && !child.Finding? && !t.Finding?
             && IsBase(voc, t, base)
    ensures IsBase(voc, child, BaseOfChild(t, child, base))
  {
    hide Leads, RecordAt, OpaqueField;
    ChildIsBelow(heap, voc, root, t, visit, child);
    if child.Extension? && t.Extension? { OpaqueStaysAt(voc, t.path, child.path, base); }
  }

  lemma OpensAroundChild(heap: Heap, voc: Vocabulary, root: Value, below: seq<Work>, t: Task, visit: Visit,
                         child: Task, base: nat, n: nat)
    requires TaskPlaced(heap, voc, root, below, t) && ChildPlaced(heap, voc, root, t, visit.opens.Some?, child)
             && !child.Finding?
    requires !t.Finding? && IsBase(voc, t, base) && OpensFrom(heap, root, below, t, base) && n < Above(child)
    ensures OpenAt(below + Closing(t, visit), child.path[..n])
       <==> RecordAt(heap, root, child.path[..n]) || BaseOfChild(t, child, base) <= n
  {
    ChildIsBelow(heap, voc, root, t, visit, child);
    OpenAroundChild(heap, voc, root, below, t, visit, child, n);
    hide Leads, RecordAt, OpenAt, Closing, OpaqueField, TaskPlaced;
    if n >= Above(t) { assert n == |OpenPath(t)| && child.path[..n] == OpenPath(t); }
  }

  lemma OpaqueStaysAt(voc: Vocabulary, path: FieldPath, longer: FieldPath, n: nat)
    requires OpaqueField(voc, path, n) && Prefix(path, longer)
    ensures OpaqueField(voc, longer, n)
  {
    assert longer[n - 1] == longer[..|path|][n - 1];
  }

  lemma ClosingKeepsPlaces(heap: Heap, voc: Vocabulary, root: Value, below: seq<Work>, id: nat, path: FieldPath)
    requires Placed(heap, voc, root, below + [Close(id, path)])
    ensures Placed(heap, voc, root, below)
  {
    var stack := below + [Close(id, path)];
    forall i | 0 <= i < |below|
      ensures match below[i]
              case Run(t) => TaskPlaced(heap, voc, root, below[..i], t)
              case Close(other, at) => ClosePlaced(heap, root, below[..i], other, at)
    {
      assert stack[i] == below[i] && stack[..i] == below[..i];
    }
  }

  /**
   * When a task is about to run, the ancestors are exactly the containers open on the path to it: the
   * records above it, and, where opaque data begins at `base`, every container from there on.
   */
  lemma AncestorsAreOnThePath(heap: Heap, voc: Vocabulary, root: Value, below: seq<Work>, t: Task,
                              ancestors: set<nat>) returns (base: nat)
    requires Balanced(below + [Run(t)], ancestors) && Placed(heap, voc, root, below + [Run(t)])
    requires !t.Finding?
    ensures IsBase(voc, t, base)
    ensures forall id :: id in ancestors <==> OnPath(heap, root, t, base, id)
  {
    hide IsBase, Leads, Balanced, Placed, OpenAt;
    TopIsPlaced(heap, voc, root, below, t);
    base :| IsBase(voc, t, base) && OpensFrom(heap, root, below, t, base);
    forall id <- ancestors ensures OnPath(heap, root, t, base, id) {
      var n := AncestorIsAbove(heap, voc, root, below, t, ancestors, id);
      assert LiesAt(heap, root, t.path, n, id);
    }
    forall id | OnPath(heap, root, t, base, id) ensures id in ancestors {
      var n: nat :| n < Above(t) && LiesAt(heap, root, t.path, n, id)
        && (RecordAt(heap, root, t.path[..n]) || base <= n);
      OpenIsAncestor(heap, voc, root, below, t, ancestors, n, id);
    }
  }

  lemma AncestorIsAbove(heap: Heap, voc: Vocabulary, root: Value, below: seq<Work>, t: Task, ancestors: set<nat>,
                        id: nat) returns (n: nat)
    requires Balanced(below + [Run(t)], ancestors) && Placed(heap, voc, root, below + [Run(t)])
    requires !t.Finding? && TaskPlaced(heap, voc, root, below, t) && id in ancestors
    ensures n < Above(t) && LiesAt(heap, root, t.path, n, id) && OpenAt(below, t.path[..n])
  {
    hide OpensFrom, IsBase, Leads;
    var stack := below + [Run(t)];
    var i :| 0 <= i < |stack| && stack[i].Close? && stack[i].id == id;
    assert stack[i] in below;
    assert ClosePlaced(heap, root, stack[..i], id, stack[i].path);
    n := |stack[i].path|;
    assert t.path[..n] == stack[i].path;
  }

  lemma OpenIsAncestor(heap: Heap, voc: Vocabulary, root: Value, below: seq<Work>, t: Task, ancestors: set<nat>,
                       n: nat, id: nat)
    requires Balanced(below + [Run(t)], ancestors) && Placed(heap, voc, root, below + [Run(t)])
    requires !t.Finding? && n < Above(t) && LiesAt(heap, root, t.path, n, id) && OpenAt(below, t.path[..n])
    ensures id in ancestors
  {
    var stack := below + [Run(t)];
    var work :| work in below && work.Close? && work.path == t.path[..n];
    var i :| 0 <= i < |below| && below[i] == work;
    assert stack[i] == work && ClosePlaced(heap, root, stack[..i], work.id, work.path);
  }

  ghost predicate LiesAt(heap: Heap, root: Value, path: FieldPath, n: nat, id: nat)
    requires n <= |path|
  {
    Lookup(heap, root, path[..n]) == Some(Ref(id))
  }

  /** The container lies on the path to a task, and is a record or part of the opaque data around the task. */
  ghost predicate OnPath(heap: Heap, root: Value, t: Task, base: nat, id: nat)
    requires !t.Finding?
  {
    exists n: nat ::
        n < Above(t) && LiesAt(heap, root, t.path, n, id) && (RecordAt(heap, root, t.path[..n]) || base <= n)
  }

  /**
   * A cycle is reported where it closes: a document that lies on the path to itself, or a container
   * in opaque data that is a record above or lies in the same opaque data, is no JSON value there.
   */
  lemma CyclesAreReported(heap: Heap, voc: Vocabulary, root: Value, below: seq<Work>, t: Task,
                          ancestors: set<nat>) returns (base: nat)
    requires Balanced(below + [Run(t)], ancestors) && Placed(heap, voc, root, below + [Run(t)])
    requires t.Extension? || t.Document? || (t.Embedded? && IsRecord(heap, t.v))
    requires t.v.Ref? && t.v.id in heap && |t.path| <= MAXIMUM_PATH_DEPTH
    ensures IsBase(voc, t, base)
    ensures OnPath(heap, root, t, base, t.v.id) ==>
              VisitTask(heap, voc, t, ancestors) == Quiet([Diagnostic(NonJsonValue, t.path)])
    ensures !OnPath(heap, root, t, base, t.v.id) && t.Extension? ==>
              VisitTask(heap, voc, t, ancestors).opens == Some(t.v.id)
  {
    hide OnPath, IsBase, Balanced, Placed;
    base := AncestorsAreOnThePath(heap, voc, root, below, t, ancestors);
    assert t.v.id in ancestors <==> OnPath(heap, root, t, base, t.v.id);
  }

  lemma RootIsPlaced(heap: Heap, voc: Vocabulary, root: Value)
    ensures Placed(heap, voc, root, [Run(Document(root, [], None, None, None))])
  {
    var start := Document(root, [], None, None, None);
    var stack := [Run(start)];
    assert stack[..0] == [];
    assert IsBase(voc, start, 0) && OpensFrom(heap, root, [], start, 0);
    assert TaskPlaced(heap, voc, root, [], start);
  }
}
