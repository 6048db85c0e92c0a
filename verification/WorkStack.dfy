/** The explicit work stack of the document checker, and its agreement with the recursive walk. */
module WorkStack {
  import opened Diagnostics
  import opened DocumentGraph
  import opened DocumentRules
  import opened DocumentWalk

  /** Pending work, the next item last: a task to run, or a container to close. */
  datatype Work = Run(t: Task) | Close(id: nat, path: FieldPath)

  /** The children of a task as pushed: in reverse, so that the first is popped first. */
  function Pushed(children: seq<Task>): seq<Work> {
    if children == [] then [] else Pushed(children[1..]) + [Run(children[0])]
  }

  /** Where the container that a task may open lies. */
  function OpenPath(t: Task): FieldPath {
    match t
    case Property(_, path, _, _, source) => At(path, Key(source))
    case Finding(_) => []
    case _ => t.path
  }

  function Closing(t: Task, visit: Visit): seq<Work> {
    if visit.opens.Some? then [Close(visit.opens.value, OpenPath(t))] else []
  }

  /** What is left on the stack, above `below`, after running `t`. */
  function After(below: seq<Work>, t: Task, visit: Visit): seq<Work> {
    below + Closing(t, visit) + Pushed(visit.children)
  }

  // ------------------------------------------------------------ what the stack still stands for

  ghost predicate AllBounded(pending: seq<Work>) {
    forall work <- pending | work.Run? :: Bounded(work.t)
  }

  /** The walk a stack stands for, given the containers open now. */
  ghost function StackWalk(heap: Heap, voc: Vocabulary, pending: seq<Work>, ancestors: set<nat>): (seq<Event>, nat)
    requires AllBounded(pending)
  {
    if pending == [] then ([], 0)
    else
      var top, below := pending[|pending| - 1], pending[..|pending| - 1];
      match top
      case Close(id, _) =>
        var (events, steps) := StackWalk(heap, voc, below, ancestors - {id});
        (events, 1 + steps)
      case Run(t) =>
        var (first, some) := Walk(heap, voc, t, ancestors);
        var (rest, more) := StackWalk(heap, voc, below, ancestors);
        (first + rest, some + more)
  }

  lemma PushedAreBounded(children: seq<Task>)
    requires forall t <- children :: Bounded(t)
    ensures AllBounded(Pushed(children))
  {
  }

  /** Pushing the children of a task stands for walking all of them in order. */
  lemma {:induction false} PushedWalk(heap: Heap, voc: Vocabulary, below: seq<Work>, children: seq<Task>,
                                      ancestors: set<nat>, room: nat)
    requires AllBounded(below) && AllBounded(below + Pushed(children))
    requires forall t <- children :: Bounded(t) && Room(t) < room
    ensures var walked, rest := WalkAll(heap, voc, children, ancestors, room), StackWalk(heap, voc, below, ancestors);
            StackWalk(heap, voc, below + Pushed(children), ancestors) == (walked.0 + rest.0, walked.1 + rest.1)
  {
    hide Walk, Bounded, Room;
    if children == [] {
      assert below + Pushed(children) == below;
      assert [] + StackWalk(heap, voc, below, ancestors).0 == StackWalk(heap, voc, below, ancestors).0;
    } else {
      var stack := below + Pushed(children);
      assert stack[..|stack| - 1] == below + Pushed(children[1..]);
      assert stack[|stack| - 1] == Run(children[0]);
      PushedWalk(heap, voc, below, children[1..], ancestors, room);
      var walked, rest := WalkAll(heap, voc, children[1..], ancestors, room), StackWalk(heap, voc, below, ancestors);
      assert Walk(heap, voc, children[0], ancestors).0 + (walked.0 + rest.0)
          == Walk(heap, voc, children[0], ancestors).0 + walked.0 + rest.0;
    }
  }

  // ------------------------------------------------------------ the open containers

  /** The ancestors are the containers with a pending close, once each. */
  ghost predicate Balanced(pending: seq<Work>, ancestors: set<nat>) {
    && (forall id :: id in ancestors <==> exists i :: 0 <= i < |pending| && pending[i].Close? && pending[i].id == id)
    && (forall i, j | 0 <= i < j < |pending| && pending[i].Close? && pending[j].Close? ::
          pending[i].id != pending[j].id)
  }

  lemma NothingOpensTwice(heap: Heap, voc: Vocabulary, t: Task, ancestors: set<nat>)
    ensures var visit := VisitTask(heap, voc, t, ancestors);
            visit.opens.Some? ==> visit.opens.value !in ancestors && visit.opens.value in heap
  {
    hide CheckLeaf, EnterRecord, Omittable, Aliased, CheckKeywords, CheckScalar, IsJsonLiteral, FirstAlien, CountValues;
  }

  lemma PushedAreRuns(children: seq<Task>)
    ensures |Pushed(children)| == |children|
    ensures forall i | 0 <= i < |children| :: Pushed(children)[i] == Run(children[|children| - 1 - i])
  {
  }

  lemma RunningKeepsBalance(heap: Heap, voc: Vocabulary, below: seq<Work>, t: Task, ancestors: set<nat>)
    requires Balanced(below + [Run(t)], ancestors)
    ensures var visit := VisitTask(heap, voc, t, ancestors);
            Balanced(After(below, t, visit), ancestors + Opened(visit))
  {
    var visit := VisitTask(heap, voc, t, ancestors);
    NothingOpensTwice(heap, voc, t, ancestors);
    hide VisitTask;
    PushedAreRuns(visit.children);
    var before, after := below + [Run(t)], After(below, t, visit);
    forall id ensures id in ancestors + Opened(visit) <==>
                      exists i :: 0 <= i < |after| && after[i].Close? && after[i].id == id
    {
      if id in ancestors {
        var i :| 0 <= i < |before| && before[i].Close? && before[i].id == id;
        assert after[i] == before[i];
      } else if id in Opened(visit) {
        assert after[|below|].Close?;
      }
      if i :| 0 <= i < |after| && after[i].Close? && after[i].id == id {
        if i < |below| { assert before[i] == after[i]; }
      }
    }
    assert forall i | 0 <= i < |below| :: before[i] == after[i];
  }

  lemma ClosingKeepsBalance(below: seq<Work>, id: nat, path: FieldPath, ancestors: set<nat>)
    requires Balanced(below + [Close(id, path)], ancestors)
    ensures Balanced(below, ancestors - {id})
  {
    var before := below + [Close(id, path)];
    assert before[|below|].Close?;
    assert forall i | 0 <= i < |below| :: before[i] == below[i];
    forall other ensures other in ancestors - {id} <==>
                         exists i :: 0 <= i < |below| && below[i].Close? && below[i].id == other
    {
      if other in ancestors - {id} {
        var i :| 0 <= i < |before| && before[i].Close? && before[i].id == other;
        assert below[i] == before[i];
      }
      if i :| 0 <= i < |below| && below[i].Close? && below[i].id == other {
        assert before[i].id == other && before[|below|].id == id;
      }
    }
  }

  // ------------------------------------------------------------ one step

  lemma TopRuns(heap: Heap, voc: Vocabulary, below: seq<Work>, t: Task, ancestors: set<nat>)
    requires AllBounded(below + [Run(t)])
    ensures AllBounded(below) && Bounded(t)
    ensures var walked, rest := Walk(heap, voc, t, ancestors), StackWalk(heap, voc, below, ancestors);
            StackWalk(heap, voc, below + [Run(t)], ancestors) == (walked.0 + rest.0, walked.1 + rest.1)
  {
    hide Walk, Bounded;
    var stack := below + [Run(t)];
    assert stack[|stack| - 1] == Run(t) && stack[..|stack| - 1] == below;
    assert forall work <- below :: work in stack;
    assert Run(t) in stack;
  }

  lemma TopCloses(heap: Heap, voc: Vocabulary, below: seq<Work>, id: nat, path: FieldPath, ancestors: set<nat>)
    requires AllBounded(below + [Close(id, path)])
    ensures AllBounded(below)
    ensures var rest := StackWalk(heap, voc, below, ancestors - {id});
            StackWalk(heap, voc, below + [Close(id, path)], ancestors) == (rest.0, 1 + rest.1)
  {
    hide Walk, Bounded;
    var stack := below + [Close(id, path)];
    assert stack[..|stack| - 1] == below;
    assert forall work <- below :: work in stack;
  }

  lemma WalkUnfolds(heap: Heap, voc: Vocabulary, t: Task, ancestors: set<nat>)
    requires Bounded(t)
    ensures var visit := VisitTask(heap, voc, t, ancestors);
            && (forall child <- visit.children :: Bounded(child) && Room(child) < Room(t))
            && var children := WalkAll(heap, voc, visit.children, ancestors + Opened(visit), Room(t));
               Walk(heap, voc, t, ancestors)
               == (visit.events + children.0, 1 + (if visit.opens.Some? then 1 else 0) + children.1)
  {
    hide VisitTask, WalkAll, Room;
    ChildrenHaveLessRoom(heap, voc, t, ancestors);
  }

  /** Running a task emits its events; the stack then stands for the rest of the walk. */
  lemma RunningStep(heap: Heap, voc: Vocabulary, below: seq<Work>, t: Task, ancestors: set<nat>)
    requires AllBounded(below + [Run(t)])
    ensures var visit := VisitTask(heap, voc, t, ancestors);
            var after := After(below, t, visit);
            && AllBounded(after)
            && StackWalk(heap, voc, below + [Run(t)], ancestors).0
               == visit.events + StackWalk(heap, voc, after, ancestors + Opened(visit)).0
            && StackWalk(heap, voc, after, ancestors + Opened(visit)).1
               < StackWalk(heap, voc, below + [Run(t)], ancestors).1
  {
    hide VisitTask, Bounded, StackWalk, WalkAll, Walk, Room, OpenPath;
    var visit := VisitTask(heap, voc, t, ancestors);
    NothingOpensTwice(heap, voc, t, ancestors);
    TopRuns(heap, voc, below, t, ancestors);
    WalkUnfolds(heap, voc, t, ancestors);
    var children := WalkAll(heap, voc, visit.children, ancestors + Opened(visit), Room(t));
    PushedAreBounded(visit.children);
    var opens := below + Closing(t, visit);
    assert AllBounded(opens + Pushed(visit.children));
    PushedWalk(heap, voc, opens, visit.children, ancestors + Opened(visit), Room(t));
    var rest := StackWalk(heap, voc, below, ancestors);
    if visit.opens.Some? {
      TopCloses(heap, voc, below, visit.opens.value, OpenPath(t), ancestors + Opened(visit));
      assert ancestors + Opened(visit) - {visit.opens.value} == ancestors;
    } else {
      assert opens == below && ancestors + Opened(visit) == ancestors;
    }
    assert visit.events + children.0 + rest.0 == visit.events + (children.0 + rest.0);
  }
}
