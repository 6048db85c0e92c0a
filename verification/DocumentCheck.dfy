/** The checker's loop, and what a clean outcome says about the graph it walked. */
module DocumentCheck {
  import opened Wrappers
  import opened Diagnostics
  import opened DocumentGraph
  import opened DocumentRules
  import opened DocumentWalk
  import opened WorkStack
  import opened OpenContainers

  lemma EventsConcat(some: seq<Event>, more: seq<Event>)
    ensures ReportedIn(some + more) == ReportedIn(some) + ReportedIn(more)
    ensures ProposedIn(some + more) == ProposedIn(some) + ProposedIn(more)
  {
    ReportedConcat(some, more);
    ProposedConcat(some, more);
  }

  lemma {:induction false} ReportedConcat(some: seq<Event>, more: seq<Event>)
    ensures ReportedIn(some + more) == ReportedIn(some) + ReportedIn(more)
  {
    if some == [] {
      assert some + more == more;
    } else {
      var all := some + more;
      assert all[0] == some[0] && all[1..] == some[1..] + more;
      ReportedConcat(some[1..], more);
      var first := if some[0].Reported? then [some[0].d] else [];
      assert first + (ReportedIn(some[1..]) + ReportedIn(more)) == first + ReportedIn(some[1..]) + ReportedIn(more);
    }
  }

  lemma {:induction false} ProposedConcat(some: seq<Event>, more: seq<Event>)
    ensures ProposedIn(some + more) == ProposedIn(some) + ProposedIn(more)
  {
    if some == [] {
      assert some + more == more;
    } else {
      var all := some + more;
      assert all[0] == some[0] && all[1..] == some[1..] + more;
      ProposedConcat(some[1..], more);
      var first := if some[0].Proposed? then [some[0]] else [];
      assert first + (ProposedIn(some[1..]) + ProposedIn(more)) == first + ProposedIn(some[1..]) + ProposedIn(more);
    }
  }

  lemma EmptyEvents()
    ensures ReportedIn([]) == [] && ProposedIn([]) == []
  {
  }

  lemma OneMoreEvent(events: seq<Event>, i: nat)
    requires i < |events|
    ensures ReportedIn(events[..i + 1]) == ReportedIn(events[..i]) + if events[i].Reported? then [events[i].d] else []
    ensures ProposedIn(events[..i + 1]) == ProposedIn(events[..i]) + if events[i].Proposed? then [events[i]] else []
  {
    assert events[..i + 1] == events[..i] + [events[i]];
    EventsConcat(events[..i], [events[i]]);
    assert ReportedIn([events[i]]) == if events[i].Reported? then [events[i].d] else [];
    assert ProposedIn([events[i]]) == if events[i].Proposed? then [events[i]] else [];
  }

  /** Passes the events of one task on, in order. */
  method Emit(events: seq<Event>, reporter: Reporter, changes: seq<Event>) returns (all: seq<Event>)
    requires reporter.Valid()
    modifies reporter
    ensures reporter.Valid() && reporter.reported == old(reporter.reported) + ReportedIn(events)
    ensures all == changes + ProposedIn(events)
  {
    hide ReportedIn, ProposedIn, Shown, Finished;
    all := changes;
    EmptyEvents();
    for i := 0 to |events|
      invariant reporter.Valid() && reporter.reported == old(reporter.reported) + ReportedIn(events[..i])
      invariant all == changes + ProposedIn(events[..i])
    {
      OneMoreEvent(events, i);
      match events[i]
      case Reported(d) => reporter.Report(d);
      case Proposed(_, _) => all := all + [events[i]];
    }
    assert events[..|events|] == events;
  }

  /**
   * Checks a whole document with an explicit stack, stopping once the diagnostics overflow.  It
   * terminates on every graph, cyclic or not; what it shows is what the recursive walk reports,
   * capped, and unless it overflowed it proposes exactly the walk's changes.
   */
  method CheckDocumentValue(heap: Heap, voc: Vocabulary, root: Value, reporter: Reporter) returns (changes: seq<Event>)
    requires Closed(heap)
    requires reporter.Valid()
    modifies reporter
    ensures reporter.Valid()
    ensures var all := old(reporter.reported) + ReportedIn(Findings(heap, voc, root));
            && reporter.diagnostics == Shown(all)
            && reporter.complete == Finished(all)
            && reporter.truncated == (|all| > MAXIMUM_DIAGNOSTICS)
            && (!reporter.truncated ==> reporter.reported == all)
    ensures !reporter.truncated ==> changes == ProposedIn(Findings(heap, voc, root))
  {
    hide VisitTask, Walk, StackWalk, Shown, Finished, ReportedIn, ProposedIn, Balanced, Placed;
    var start := Document(root, [], None, None, None);
    var pending := [Run(start)];
    var ancestors: set<nat> := {};
    changes := [];
    ghost var emitted: seq<Event> := [];
    StartOfWalk(heap, voc, root);
    while pending != [] && !reporter.truncated
      invariant reporter.Valid()
      invariant AllBounded(pending)
      invariant Balanced(pending, ancestors) && Placed(heap, voc, root, pending)
      invariant emitted + StackWalk(heap, voc, pending, ancestors).0 == Findings(heap, voc, root)
      invariant reporter.reported == old(reporter.reported) + ReportedIn(emitted)
      invariant changes == ProposedIn(emitted)
      decreases StackWalk(heap, voc, pending, ancestors).1
    {
      var work, below := pending[|pending| - 1], pending[..|pending| - 1];
      assert pending == below + [work];
      ghost var rest := StackWalk(heap, voc, pending, ancestors).0;
      match work
      case Close(id, path) =>
        TopCloses(heap, voc, below, id, path, ancestors);
        ClosingKeepsBalance(below, id, path, ancestors);
        ClosingKeepsPlaces(heap, voc, root, below, id, path);
        pending, ancestors := below, ancestors - {id};
      case Run(t) =>
        RunningStep(heap, voc, below, t, ancestors);
        RunningKeepsBalance(heap, voc, below, t, ancestors);
        RunningKeepsPlaces(heap, voc, root, below, t, ancestors);
        var visit := VisitTask(heap, voc, t, ancestors);
        changes := Emit(visit.events, reporter, changes);
        EventsConcat(emitted, visit.events);
        pending := below + Closing(t, visit) + Pushed(visit.children);
        ancestors := ancestors + Opened(visit);
        assert emitted + (visit.events + StackWalk(heap, voc, pending, ancestors).0)
            == emitted + visit.events + StackWalk(heap, voc, pending, ancestors).0;
        emitted := emitted + visit.events;
    }
    ghost var rest := StackWalk(heap, voc, pending, ancestors).0;
    EventsConcat(emitted, rest);
    ghost var all := old(reporter.reported) + ReportedIn(Findings(heap, voc, root));
    assert all == reporter.reported + ReportedIn(rest);
    if reporter.truncated {
      ShownIgnoresTail(reporter.reported, ReportedIn(rest));
    } else {
      EmptyStack(heap, voc, ancestors);
      assert emitted + [] == emitted;
    }
  }

  lemma EmptyStack(heap: Heap, voc: Vocabulary, ancestors: set<nat>)
    ensures StackWalk(heap, voc, [], ancestors).0 == [] && ReportedIn([]) == [] && ProposedIn([]) == []
  {
  }

  lemma StartOfWalk(heap: Heap, voc: Vocabulary, root: Value)
    ensures var start := Document(root, [], None, None, None);
            && AllBounded([Run(start)]) && Balanced([Run(start)], {}) && Placed(heap, voc, root, [Run(start)])
            && StackWalk(heap, voc, [Run(start)], {}).0 == Findings(heap, voc, root)
            && ReportedIn([]) == [] && ProposedIn([]) == []
  {
    var start := Document(root, [], None, None, None);
    assert [] + [Run(start)] == [Run(start)];
    RootIsPlaced(heap, voc, root);
    hide Walk, Placed;
    TopRuns(heap, voc, [], start, {});
    assert Findings(heap, voc, root) + [] == Findings(heap, voc, root);
  }
}
