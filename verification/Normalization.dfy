/**
 * The validator: check, clone without the proposed fields, check the clone.  The second check adds
 * nothing and proposes nothing, so a preview is its own preview, and undoing its changes restores
 * the document.
 */
module Normalization {
  import opened Wrappers
  import opened Diagnostics
  import opened DocumentGraph
  import opened DocumentRules
  import opened DocumentWalk
  import opened OpenContainers
  import opened DocumentCheck
  import opened CleanDocuments
  import opened Preview
  import opened Omission
  import opened Proposals
  import opened PreviewAccounts
  import opened PreviewWalk
  import opened PreviewCheck
  import opened Undo

  /** The paths a list of changes removes, in order. */
  function ChangePaths(changes: seq<Event>): (paths: seq<FieldPath>)
    requires forall e <- changes :: e.Proposed?
    ensures |paths| == |changes| && forall i | 0 <= i < |changes| :: paths[i] == changes[i].path
  {
    seq(|changes|, i requires 0 <= i < |changes| => assert changes[i] in changes; changes[i].path)
  }

  lemma {:induction false} ProposedAreEvents(events: seq<Event>)
    ensures forall e <- ProposedIn(events) :: e.Proposed? && e in events
    ensures forall e <- events | e.Proposed? :: e in ProposedIn(events)
  {
    if events != [] {
      ProposedAreEvents(events[1..]);
      assert events == [events[0]] + events[1..];
    }
  }

  lemma {:induction false} ProposedStayScattered(events: seq<Event>)
    requires Scattered(events)
    ensures Scattered(ProposedIn(events))
  {
    hide Clear;
    if events != [] {
      assert forall i | 0 <= i < |events| - 1 :: events[1..][i] == events[i + 1];
      ProposedStayScattered(events[1..]);
      var first := if events[0].Proposed? then [events[0]] else [];
      ProposedAreEvents(events[1..]);
      forall e: Event, f: Event | e in first && f in ProposedIn(events[1..]) && e.Proposed? && f.Proposed?
        ensures Clear(e.path, f.path) {
        var i :| 0 <= i < |events| - 1 && events[1..][i] == f;
        assert events[i + 1] == f && e == events[0];
      }
      ScatteredConcat(first, ProposedIn(events[1..]));
    }
  }

  ghost function Changes(heap: Heap, voc: Vocabulary, root: nat): (changes: seq<Event>)
    ensures forall e <- changes :: e.Proposed?
  {
    ProposedAreEvents(Findings(heap, voc, Ref(root)));
    ProposedIn(Findings(heap, voc, Ref(root)))
  }

  ghost function Gone(heap: Heap, voc: Vocabulary, root: nat): set<FieldPath> {
    PathsOf(ChangePaths(Changes(heap, voc, root)))
  }

  /** The proposals of a check: fields that exist and hold nothing, none inside another. */
  lemma ProposalsAreProper(heap: Heap, voc: Vocabulary, root: nat)
    requires Closed(heap)
    ensures var changes := Changes(heap, voc, root);
            && Proper(heap, root, ChangePaths(changes))
            && forall e <- changes :: Lookup(heap, Ref(root), e.path) == Some(e.before) && Vacant(heap, e.before)
  {
    hide Walk, ProposedIn, Lookup, Closed, Vacant;
    var start := Document(Ref(root), [], None, None, None);
    var events, changes := Findings(heap, voc, Ref(root)), Changes(heap, voc, root);
    RootLeads(heap, root, start);
    WalkIsScattered(heap, voc, start, {});
    WalkIsGenuine(heap, voc, Ref(root), start, {});
    ProposedAreEvents(events);
    ProposedStayScattered(events);
    var paths := ChangePaths(changes);
    forall i | 0 <= i < |paths| ensures Removable(heap, root, paths[i]) {
      assert changes[i] in changes;
      assert Genuine(heap, Ref(root), changes[i]);
    }
    forall i, j | 0 <= i < j < |paths|
      ensures paths[i] != paths[j] && !Encloses(paths[i], paths[j]) && !Encloses(paths[j], paths[i])
    {
      assert changes[i] in changes && changes[j] in changes;
    }
  }

  lemma RootLeads(heap: Heap, root: nat, start: Task)
    requires start == Document(Ref(root), [], None, None, None)
    ensures Leads(heap, Ref(root), start) && Bounded(start)
  {
  }

  lemma GoneIsProposed(heap: Heap, voc: Vocabulary, root: nat, path: FieldPath)
    ensures path in Gone(heap, voc, root) <==> Proposes(Findings(heap, voc, Ref(root)), path)
  {
    hide Walk, ProposedIn;
    var events, changes := Findings(heap, voc, Ref(root)), Changes(heap, voc, root);
    ProposedAreEvents(events);
    var paths := ChangePaths(changes);
    if path in paths {
      var i :| 0 <= i < |paths| && paths[i] == path;
      assert changes[i] in changes;
    }
    if Proposes(events, path) {
      var e :| e in events && e.Proposed? && e.path == path;
      var i :| 0 <= i < |changes| && changes[i] == e;
      assert paths[i] == path;
    }
  }

  /** Checking the preview finds what checking the document found, except about the removed fields. */
  lemma PreviewFindings(heap: Heap, nodes: Heap, tr: Trace, voc: Vocabulary, root: nat)
    requires Closed(heap) && Clean(Findings(heap, voc, Ref(root)))
    requires IsPreview(heap, nodes, tr, Gone(heap, voc, root)) && IsRoot(nodes, tr, root)
    ensures Findings(nodes, voc, Ref(0)) == Kept(Findings(heap, voc, Ref(root)), Gone(heap, voc, root))
  {
    hide Walk, ProposedIn, Closed, IsPreview, Kept, Clean, Gone, InScope;
    var start, start' := Document(Ref(root), [], None, None, None), Document(Ref(0), [], None, None, None);
    var gone := Gone(heap, voc, root);
    forall path | InScope(path, start) ensures path in gone <==> Proposes(Findings(heap, voc, Ref(root)), path) {
      GoneIsProposed(heap, voc, root, path);
    }
    assert Accounts(gone, start, Walk(heap, voc, start, {}).0);
    assert Ready(heap, voc, tr, gone, start, {}, {});
    Simulated(heap, nodes, tr, gone, voc, start, start', {}, {});
  }

  lemma {:induction false} KeptAreEvents(events: seq<Event>, gone: set<FieldPath>)
    ensures forall e <- Kept(events, gone) :: e in events && PathOf(e) !in gone
    ensures forall e <- events | PathOf(e) !in gone :: e in Kept(events, gone)
    ensures |ReportedIn(Kept(events, gone))| <= |ReportedIn(events)|
  {
    if events != [] {
      KeptAreEvents(events[1..], gone);
      var rest := Kept(events[1..], gone);
      assert events == [events[0]] + events[1..];
      assert ([events[0]] + rest)[1..] == rest && [] + rest == rest;
    }
  }

  lemma {:induction false} ReportedAreEvents(events: seq<Event>, d: Diagnostic)
    ensures d in ReportedIn(events) <==> Reported(d) in events
  {
    if events != [] {
      ReportedAreEvents(events[1..], d);
      assert events == [events[0]] + events[1..];
    }
  }

  /**
   * The preview is a fixed point: its check proposes nothing, reports nothing new, and still reports
   * everything that is not about a removed field.
   */
  lemma PreviewIsStable(heap: Heap, nodes: Heap, tr: Trace, voc: Vocabulary, root: nat)
    requires Closed(heap) && !HasError(ReportedIn(Findings(heap, voc, Ref(root))))
    requires IsPreview(heap, nodes, tr, Gone(heap, voc, root)) && IsRoot(nodes, tr, root)
    ensures ProposedIn(Findings(nodes, voc, Ref(0))) == []
    ensures forall d :: d in ReportedIn(Findings(nodes, voc, Ref(0)))
                   <==> d in ReportedIn(Findings(heap, voc, Ref(root))) && d.path !in Gone(heap, voc, root)
    ensures |ReportedIn(Findings(nodes, voc, Ref(0)))| <= |ReportedIn(Findings(heap, voc, Ref(root)))|
    ensures !HasError(ReportedIn(Findings(nodes, voc, Ref(0))))
  {
    hide Walk, Closed, IsPreview, Gone, Kept, ReportedIn, ProposedIn;
    var events, events' := Findings(heap, voc, Ref(root)), Findings(nodes, voc, Ref(0));
    var gone := Gone(heap, voc, root);
    CleanMeansNoErrors(events);
    PreviewFindings(heap, nodes, tr, voc, root);
    KeptAreEvents(events, gone);
    forall d ensures d in ReportedIn(events') <==> d in ReportedIn(events) && d.path !in gone {
      ReportedAreEvents(events, d);
      ReportedAreEvents(events', d);
      assert PathOf(Reported(d)) == d.path;
    }
    ProposedAreEvents(events');
    var proposed := ProposedIn(events');
    if proposed != [] {
      var e := proposed[0];
      assert e in events && e.Proposed? && PathOf(e) == e.path;
      GoneIsProposed(heap, voc, root, e.path);
      assert false;
    }
  }

  // ------------------------------------------------------------ undoing

  lemma {:induction false} LookupUnfolds(heap: Heap, v: Value, path: FieldPath, depth: nat, more: nat)
    requires Lookup(heap, v, path).Some? && Unfold(heap, v, depth).Some? && depth <= more
    ensures Unfold(heap, Lookup(heap, v, path).value, more).Some?
    ensures Inside(Unfold(heap, v, depth).value, path) == Unfold(heap, Lookup(heap, v, path).value, more)
    decreases |path|
  {
    hide Unfold, Lookup, Inside, UnfoldNode;
    if path == [] {
      LookupNothing(heap, v);
      InsideNothing(Unfold(heap, v, depth).value);
      UnfoldDeeper(heap, v, depth, more);
    } else {
      LookupFirst(heap, v, path);
      var child := Child(heap, v, path[0]).value;
      ChildInside(heap, v, path[0], depth);
      LookupUnfolds(heap, child, path[1..], depth - 1, more);
      InsideFirst(heap, v, path, depth);
    }
  }

  lemma LookupNothing(heap: Heap, v: Value)
    ensures Lookup(heap, v, []) == Some(v)
  {
  }

  lemma InsideNothing(json: Json)
    ensures Inside(json, []) == Some(json)
  {
  }

  /** A path can be followed from its first part as well as up to its last. */
  lemma {:induction false} LookupFirst(heap: Heap, v: Value, path: FieldPath)
    requires path != [] && Lookup(heap, v, path).Some?
    ensures Child(heap, v, path[0]).Some?
    ensures Lookup(heap, Child(heap, v, path[0]).value, path[1..]) == Lookup(heap, v, path)
    decreases |path|
  {
    hide Child;
    var last := path[|path| - 1];
    if |path| == 1 {
      assert path == [] + [last] && path[..0] == [] && path[1..] == [];
      LookupNothing(heap, v);
    } else {
      var init := path[..|path| - 1];
      LookupFirst(heap, v, init);
      assert init[0] == path[0] && init[1..] == path[1..][..|path[1..]| - 1];
      assert path[1..][|path[1..]| - 1] == last;
    }
  }

  lemma ChildInside(heap: Heap, v: Value, part: PathPart, depth: nat)
    requires Child(heap, v, part).Some? && Unfold(heap, v, depth).Some?
    ensures depth > 0 && Unfold(heap, Child(heap, v, part).value, depth - 1).Some?
  {
    if IsList(heap, v) { assert heap[v.id].items[part.index] in heap[v.id].items; }
  }

  lemma InsideFirst(heap: Heap, v: Value, path: FieldPath, depth: nat)
    requires path != [] && Child(heap, v, path[0]).Some? && Unfold(heap, v, depth).Some?
    requires depth > 0 && Unfold(heap, Child(heap, v, path[0]).value, depth - 1).Some?
    ensures Inside(Unfold(heap, v, depth).value, path)
         == Inside(Unfold(heap, Child(heap, v, path[0]).value, depth - 1).value, path[1..])
  {
  }

  /** The value a field had before its removal. */
  ghost function BeforeOf(heap: Heap, root: nat): FieldPath -> Json {
    (path: FieldPath) =>
      var v := Lookup(heap, Ref(root), path);
      if v.None? then JNull
      else
        var json := Unfold(heap, v.value, MAXIMUM_NESTING);
        if json.None? then JNull else json.value
  }

  /** Undoing the changes of a preview, with the values they record, gives the document back. */
  lemma PreviewIsReversible(heap: Heap, nodes: Heap, tr: Trace, voc: Vocabulary, root: nat)
    requires Closed(heap) && root in heap && !HasError(ReportedIn(Findings(heap, voc, Ref(root))))
    requires IsPreview(heap, nodes, tr, Gone(heap, voc, root)) && IsRoot(nodes, tr, root)
    ensures Unfold(heap, Ref(root), MAXIMUM_NESTING).Some? && Unfold(nodes, Ref(0), MAXIMUM_NESTING).Some?
    ensures var json, preview :=
            Unfold(heap, Ref(root), MAXIMUM_NESTING).value, Unfold(nodes, Ref(0), MAXIMUM_NESTING).value;
            && preview == Pruned(json, [], Gone(heap, voc, root))
            && Undone(preview, ChangePaths(Changes(heap, voc, root)), BeforeOf(heap, root)) == json
  {
    hide Walk, Unfold, HasError, ReportedIn, ProposedIn, IsPreview, Pruned, Undone, Lookup, Inside, Vacant, Closed;
    assert Present(heap, Ref(root));
    CleanDocumentsUnfold(heap, voc, Ref(root));
    RootIsLike(heap, nodes, tr, root);
    PreviewIsPruned(heap, nodes, tr, Gone(heap, voc, root), Ref(root), Ref(0), [], MAXIMUM_NESTING);
    ProposalsAreProper(heap, voc, root);
    var paths, json := ChangePaths(Changes(heap, voc, root)), Unfold(heap, Ref(root), MAXIMUM_NESTING).value;
    forall path: FieldPath | path in paths ensures Inside(json, path) == Some(BeforeOf(heap, root)(path)) {
      assert Removable(heap, root, path);
      LookupUnfolds(heap, Ref(root), path, MAXIMUM_NESTING, MAXIMUM_NESTING);
    }
    UndoRestores(json, paths, BeforeOf(heap, root));
  }

  // ------------------------------------------------------------ the validator

  /** A validation result; the normalized document is a heap whose document is container 0. */
  datatype Validation = Validation(
    diagnostics: seq<Diagnostic>, complete: bool, changes: seq<Event>, normalized: Option<Heap>)

  /** Whether a check leads to a preview. */
  ghost predicate Previewed(heap: Heap, voc: Vocabulary, root: Value) {
    var events := Findings(heap, voc, root);
    !HasError(ReportedIn(events)) && |ReportedIn(events)| <= MAXIMUM_DIAGNOSTICS && ProposedIn(events) != []
  }

  lemma PreviewIsClosed(heap: Heap, nodes: Heap, tr: Trace, gone: set<FieldPath>)
    requires Closed(heap) && IsPreview(heap, nodes, tr, gone)
    ensures Closed(nodes)
  {
    hide Closed;
    forall c <- nodes ensures WellFormed(nodes, nodes[c]) {
      assert Trimmed(heap, nodes, tr, gone, c);
      SourceIsWellFormed(heap, tr[c].source);
      CopyIsWellFormed(heap, nodes, tr, gone, c);
    }
    AllWellFormed(nodes);
  }

  lemma SourceIsWellFormed(heap: Heap, id: nat)
    requires Closed(heap) && id in heap
    ensures WellFormed(heap, heap[id])
  {
  }

  lemma AllWellFormed(heap: Heap)
    requires forall id <- heap :: WellFormed(heap, heap[id])
    ensures Closed(heap)
  {
  }

  lemma {:induction false} RemainingIsDistinct(keys: seq<string>, path: FieldPath, gone: set<FieldPath>)
    requires Distinct(keys)
    ensures Distinct(Remaining(keys, path, gone))
  {
    if keys != [] {
      assert forall i | 0 <= i < |keys| - 1 :: keys[1..][i] == keys[i + 1];
      RemainingIsDistinct(keys[1..], path, gone);
      assert keys[0] !in keys[1..];
    }
  }

  lemma CopyIsWellFormed(heap: Heap, nodes: Heap, tr: Trace, gone: set<FieldPath>, c: nat)
    requires nodes.Keys == tr.Keys && Trimmed(heap, nodes, tr, gone, c) && WellFormed(heap, heap[tr[c].source])
    ensures WellFormed(nodes, nodes[c])
  {
    if heap[tr[c].source].Record? { RemainingIsDistinct(heap[tr[c].source].keys, tr[c].place, gone); }
  }

  /** What a second list of diagnostics adds to a first, in order. */
  function News(original: seq<Diagnostic>, checked: seq<Diagnostic>): (news: seq<Diagnostic>)
    ensures forall d :: d in news <==> d in checked && d !in original
  {
    if checked == [] then []
    else
      var rest, last := checked[..|checked| - 1], checked[|checked| - 1];
      assert checked == rest + [last];
      News(original, rest) + if last in original then [] else [last]
  }

  /** Reports what the check of the preview found that the first check had not. */
  method ReportPreviewDiagnostics(original: seq<Diagnostic>, checked: seq<Diagnostic>, reporter: Reporter)
    requires reporter.Valid()
    modifies reporter
    ensures reporter.Valid() && reporter.reported == old(reporter.reported) + News(original, checked)
  {
    hide News, Shown, Finished, Reporter.Valid;
    NoNews(original, []);
    for i := 0 to |checked|
      invariant reporter.Valid() && reporter.reported == old(reporter.reported) + News(original, checked[..i])
    {
      OneMoreCompared(original, checked, i);
      if checked[i] !in original { reporter.Report(checked[i]); }
    }
    assert checked[..|checked|] == checked;
  }

  lemma OneMoreCompared(original: seq<Diagnostic>, checked: seq<Diagnostic>, i: nat)
    requires i < |checked|
    ensures News(original, checked[..i + 1]) == News(original, checked[..i]) + if checked[i] in original then []
            else [checked[i]]
  {
    assert checked[..i + 1][..i] == checked[..i];
  }

  lemma NoNews(original: seq<Diagnostic>, checked: seq<Diagnostic>)
    requires forall d <- checked :: d in original
    ensures News(original, checked) == []
  {
    if News(original, checked) != [] { assert News(original, checked)[0] in News(original, checked); }
  }


  lemma FirstCheck(heap: Heap, voc: Vocabulary, root: Value)
    ensures var reports := ReportedIn(Findings(heap, voc, root));
            Previewed(heap, voc, root)
            <==> Finished(reports) && !HasError(Shown(reports)) && ProposedIn(Findings(heap, voc, root)) != []
  {
    hide Walk, ReportedIn, ProposedIn;
    CleanShown(ReportedIn(Findings(heap, voc, root)));
  }

  /** A root that is not a document at all is reported as such, so there is nothing to preview. */
  lemma PreviewedIsDocument(heap: Heap, voc: Vocabulary, root: Value)
    requires Closed(heap) && Previewed(heap, voc, root)
    ensures root.Ref? && root.id in heap
  {
    hide WalkAll, VisitDocument;
    var start := Document(root, [], None, None, None);
    CleanMeansNoErrors(Findings(heap, voc, root));
    var visit := VisitTask(heap, voc, start, {});
    assert Clean(VisitDocument(heap, voc, root, [], None, None, None, {}).events) by {
      ChildrenHaveLessRoom(heap, voc, start, {});
      CleanVisit(heap, voc, start, {});
    }
    CleanDocumentEnters(heap, voc, root, [], None, None, None, {});
  }

  /** What the preview of a previewed document is like: previewed no further, and no news. */
  lemma PreviewIsFinal(heap: Heap, nodes: Heap, tr: Trace, voc: Vocabulary, root: nat)
    requires Closed(heap) && Previewed(heap, voc, Ref(root))
    requires IsPreview(heap, nodes, tr, Gone(heap, voc, root)) && IsRoot(nodes, tr, root)
    ensures Closed(nodes) && Present(nodes, Ref(0)) && ProposedIn(Findings(nodes, voc, Ref(0))) == []
    ensures var reports, reports' :=
            ReportedIn(Findings(heap, voc, Ref(root))), ReportedIn(Findings(nodes, voc, Ref(0)));
            && Shown(reports') == reports' && Finished(reports')
            && Shown(reports) == reports && Finished(reports)
            && (forall d <- reports' :: d in reports)
  {
    hide Walk, IsPreview, Gone, ReportedIn, ProposedIn;
    var reports, reports' := ReportedIn(Findings(heap, voc, Ref(root))), ReportedIn(Findings(nodes, voc, Ref(0)));
    PreviewIsClosed(heap, nodes, tr, Gone(heap, voc, root));
    PreviewIsStable(heap, nodes, tr, voc, root);
    CleanShown(reports);
    CleanShown(reports');
  }

  /**
   * Validates a document.  The result reports exactly what one check of the input reports; it carries
   * a preview exactly when that check found no error, fitted, and proposed a change; and the preview
   * is the input without the proposed fields.  The recursive call stops after one level.
   */
  method ValidateDocument(heap: Heap, voc: Vocabulary, root: Value) returns (result: Validation, ghost tr: Trace)
    requires Closed(heap) && Present(heap, root)
    ensures var reports := ReportedIn(Findings(heap, voc, root));
            result.diagnostics == Shown(reports) && result.complete == Finished(reports)
    ensures result.normalized.Some? <==> Previewed(heap, voc, root)
    ensures result.normalized.None? ==> result.changes == []
    ensures result.normalized.Some? ==>
              && root.Ref? && result.changes == Changes(heap, voc, root.id)
              && IsPreview(heap, result.normalized.value, tr, Gone(heap, voc, root.id))
              && IsRoot(result.normalized.value, tr, root.id)
    decreases |ProposedIn(Findings(heap, voc, root))|
  {
    hide Walk, ReportedIn, ProposedIn, Unfold, IsPreview, IsRoot, Shown, Finished, HasError, Gone, Proper, Closed, News;
    var reporter := new Reporter();
    tr := map[];
    var changes := CheckDocumentValue(heap, voc, root, reporter);
    assert [] + ReportedIn(Findings(heap, voc, root)) == ReportedIn(Findings(heap, voc, root));
    FirstCheck(heap, voc, root);
    var diagnostics, complete := reporter.diagnostics, reporter.complete;
    if !complete || HasError(diagnostics) || changes == [] {
      return Validation(diagnostics, complete, [], None), tr;
    }
    FinishedIsNotTruncated(ReportedIn(Findings(heap, voc, root)));
    PreviewedIsDocument(heap, voc, root);
    CleanDocumentsUnfold(heap, voc, root);
    ProposalsAreProper(heap, voc, root.id);
    ProposedAreEvents(Findings(heap, voc, root));
    var nodes;
    nodes, tr := CreatePreview(heap, root.id, ChangePaths(changes));
    assert IsPreview(heap, nodes, tr, Gone(heap, voc, root.id)) by { GoneIs(heap, voc, root.id); }
    PreviewIsFinal(heap, nodes, tr, voc, root.id);
    var checked, _ := ValidateDocument(nodes, voc, Ref(0));
    ghost var reports := reporter.reported;
    ReportPreviewDiagnostics(diagnostics, checked.diagnostics, reporter);
    NoNews(diagnostics, checked.diagnostics);
    assert reporter.reported == reports + [] == reports;
    result := Validation(reporter.diagnostics, checked.complete && reporter.complete, [], None);
    if !checked.complete || !reporter.complete || HasError(reporter.diagnostics) {
      return;
    }
    return Validation(reporter.diagnostics, reporter.complete, changes, Some(nodes)), tr;
  }

  lemma GoneIs(heap: Heap, voc: Vocabulary, root: nat)
    ensures Gone(heap, voc, root) == PathsOf(ChangePaths(Changes(heap, voc, root)))
  {
  }

  lemma FinishedIsNotTruncated(reports: seq<Diagnostic>)
    requires Finished(reports)
    ensures |reports| <= MAXIMUM_DIAGNOSTICS
  {
  }
}
