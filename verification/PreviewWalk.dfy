/** Checking the preview repeats the check of the document, without the findings about removed fields. */
module PreviewWalk {
  import opened Wrappers
  import opened Diagnostics
  import opened DocumentGraph
  import opened DocumentRules
  import opened DocumentWalk
  import opened WorkStack
  import opened OpenContainers
  import opened CleanDocuments
  import opened Preview
  import opened Omission
  import opened PreviewNodes
  import opened PreviewAccounts

  function PathOf(e: Event): FieldPath {
    if e.Reported? then e.d.path else e.path
  }

  /** The events that are not about a removed field. */
  ghost function Kept(events: seq<Event>, gone: set<FieldPath>): seq<Event> {
    if events == [] then [] else (if PathOf(events[0]) in gone then [] else [events[0]]) + Kept(events[1..], gone)
  }

  lemma {:induction false} KeptConcat(some: seq<Event>, more: seq<Event>, gone: set<FieldPath>)
    ensures Kept(some + more, gone) == Kept(some, gone) + Kept(more, gone)
  {
    if some == [] {
      assert some + more == more;
    } else {
      assert (some + more)[1..] == some[1..] + more;
      KeptConcat(some[1..], more, gone);
      var first := if PathOf(some[0]) in gone then [] else [some[0]];
      assert first + (Kept(some[1..], gone) + Kept(more, gone)) == first + Kept(some[1..], gone) + Kept(more, gone);
    }
  }

  lemma {:induction false} AllKept(events: seq<Event>, gone: set<FieldPath>)
    requires forall e <- events :: PathOf(e) !in gone
    ensures Kept(events, gone) == events
  {
    if events != [] { AllKept(events[1..], gone); }
  }

  lemma {:induction false} NoneKept(events: seq<Event>, gone: set<FieldPath>)
    requires forall e <- events :: PathOf(e) in gone
    ensures Kept(events, gone) == []
  {
    if events != [] { NoneKept(events[1..], gone); }
  }

  // ------------------------------------------------------------ tasks of the two walks

  /** `t'` checks, in the preview, the copy of what `t` checks. */
  ghost predicate Related(tr: Trace, gone: set<FieldPath>, t: Task, t': Task) {
    match t
    case Extension(v, path, keywords) =>
      t'.Extension? && t'.path == path && t'.keywords == keywords && Like(tr, v, t'.v, path) && Untouched(gone, path)
    case Document(v, path, inherited, range, decoder) =>
      t'.Document? && t' == Document(t'.v, path, inherited, range, decoder) && Like(tr, v, t'.v, path)
    case Embedded(v, path, context, range, decoder) =>
      t'.Embedded? && t' == Embedded(t'.v, path, context, range, decoder) && Like(tr, v, t'.v, path)
    case Property(doc, path, context, kind, source) =>
      t'.Property? && t' == Property(t'.doc, path, context, kind, source) && t'.doc in tr && tr[t'.doc].source == doc
        && tr[t'.doc].place == path
    case Finding(_) => false
  }

  ghost predicate LeftOut(gone: set<FieldPath>, t: Task) {
    t.Property? && OpenPath(t) in gone
  }

  /** The tasks of the preview are those of the document that are not about a removed field. */
  ghost predicate Matched(tr: Trace, gone: set<FieldPath>, tasks: seq<Task>, tasks': seq<Task>) {
    if tasks == [] then tasks' == []
    else if LeftOut(gone, tasks[0]) then Matched(tr, gone, tasks[1..], tasks')
    else tasks' != [] && Related(tr, gone, tasks[0], tasks'[0]) && Matched(tr, gone, tasks[1..], tasks'[1..])
  }

  /** The open containers of the preview lie above the task, so none is the value it checks. */
  ghost predicate AncestorsAbove(tr: Trace, t: Task, ancestors': set<nat>) {
    !t.Finding? ==> forall c <- ancestors' :: c in tr && |tr[c].place| < Above(t)
  }

  lemma {:induction false} PointwiseMatched(tr: Trace, gone: set<FieldPath>, tasks: seq<Task>, tasks': seq<Task>)
    requires |tasks| == |tasks'|
             && forall i | 0 <= i < |tasks| :: Related(tr, gone, tasks[i], tasks'[i]) && !tasks[i].Property?
    ensures Matched(tr, gone, tasks, tasks')
  {
    hide Related;
    if tasks != [] {
      forall i | 0 <= i < |tasks| - 1
        ensures Related(tr, gone, tasks[1..][i], tasks'[1..][i]) && !tasks[1..][i].Property? {
        assert tasks[1..][i] == tasks[i + 1] && tasks'[1..][i] == tasks'[i + 1];
      }
      PointwiseMatched(tr, gone, tasks[1..], tasks'[1..]);
    }
  }

  lemma {:induction false} PropertiesMatch(tr: Trace, gone: set<FieldPath>, voc: Vocabulary, c: nat, path: FieldPath,
                                           context: nat, kind: nat, keys: seq<string>)
    requires c in tr && tr[c].place == path
    ensures Matched(tr, gone, PropertyTasks(voc, tr[c].source, path, context, kind, keys),
                    PropertyTasks(voc, c, path, context, kind, Remaining(keys, path, gone)))
  {
    if keys != [] {
      PropertiesMatch(tr, gone, voc, c, path, context, kind, keys[1..]);
      var task := Property(tr[c].source, path, context, kind, keys[0]);
      var task' := Property(c, path, context, kind, keys[0]);
      assert OpenPath(task) == path + [Key(keys[0])];
      assert Related(tr, gone, task, task');
      hide Matched, Related, Remaining, PropertyTasks;
      var tasks := PropertyTasks(voc, tr[c].source, path, context, kind, keys[1..]);
      var kept := Remaining(keys[1..], path, gone);
      var tasks' := PropertyTasks(voc, c, path, context, kind, kept);
      MatchFirst(tr, gone, task, task', tasks, tasks');
      TasksOfFirst(voc, tr[c].source, path, context, kind, keys);
      RemainingOfFirst(keys, path, gone);
      assert [keys[0]] + kept != [] && ([keys[0]] + kept)[1..] == kept;
      TasksOfFirst(voc, c, path, context, kind, [keys[0]] + kept);
    }
  }

  lemma RemainingOfFirst(keys: seq<string>, path: FieldPath, gone: set<FieldPath>)
    requires keys != []
    ensures Remaining(keys, path, gone)
         == if path + [Key(keys[0])] in gone then Remaining(keys[1..], path, gone)
           else [keys[0]] + Remaining(keys[1..], path, gone)
  {
  }

  lemma TasksOfFirst(voc: Vocabulary, doc: nat, path: FieldPath, context: nat, kind: nat, keys: seq<string>)
    requires keys != []
    ensures PropertyTasks(voc, doc, path, context, kind, keys)
         == if keys[0] != "@context" && !voc.names(context, keys[0])
            then [Property(doc, path, context, kind, keys[0])] + PropertyTasks(voc, doc, path, context, kind, keys[1..])
            else PropertyTasks(voc, doc, path, context, kind, keys[1..])
  {
  }

  lemma MatchFirst(tr: Trace, gone: set<FieldPath>, t: Task, t': Task, tasks: seq<Task>, tasks': seq<Task>)
    requires Matched(tr, gone, tasks, tasks') && Related(tr, gone, t, t')
    ensures LeftOut(gone, t) ==> Matched(tr, gone, [t] + tasks, tasks')
    ensures !LeftOut(gone, t) ==> Matched(tr, gone, [t] + tasks, [t'] + tasks')
  {
    hide Related;
    assert ([t] + tasks)[1..] == tasks && ([t'] + tasks')[1..] == tasks';
  }

  lemma {:induction false} EmbeddedMatch(tr: Trace, gone: set<FieldPath>, items: seq<Value>, items': seq<Value>,
                                         from: nat, nulls: bool, path: FieldPath, context: nat, range: Option<nat>,
                                           decoder: Option<nat>)
    requires |items| == |items'|
    requires forall i | 0 <= i < |items| :: Like(tr, items[i], items'[i], path + [Index(i)])
    ensures Matched(tr, gone, EmbeddedTasks(items, from, nulls, path, context, range, decoder),
                    EmbeddedTasks(items', from, nulls, path, context, range, decoder))
    decreases |items| - from
  {
    hide Matched, Related, EmbeddedTasks;
    if from < |items| {
      EmbeddedMatch(tr, gone, items, items', from + 1, nulls, path, context, range, decoder);
      EmbeddedOfFirst(items, from, nulls, path, context, range, decoder);
      EmbeddedOfFirst(items', from, nulls, path, context, range, decoder);
      var first := Embedded(items[from], At(path, Index(from)), context, range, decoder);
      var first' := Embedded(items'[from], At(path, Index(from)), context, range, decoder);
      EmbeddedAreRelated(tr, gone, first, first');
      MatchFirst(tr, gone, first, first',
                 EmbeddedTasks(items, from + 1, nulls, path, context, range, decoder),
                 EmbeddedTasks(items', from + 1, nulls, path, context, range, decoder));
    } else {
      NoneEmbedded(tr, gone, items, items', from, nulls, path, context, range, decoder);
    }
  }

  lemma NoneEmbedded(tr: Trace, gone: set<FieldPath>, items: seq<Value>, items': seq<Value>, from: nat, nulls: bool,
                     path: FieldPath, context: nat, range: Option<nat>, decoder: Option<nat>)
    requires |items| == |items'| <= from
    ensures Matched(tr, gone, EmbeddedTasks(items, from, nulls, path, context, range, decoder),
                    EmbeddedTasks(items', from, nulls, path, context, range, decoder))
  {
  }

  lemma EmbeddedAreRelated(tr: Trace, gone: set<FieldPath>, t: Task, t': Task)
    requires t.Embedded? && t'.Embedded? && t' == Embedded(t'.v, t.path, t.context, t.range, t.decoder)
             && Like(tr, t.v, t'.v, t.path)
    ensures Related(tr, gone, t, t')
  {
  }

  lemma EmbeddedOfFirst(items: seq<Value>, from: nat, nulls: bool, path: FieldPath, context: nat,
                        range: Option<nat>, decoder: Option<nat>)
    requires from < |items|
    ensures EmbeddedTasks(items, from, nulls, path, context, range, decoder)
         == if items[from].Null? && !nulls then EmbeddedTasks(items, from + 1, nulls, path, context, range, decoder)
            else [Embedded(items[from], At(path, Index(from)), context, range, decoder)]
                 + EmbeddedTasks(items, from + 1, nulls, path, context, range, decoder)
  {
  }

  // ------------------------------------------------------------ one task: documents

  lemma {:induction false} SameTypeKeys(voc: Vocabulary, context: nat, keys: seq<string>, path: FieldPath,
                                        gone: set<FieldPath>)
    requires forall key <- keys | path + [Key(key)] in gone :: !voc.names(context, key)
    ensures TypeKeys(voc, context, Remaining(keys, path, gone)) == TypeKeys(voc, context, keys)
  {
    if keys != [] {
      SameTypeKeys(voc, context, keys[1..], path, gone);
      var kept := Remaining(keys[1..], path, gone);
      assert ([keys[0]] + kept)[1..] == kept;
      assert [] + kept == kept;
    }
  }

  lemma SameContext(heap: Heap, nodes: Heap, tr: Trace, gone: set<FieldPath>, voc: Vocabulary, c: nat, path: FieldPath,
                    inherited: Option<nat>)
    requires IsPreview(heap, nodes, tr, gone) && c in nodes && tr[c].source in heap && tr[c].place == path
    requires heap[tr[c].source].Record? && nodes[c].Record? && Untouched(gone, At(path, Key("@context")))
    ensures ReadContext(nodes, voc, nodes[c].fields, path, inherited)
         == ReadContext(heap, voc, heap[tr[c].source].fields, path, inherited)
  {
    hide Unfold;
    var fields, fields' := heap[tr[c].source].fields, nodes[c].fields;
    var inner := At(path, Key("@context"));
    assert inner !in gone by { assert inner in gone ==> Prefix(inner, inner); }
    assert Trimmed(heap, nodes, tr, gone, c);
    hide IsPreview, Trimmed, Untouched;
    if "@context" in fields {
      UntouchedUnfold(heap, nodes, tr, gone, fields["@context"], fields'["@context"], inner, CONTEXT_DEPTH);
    }
  }

  lemma SameType(heap: Heap, nodes: Heap, tr: Trace, gone: set<FieldPath>, voc: Vocabulary, c: nat, path: FieldPath,
                 context: nat)
    requires IsPreview(heap, nodes, tr, gone) && c in nodes && tr[c].source in heap && tr[c].place == path
    requires heap[tr[c].source].Record? && nodes[c].Record?
             && HeaderStays(voc, gone, path, heap[tr[c].source].fields, context)
    requires forall key :: key in heap[tr[c].source].keys <==> key in heap[tr[c].source].fields
    requires ReadType(heap, voc, heap[tr[c].source].keys, heap[tr[c].source].fields, path, context).1.Some?
    ensures ReadType(nodes, voc, nodes[c].keys, nodes[c].fields, path, context)
         == ReadType(heap, voc, heap[tr[c].source].keys, heap[tr[c].source].fields, path, context)
  {
    var node, node' := heap[tr[c].source], nodes[c];
    assert Trimmed(heap, nodes, tr, gone, c);
    hide IsPreview, Untouched;
    SameTypeKeys(voc, context, node.keys, path, gone);
    var types := TypeKeys(voc, context, node.keys);
    var source := if types == [] then "type" else types[0];
    assert source in node.fields && node.fields[source].Str?;
    assert At(path, Key(source)) !in gone;
    assert source in node'.fields && node'.fields[source] == node.fields[source];
  }

  lemma ContextWarnings(heap: Heap, voc: Vocabulary, fields: map<string, Value>, path: FieldPath,
                        inherited: Option<nat>)
    ensures forall d <- ReadContext(heap, voc, fields, path, inherited).0 ::
      d.reason.Severity() == Warning ==> d.path == At(path, Key("@context"))
  {
    hide Unfold, ContextFindings;
  }

  lemma TypeErrors(heap: Heap, voc: Vocabulary, keys: seq<string>, fields: map<string, Value>, path: FieldPath,
                   context: nat)
    ensures forall d <- ReadType(heap, voc, keys, fields, path, context).0 :: d.reason.Severity() == Error
  {
    hide TypeKeys;
  }

  /** Only the assumed context is worth a warning when a document is entered. */
  lemma EntranceWarnings(heap: Heap, voc: Vocabulary, node: Node, path: FieldPath, inherited: Option<nat>,
                         range: Option<nat>, decoder: Option<nat>)
    requires node.Record?
    ensures forall d <- EnterRecord(heap, voc, node, path, inherited, range, decoder).findings ::
      d.reason.Severity() == Warning ==> d.path == At(path, Key("@context"))
  {
    hide ReadContext, ReadType;
    var context := ReadContext(heap, voc, node.fields, path, inherited).1;
    ContextWarnings(heap, voc, node.fields, path, inherited);
    if context.Some? { TypeErrors(heap, voc, node.keys, node.fields, path, context.value); }
  }

  lemma SameEntrance(heap: Heap, nodes: Heap, tr: Trace, gone: set<FieldPath>, voc: Vocabulary, c: nat, path: FieldPath,
                     inherited: Option<nat>, range: Option<nat>, decoder: Option<nat>)
    requires Closed(heap) && IsPreview(heap, nodes, tr, gone) && c in nodes && tr[c].source in heap
             && tr[c].place == path
    requires heap[tr[c].source].Record? && nodes[c].Record?
    requires var entrance := EnterRecord(heap, voc, heap[tr[c].source], path, inherited, range, decoder);
             entrance.Entered? && HeaderStays(voc, gone, path, heap[tr[c].source].fields, entrance.context)
    ensures EnterRecord(nodes, voc, nodes[c], path, inherited, range, decoder)
         == EnterRecord(heap, voc, heap[tr[c].source], path, inherited, range, decoder)
  {
    hide ReadContext, ReadType;
    assert c in tr;
    hide IsPreview;
    assert WellFormed(heap, heap[tr[c].source]);
    SameContext(heap, nodes, tr, gone, voc, c, path, inherited);
    SameType(heap, nodes, tr, gone, voc, c, path,
             ReadContext(heap, voc, heap[tr[c].source].fields, path, inherited).1.value);
  }

  lemma {:induction false} StillNoAlien(keys: seq<string>, fields: map<string, Value>)
    requires forall key <- keys | key in fields :: !fields[key].Alien?
    ensures FirstAlien(keys, fields).None?
  {
    if keys != [] { StillNoAlien(keys[1..], fields); }
  }

  lemma NoAlienInCopy(heap: Heap, nodes: Heap, tr: Trace, gone: set<FieldPath>, c: nat)
    requires Closed(heap) && Trimmed(heap, nodes, tr, gone, c) && heap[tr[c].source].Record?
    requires FirstAlien(heap[tr[c].source].keys, heap[tr[c].source].fields).None?
    ensures nodes[c].Record? && FirstAlien(nodes[c].keys, nodes[c].fields).None?
  {
    hide FirstAlien;
    var node := heap[tr[c].source];
    assert WellFormed(heap, node);
    forall key <- nodes[c].keys | key in nodes[c].fields ensures !nodes[c].fields[key].Alien? {
      NoAlien(node.keys, node.fields, key);
    }
    StillNoAlien(nodes[c].keys, nodes[c].fields);
  }

  /** How the first steps of the two walks agree: the same events, none about a removed field, and matching work. */
  ghost predicate Agree(tr: Trace, gone: set<FieldPath>, t: Task, visit: Visit, visit': Visit) {
    && visit'.events == visit.events
    && (forall e <- visit.events :: PathOf(e) !in gone)
    && (visit.opens.Some? <==> visit'.opens.Some?)
    && (visit'.opens.Some? ==> !t.Finding? && visit'.opens.value in tr && tr[visit'.opens.value].place == OpenPath(t))
    && Matched(tr, gone, visit.children, visit'.children)
  }

  lemma CleanDocumentEnters(heap: Heap, voc: Vocabulary, v: Value, path: FieldPath, inherited: Option<nat>,
                            range: Option<nat>, decoder: Option<nat>, ancestors: set<nat>)
    requires Clean(VisitDocument(heap, voc, v, path, inherited, range, decoder, ancestors).events)
    ensures |path| <= MAXIMUM_PATH_DEPTH && IsRecord(heap, v)
    ensures FirstAlien(heap[v.id].keys, heap[v.id].fields).None?
    ensures var entrance := EnterRecord(heap, voc, heap[v.id], path, inherited, range, decoder);
            && entrance.Entered? && NoErrors(entrance.findings)
            && VisitDocument(heap, voc, v, path, inherited, range, decoder, ancestors)
            == Visit(Reports(entrance.findings), Some(v.id),
                     PropertyTasks(voc, v.id, path, entrance.context, entrance.kind, heap[v.id].keys))
  {
    hide EnterRecord, FirstAlien, Reports;
    var visit := VisitDocument(heap, voc, v, path, inherited, range, decoder, ancestors);
    if |path| > MAXIMUM_PATH_DEPTH {
      DirtyReport(Diagnostic(ProcessingLimitExceeded, path));
    } else if v.Ref? && v.id in ancestors {
      DirtyReport(Diagnostic(NonJsonValue, path));
    } else if v.Alien? {
      DirtyReport(Diagnostic(NonJsonValue, path));
    } else if !IsRecord(heap, v) {
      DirtyReport(Diagnostic(InvalidDocumentRoot, path));
    } else {
      var alien := FirstAlien(heap[v.id].keys, heap[v.id].fields);
      if alien.Some? {
        DirtyReport(Diagnostic(NonJsonValue, At(path, Key(alien.value))));
      } else {
        CleanReports(EnterRecord(heap, voc, heap[v.id], path, inherited, range, decoder).findings);
      }
    }
  }

  lemma DocumentsAgree(heap: Heap, nodes: Heap, tr: Trace, gone: set<FieldPath>, voc: Vocabulary, v: Value, v': Value,
                       path: FieldPath, inherited: Option<nat>, range: Option<nat>, decoder: Option<nat>,
                         ancestors: set<nat>, ancestors': set<nat>, t: Task)
    requires Closed(heap) && IsPreview(heap, nodes, tr, gone) && Like(tr, v, v', path)
    requires !t.Finding? && OpenPath(t) == path && forall c <- ancestors' :: c in tr && |tr[c].place| < |path|
    requires Clean(VisitDocument(heap, voc, v, path, inherited, range, decoder, ancestors).events)
    requires IsRecord(heap, v) ==>
               var entrance := EnterRecord(heap, voc, heap[v.id], path, inherited, range, decoder);
               entrance.Entered? ==> HeaderStays(voc, gone, path, heap[v.id].fields, entrance.context)
    ensures Agree(tr, gone, t, VisitDocument(heap, voc, v, path, inherited, range, decoder, ancestors),
                  VisitDocument(nodes, voc, v', path, inherited, range, decoder, ancestors'))
  {
    hide FirstAlien, EnterRecord, Matched, Untouched, Remaining, Reports;
    CleanDocumentEnters(heap, voc, v, path, inherited, range, decoder, ancestors);
    var c := v'.id;
    var entrance := EnterRecord(heap, voc, heap[v.id], path, inherited, range, decoder);
    assert Trimmed(heap, nodes, tr, gone, c);
    NoAlienInCopy(heap, nodes, tr, gone, c);
    SameEntrance(heap, nodes, tr, gone, voc, c, path, inherited, range, decoder);
    PropertiesMatch(tr, gone, voc, c, path, entrance.context, entrance.kind, heap[v.id].keys);
    EntranceEventsStay(heap, voc, heap[v.id], path, inherited, range, decoder, gone);
  }

  lemma EntranceEventsStay(heap: Heap, voc: Vocabulary, node: Node, path: FieldPath, inherited: Option<nat>,
                           range: Option<nat>, decoder: Option<nat>, gone: set<FieldPath>)
    requires node.Record? && Untouched(gone, At(path, Key("@context")))
    requires NoErrors(EnterRecord(heap, voc, node, path, inherited, range, decoder).findings)
    ensures forall e <- Reports(EnterRecord(heap, voc, node, path, inherited, range, decoder).findings) ::
              PathOf(e) !in gone
  {
    hide EnterRecord;
    EntranceWarnings(heap, voc, node, path, inherited, range, decoder);
    var findings := EnterRecord(heap, voc, node, path, inherited, range, decoder).findings;
    var inner := At(path, Key("@context"));
    assert inner !in gone by { assert inner in gone ==> Prefix(inner, inner); }
    forall e <- Reports(findings) ensures PathOf(e) !in gone {
      var i :| 0 <= i < |Reports(findings)| && Reports(findings)[i] == e;
      assert findings[i] in findings;
    }
  }

  // ------------------------------------------------------------ one task: opaque data

  lemma ClearEvents(findings: seq<Diagnostic>)
    requires Clean(Reports(findings)) && forall d <- findings :: d.reason.Severity() == Error
    ensures findings == []
  {
    assert findings == [] || findings[0] in findings;
    CleanReports(findings);
  }

  lemma {:induction false} ItemErrors(items: seq<Value>, from: nat, check: (nat, Value) -> seq<Diagnostic>)
    requires forall i: nat, d | i < |items| && d in check(i, items[i]) :: d.reason.Severity() == Error
    ensures forall d <- OverItems(items, from, check) :: d.reason.Severity() == Error
    decreases |items| - from
  {
    if from < |items| { ItemErrors(items, from + 1, check); }
  }

  function TypeItem(path: FieldPath, i: nat, item: Value): seq<Diagnostic> {
    if item.Str? then [] else [Diagnostic(InvalidValueShape, path + [Key("@type"), Index(i)])]
  }

  /** The keyword checks, with the entries of a type list checked by name. */
  lemma TypeItems(heap: Heap, fields: map<string, Value>, path: FieldPath)
    requires "@type" in fields && IsList(heap, fields["@type"])
    ensures OverItems(heap[fields["@type"].id].items, 0, (i: nat, item: Value) =>
              if item.Str? then [] else [Diagnostic(InvalidValueShape, path + [Key("@type"), Index(i)])])
         == OverItems(heap[fields["@type"].id].items, 0, (i: nat, item: Value) => TypeItem(path, i, item))
  {
    SameOverItems(heap[fields["@type"].id].items, heap[fields["@type"].id].items, 0,
                  (i: nat, item: Value) =>
                    if item.Str? then [] else [Diagnostic(InvalidValueShape, path + [Key("@type"), Index(i)])],
                  (i: nat, item: Value) => TypeItem(path, i, item));
  }

  lemma KeywordErrors(heap: Heap, fields: map<string, Value>, path: FieldPath)
    ensures forall d <- CheckKeywords(heap, fields, path) :: d.reason.Severity() == Error
  {
    hide OverItems;
    if "@type" in fields && IsList(heap, fields["@type"]) {
      TypeItems(heap, fields, path);
      ItemErrors(heap[fields["@type"].id].items, 0, (i: nat, item: Value) => TypeItem(path, i, item));
    }
  }

  ghost predicate TwinRecord(heap: Heap, nodes: Heap, fields: map<string, Value>, fields': map<string, Value>) {
    && fields.Keys == fields'.Keys
    && (forall key <- fields :: Twin(heap, nodes, fields[key], fields'[key]))
    && ("@type" in fields ==> TwinList(heap, nodes, fields["@type"], fields'["@type"]))
  }

  ghost predicate TwinList(heap: Heap, nodes: Heap, v: Value, v': Value) {
    IsList(heap, v) && IsList(nodes, v') ==>
      && |nodes[v'.id].items| == |heap[v.id].items|
      && (forall i | 0 <= i < |heap[v.id].items| :: Twin(heap, nodes, heap[v.id].items[i], nodes[v'.id].items[i]))
  }

  lemma SameKeywords(heap: Heap, nodes: Heap, fields: map<string, Value>, fields': map<string, Value>, path: FieldPath)
    requires TwinRecord(heap, nodes, fields, fields')
    ensures CheckKeywords(nodes, fields', path) == CheckKeywords(heap, fields, path)
  {
    hide OverItems;
    if "@type" in fields && IsList(heap, fields["@type"]) {
      TypeItems(heap, fields, path);
      TypeItems(nodes, fields', path);
      SameOverItems(nodes[fields'["@type"].id].items, heap[fields["@type"].id].items, 0,
                    (i: nat, item: Value) => TypeItem(path, i, item), (i: nat, item: Value) => TypeItem(path, i, item));
    }
  }

  lemma SameLiteral(heap: Heap, nodes: Heap, fields: map<string, Value>, fields': map<string, Value>)
    requires TwinRecord(heap, nodes, fields, fields')
    ensures IsJsonLiteral(nodes, fields') == IsJsonLiteral(heap, fields)
  {
    if "@type" in fields && IsList(heap, fields["@type"]) {
      var items, items' := heap[fields["@type"].id].items, nodes[fields'["@type"].id].items;
      assert items == [Str("@json")] <==> |items| == 1 && items[0] == Str("@json");
      assert items' == [Str("@json")] <==> |items'| == 1 && items'[0] == Str("@json");
    }
  }

  lemma LikeList(heap: Heap, nodes: Heap, tr: Trace, gone: set<FieldPath>, v: Value, v': Value, path: FieldPath)
    requires IsPreview(heap, nodes, tr, gone) && Like(tr, v, v', path)
    ensures TwinList(heap, nodes, v, v')
    ensures IsList(heap, v) && IsList(nodes, v') ==>
              && |nodes[v'.id].items| == |heap[v.id].items|
              && forall i | 0 <= i < |heap[v.id].items| ::
                   Like(tr, heap[v.id].items[i], nodes[v'.id].items[i], path + [Index(i)])
  {
    hide Twin;
    SameKind(heap, nodes, tr, gone, v, v', path);
    if IsList(heap, v) {
      assert Trimmed(heap, nodes, tr, gone, v'.id);
      hide IsPreview, Trimmed;
      forall i | 0 <= i < |heap[v.id].items| ensures Twin(heap, nodes, heap[v.id].items[i], nodes[v'.id].items[i]) {
        LikeIsTwin(heap, nodes, tr, gone, heap[v.id].items[i], nodes[v'.id].items[i], path + [Index(i)]);
      }
    }
  }

  lemma ExactIsTwin(heap: Heap, nodes: Heap, tr: Trace, gone: set<FieldPath>, c: nat)
    requires IsPreview(heap, nodes, tr, gone) && Exact(heap, nodes, tr, c) && heap[tr[c].source].Record?
    ensures TwinRecord(heap, nodes, heap[tr[c].source].fields, nodes[c].fields)
  {
    hide IsPreview, Twin, TwinList;
    forall key <- heap[tr[c].source].fields
      ensures Twin(heap, nodes, heap[tr[c].source].fields[key], nodes[c].fields[key])
           && TwinList(heap, nodes, heap[tr[c].source].fields[key], nodes[c].fields[key])
    {
      LikeIsTwin(heap, nodes, tr, gone, heap[tr[c].source].fields[key], nodes[c].fields[key], tr[c].place + [Key(key)]);
      LikeList(heap, nodes, tr, gone, heap[tr[c].source].fields[key], nodes[c].fields[key], tr[c].place + [Key(key)]);
    }
  }

  lemma ExtensionsAgree(heap: Heap, nodes: Heap, tr: Trace, gone: set<FieldPath>, v: Value, v': Value, path: FieldPath,
                        keywords: bool, ancestors: set<nat>, ancestors': set<nat>, t: Task)
    requires Closed(heap) && IsPreview(heap, nodes, tr, gone) && Like(tr, v, v', path) && Untouched(gone, path)
    requires !t.Finding? && OpenPath(t) == path && forall c <- ancestors' :: c in tr && |tr[c].place| < |path|
    requires Clean(VisitExtension(heap, v, path, keywords, ancestors).events)
    ensures VisitExtension(heap, v, path, keywords, ancestors).events == []
    ensures Agree(tr, gone, t, VisitExtension(heap, v, path, keywords, ancestors),
                  VisitExtension(nodes, v', path, keywords, ancestors'))
  {
    hide IsPreview, Untouched, Matched, Related, CheckKeywords, FirstAlien, Exact;
    SameKind(heap, nodes, tr, gone, v, v', path);
    if |path| > MAXIMUM_PATH_DEPTH {
      DirtyReport(Diagnostic(ProcessingLimitExceeded, path));
    } else if v.Alien? || (v.Ref? && v.id in ancestors) {
      DirtyReport(Diagnostic(NonJsonValue, path));
    } else if v.Ref? {
      UntouchedIsExactAt(heap, nodes, tr, gone, v'.id);
      if heap[v.id].List? {
        ExtensionItems(heap, nodes, tr, gone, v, v', path, keywords);
        PointwiseMatched(tr, gone, VisitExtension(heap, v, path, keywords, ancestors).children,
                         VisitExtension(nodes, v', path, keywords, ancestors').children);
      } else {
        ExtensionFields(heap, nodes, tr, gone, v, v', path, keywords, ancestors, ancestors');
      }
    } else {
      NoTasks(tr, gone);
    }
  }

  lemma NoTasks(tr: Trace, gone: set<FieldPath>)
    ensures Matched(tr, gone, [], [])
  {
  }

  lemma ExtensionItems(heap: Heap, nodes: Heap, tr: Trace, gone: set<FieldPath>, v: Value, v': Value, path: FieldPath,
                       keywords: bool)
    requires IsList(heap, v) && IsPreview(heap, nodes, tr, gone) && Like(tr, v, v', path) && Untouched(gone, path)
    requires Exact(heap, nodes, tr, v'.id)
    ensures IsList(nodes, v') && |nodes[v'.id].items| == |heap[v.id].items|
    ensures forall i | 0 <= i < |heap[v.id].items| ::
      Related(tr, gone, Extension(heap[v.id].items[i], At(path, Index(i)), keywords),
              Extension(nodes[v'.id].items[i], At(path, Index(i)), keywords))
  {
    hide IsPreview, Untouched;
    forall i | 0 <= i < |heap[v.id].items|
      ensures Related(tr, gone, Extension(heap[v.id].items[i], At(path, Index(i)), keywords),
                      Extension(nodes[v'.id].items[i], At(path, Index(i)), keywords))
    {
      UntouchedBelow(gone, path, Index(i));
    }
  }

  lemma CleanRecord(heap: Heap, v: Value, path: FieldPath, keywords: bool, ancestors: set<nat>)
    requires IsRecord(heap, v) && |path| <= MAXIMUM_PATH_DEPTH && v.id !in ancestors
    requires Clean(VisitExtension(heap, v, path, keywords, ancestors).events)
    ensures FirstAlien(heap[v.id].keys, heap[v.id].fields).None?
    ensures keywords ==> CheckKeywords(heap, heap[v.id].fields, path) == []
  {
    hide CheckKeywords, FirstAlien, IsJsonLiteral;
    var alien := FirstAlien(heap[v.id].keys, heap[v.id].fields);
    if alien.Some? {
      DirtyReport(Diagnostic(NonJsonValue, At(path, Key(alien.value))));
    } else if keywords {
      KeywordErrors(heap, heap[v.id].fields, path);
      ClearEvents(CheckKeywords(heap, heap[v.id].fields, path));
    }
  }

  lemma ExtensionFields(heap: Heap, nodes: Heap, tr: Trace, gone: set<FieldPath>, v: Value, v': Value, path: FieldPath,
                        keywords: bool, ancestors: set<nat>, ancestors': set<nat>)
    requires Closed(heap) && IsRecord(heap, v) && IsPreview(heap, nodes, tr, gone) && Like(tr, v, v', path)
             && Untouched(gone, path)
    requires Exact(heap, nodes, tr, v'.id) && |path| <= MAXIMUM_PATH_DEPTH && v.id !in ancestors && v'.id !in ancestors'
    requires Clean(VisitExtension(heap, v, path, keywords, ancestors).events)
    ensures var visit, visit' :=
            VisitExtension(heap, v, path, keywords, ancestors), VisitExtension(nodes, v', path, keywords, ancestors');
            && visit.events == [] == visit'.events && visit'.opens == Some(v'.id) && visit.opens == Some(v.id)
            && Matched(tr, gone, visit.children, visit'.children)
  {
    hide IsPreview, Untouched, Matched, Related, CheckKeywords, FirstAlien, IsJsonLiteral;
    var node, node' := heap[v.id], nodes[v'.id];
    assert WellFormed(heap, node);
    hide Closed;
    CleanRecord(heap, v, path, keywords, ancestors);
    ExactIsTwin(heap, nodes, tr, gone, v'.id);
    SameKeywords(heap, nodes, node.fields, node'.fields, path);
    SameLiteral(heap, nodes, node.fields, node'.fields);
    SameAlien(node.keys, node.fields, node'.fields);
    var visit, visit' :=
      VisitExtension(heap, v, path, keywords, ancestors), VisitExtension(nodes, v', path, keywords, ancestors');
    forall i | 0 <= i < |node.keys| ensures Related(tr, gone, visit.children[i], visit'.children[i]) {
      FieldsAreRelated(tr, gone, node.fields[node.keys[i]], node'.fields[node.keys[i]], path, node.keys[i],
                       keywords && !(IsJsonLiteral(heap, node.fields) && node.keys[i] == "@value"));
    }
    PointwiseMatched(tr, gone, visit.children, visit'.children);
  }

  lemma FieldsAreRelated(tr: Trace, gone: set<FieldPath>, v: Value, v': Value, path: FieldPath, key: string,
                         keywords: bool)
    requires Like(tr, v, v', path + [Key(key)]) && Untouched(gone, path)
    ensures Related(tr, gone, Extension(v, At(path, Key(key)), keywords), Extension(v', At(path, Key(key)), keywords))
  {
    hide Untouched;
    UntouchedBelow(gone, path, Key(key));
  }
}
