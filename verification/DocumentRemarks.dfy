/**
 * Everything the check of an accepted document says, told of the document itself: which fields it
 * proposes to leave out, and which warnings it gives.
 */
module DocumentRemarks {
  import opened Wrappers
  import opened Diagnostics
  import opened DocumentGraph
  import opened DocumentRules
  import opened DocumentWalk
  import opened CleanDocuments
  import opened Conformity
  import opened ConformingDocuments

  // ------------------------------------------------------------ what is said of a document

  function PathOf(e: Event): FieldPath {
    if e.Reported? then e.d.path else e.path
  }

  /** A warning and a proposal for a field that is empty, a warning for one that is not looked into. */
  ghost predicate FieldSays(heap: Heap, voc: Vocabulary, v: Value, plan: Plan, at: FieldPath, context: nat, e: Event)
    requires |at| <= |PathOf(e)|
    decreases |PathOf(e)| - |at|, 3
  {
    match plan
    case Opaque => e == Reported(Diagnostic(ExtensionPropertyUnchecked, at))
    case Checked(rule) =>
      if IsEmptyField(heap, rule, v) then
        e == Proposed(at, v)
        || e == Reported(Diagnostic(
             if HasItems(heap, v) && heap[v.id].items == [] then EmptyPropertyList else AbsentIdentifier, at))
      else
        && rule.References?
        && if HasItems(heap, v)
           then |at| < |PathOf(e)| && exists i: nat | i < |heap[v.id].items| ::
                  Says(heap, voc, heap[v.id].items[i], at + [Index(i)], Some(context), e)
           else Says(heap, voc, v, at, Some(context), e)
    case _ => false
  }

  /** A warning for a context that had to be assumed, and what is said of the fields. */
  ghost predicate RecordSays(heap: Heap, voc: Vocabulary, fields: map<string, Value>, at: FieldPath,
                             inherited: Option<nat>, context: nat, kind: nat, e: Event)
    requires |at| < |PathOf(e)|
    decreases |PathOf(e)| - |at|, 1
  {
    || ("@context" !in fields && inherited.None?
        && e == Reported(Diagnostic(ImplicitActivityStreamsContext, at + [Key("@context")])))
    || exists source :: IsSaidOf(heap, voc, fields, at, context, kind, source, e)
  }

  ghost predicate IsSaidOf(heap: Heap, voc: Vocabulary, fields: map<string, Value>, at: FieldPath, context: nat,
                           kind: nat, source: string, e: Event)
    requires |at| < |PathOf(e)|
    decreases |PathOf(e)| - |at|, 0
  {
    && source in fields && source != "@context" && !voc.names(context, source)
    && FieldSays(heap, voc, fields[source], voc.plan(context, kind, source), at + [Key(source)], context, e)
  }

  /** The record has this context and this type. */
  ghost predicate HasHead(heap: Heap, voc: Vocabulary, fields: map<string, Value>, inherited: Option<nat>,
                          context: nat, kind: nat)
  {
    HasContext(heap, voc, fields, inherited, context) && HasType(voc, fields, context, kind)
  }

  /** What is said of the document `v` at the path `at`, and of the documents inside it. */
  ghost predicate Says(heap: Heap, voc: Vocabulary, v: Value, at: FieldPath, inherited: Option<nat>, e: Event)
    decreases if |at| <= |PathOf(e)| then |PathOf(e)| - |at| else 0, 2
  {
    && |at| < |PathOf(e)| && v.Ref? && v.id in heap && heap[v.id].Record?
    && exists context: nat, kind: nat ::
         && HasHead(heap, voc, heap[v.id].fields, inherited, context, kind)
         && RecordSays(heap, voc, heap[v.id].fields, at, inherited, context, kind, e)
  }

  // ------------------------------------------------------------ leaves find errors only

  ghost predicate AllErrors(findings: seq<Diagnostic>) {
    forall d <- findings :: d.reason.Severity() == Error
  }

  lemma SilentOrDirty(findings: seq<Diagnostic>)
    requires AllErrors(findings)
    ensures findings == [] || !NoErrors(findings)
  {
    assert findings == [] || findings[0] in findings;
  }

  lemma {:induction false} ItemErrors(items: seq<Value>, from: nat, check: (nat, Value) -> seq<Diagnostic>)
    requires forall i: nat, item: Value :: AllErrors(check(i, item))
    ensures AllErrors(OverItems(items, from, check))
    decreases |items| - from
  {
    if from < |items| { ItemErrors(items, from + 1, check); }
  }

  lemma {:induction false} KeyErrors(keys: seq<string>, check: string -> seq<Diagnostic>)
    requires forall key :: AllErrors(check(key))
    ensures AllErrors(OverKeys(keys, check))
  {
    if keys != [] { KeyErrors(keys[1..], check); }
  }

  lemma ScalarErrors(heap: Heap, voc: Vocabulary, check: Check, v: Value, path: FieldPath)
    ensures AllErrors(CheckScalar(heap, voc, check, v, path))
  {
    if check.Text? && IsRecord(heap, v) {
      var node := heap[v.id];
      KeyErrors(node.keys, (key: string) => CheckTextField(voc, check, node, key, At(path, Key(key))));
    }
  }

  lemma EntryErrors(heap: Heap, voc: Vocabulary, check: Check, v: Value, path: FieldPath)
    ensures AllErrors(CheckSingle(heap, voc, check, v, path)) && AllErrors(CheckMany(heap, voc, check, v, path))
  {
    hide CheckScalar, CountValues;
    ScalarErrors(heap, voc, check, v, path);
    if IsList(heap, v) {
      forall i: nat, item: Value ensures AllErrors(CheckEntry(heap, voc, check, item, At(path, Index(i)))) {
        ScalarErrors(heap, voc, check, item, At(path, Index(i)));
      }
      ItemErrors(heap[v.id].items, 0, (i: nat, item: Value) => CheckEntry(heap, voc, check, item, At(path, Index(i))));
    }
  }

  lemma MapErrors(heap: Heap, voc: Vocabulary, plain: bool, v: Value, path: FieldPath)
    ensures AllErrors(CheckLanguageMap(heap, voc, plain, v, path))
  {
    if IsRecord(heap, v) {
      var node := heap[v.id];
      KeyErrors(node.keys, (key: string) => CheckTranslation(voc, plain, node, key, At(path, Key(key))));
    }
  }

  lemma NoObjectErrors(heap: Heap, v: Value, path: FieldPath)
    ensures AllErrors(CheckNoObject(heap, v, path))
  {
    if IsList(heap, v) {
      ItemErrors(heap[v.id].items, 0, (i: nat, item: Value) =>
        if item.Null? then []
        else if item.Alien? then [Diagnostic(NonJsonValue, At(path, Index(i)))]
        else if IsList(heap, item) then [Diagnostic(UnsupportedValueForm, At(path, Index(i)))]
        else [Diagnostic(PropertyNotApplicable, At(path, Index(i)))]);
    }
  }

  lemma LeafErrors(heap: Heap, voc: Vocabulary, rule: Rule, v: Value, path: FieldPath)
    requires !rule.References?
    ensures AllErrors(CheckLeaf(heap, voc, rule, v, path))
  {
    hide CheckSingle, CheckMany, CheckLanguageMap, CheckNoObject;
    match rule
    case Single(check) => EntryErrors(heap, voc, check, v, path);
    case Many(check) => EntryErrors(heap, voc, check, v, path);
    case LanguageMap(plain) => MapErrors(heap, voc, plain, v, path);
    case NoObject => NoObjectErrors(heap, v, path);
    case _ =>
  }

  lemma KeywordErrors(heap: Heap, fields: map<string, Value>, path: FieldPath)
    ensures AllErrors(CheckKeywords(heap, fields, path))
  {
    if "@type" in fields && IsList(heap, fields["@type"]) {
      ItemErrors(heap[fields["@type"].id].items, 0, (i: nat, item: Value) =>
        if item.Str? then [] else [Diagnostic(InvalidValueShape, path + [Key("@type"), Index(i)])]);
    }
  }

  /** Events that are reports of errors only, and clean, are none. */
  lemma NoneAtAll(findings: seq<Diagnostic>)
    requires AllErrors(findings) && Clean(Reports(findings))
    ensures Reports(findings) == []
  {
    CleanReports(findings);
    SilentOrDirty(findings);
  }

  // ------------------------------------------------------------ what is said by one task

  ghost predicate TaskSays(heap: Heap, voc: Vocabulary, t: Task, e: Event) {
    match t
    case Extension(_, _, _) => false
    case Document(v, path, inherited, _, _) => Says(heap, voc, v, path, inherited, e)
    case Property(doc, path, context, kind, source) =>
      && doc in heap && heap[doc].Record? && source in heap[doc].fields && |path| < |PathOf(e)|
      && FieldSays(heap, voc, heap[doc].fields[source], voc.plan(context, kind, source), path + [Key(source)], context,
                   e)
    case Embedded(v, path, context, _, _) => Says(heap, voc, v, path, Some(context), e)
    case Finding(d) => e == Reported(d)
  }

  ghost predicate VisitSays(heap: Heap, voc: Vocabulary, visit: Visit, e: Event) {
    e in visit.events || exists child <- visit.children :: TaskSays(heap, voc, child, e)
  }

  ghost predicate IsQuiet(visit: Visit) {
    Clean(visit.events) && forall child <- visit.children | child.Finding? :: child.d.reason.Severity() == Warning
  }

  lemma ExtensionSaysNothing(heap: Heap, voc: Vocabulary, v: Value, path: FieldPath, keywords: bool,
                             ancestors: set<nat>, e: Event)
    requires Clean(VisitExtension(heap, v, path, keywords, ancestors).events)
    ensures !VisitSays(heap, voc, VisitExtension(heap, v, path, keywords, ancestors), e)
    ensures VisitExtension(heap, v, path, keywords, ancestors).events == []
  {
    hide CheckKeywords, Clean, IsJsonLiteral;
    OneReport(Diagnostic(ProcessingLimitExceeded, path));
    OneReport(Diagnostic(NonJsonValue, path));
    if IsRecord(heap, v) {
      var node := heap[v.id];
      KeywordErrors(heap, node.fields, path);
      var alien := FirstAlien(node.keys, node.fields);
      if alien.Some? {
        OneReport(Diagnostic(NonJsonValue, At(path, Key(alien.value))));
      } else if keywords && |path| <= MAXIMUM_PATH_DEPTH && v.id !in ancestors {
        NoneAtAll(CheckKeywords(heap, node.fields, path));
      }
    }
  }

  lemma HeadsAreUnique(heap: Heap, voc: Vocabulary, node: Node, path: FieldPath, inherited: Option<nat>,
                       range: Option<nat>, decoder: Option<nat>)
    requires node.Record? && Distinct(node.keys) && forall key :: key in node.keys <==> key in node.fields
    ensures var entrance := EnterRecord(heap, voc, node, path, inherited, range, decoder);
            entrance.Entered? ==>
              forall context: nat, kind: nat :: HasHead(heap, voc, node.fields, inherited, context, kind) <==>
                                                  context == entrance.context && kind == entrance.kind
  {
    var (findings, context) := ReadContext(heap, voc, node.fields, path, inherited);
    ContextsAreRead(heap, voc, node.fields, path, inherited);
    if context.Some? { TypesAreRead(heap, voc, node.keys, node.fields, path, context.value); }
    hide NoErrors, ReadContext, ReadType, HasContext, HasType, Distinct;
  }

  /** What entering a record without an error reports. */
  lemma HeadsSay(heap: Heap, voc: Vocabulary, node: Node, path: FieldPath, inherited: Option<nat>,
                 range: Option<nat>, decoder: Option<nat>, e: Event)
    requires node.Record?
    requires var entrance := EnterRecord(heap, voc, node, path, inherited, range, decoder);
             entrance.Entered? && NoErrors(entrance.findings)
    ensures e in Reports(EnterRecord(heap, voc, node, path, inherited, range, decoder).findings) <==>
              && "@context" !in node.fields && inherited.None?
              && e == Reported(Diagnostic(ImplicitActivityStreamsContext, At(path, Key("@context"))))
  {
    hide Unfold, ReadType, TypeKeys;
    var entrance := EnterRecord(heap, voc, node, path, inherited, range, decoder);
    var (own, _) := ReadContext(heap, voc, node.fields, path, inherited);
    var mismatch := Diagnostic(UnsupportedValueForm, path);
    var more := if decoder.Some? && !voc.within(entrance.kind, decoder.value) then [mismatch] else [];
    assert entrance.findings == own + more;
    BothClean(own, more);
    OneFinding(mismatch);
    assert more == [] && entrance.findings == own;
    ReportedOnce(own, e);
  }

  lemma ReportedOnce(findings: seq<Diagnostic>, e: Event)
    ensures e in Reports(findings) <==> e.Reported? && e.d in findings
  {
    if e.Reported? && e.d in findings {
      var i :| 0 <= i < |findings| && findings[i] == e.d;
      assert Reports(findings)[i] == e;
    }
  }

  ghost predicate SourceSays(heap: Heap, voc: Vocabulary, fields: map<string, Value>, at: FieldPath, context: nat,
                             kind: nat, source: string, e: Event)
    requires |at| < |PathOf(e)|
  {
    && source in fields && source != "@context" && !voc.names(context, source)
    && FieldSays(heap, voc, fields[source], voc.plan(context, kind, source), at + [Key(source)], context, e)
  }

  lemma FieldsSay(heap: Heap, voc: Vocabulary, v: Value, path: FieldPath, context: nat, kind: nat, e: Event)
    requires IsRecord(heap, v) && (forall key :: key in heap[v.id].keys <==> key in heap[v.id].fields)
    requires |path| < |PathOf(e)|
    ensures (exists child <- PropertyTasks(voc, v.id, path, context, kind, heap[v.id].keys) ::
               TaskSays(heap, voc, child, e)) <==>
              exists source :: SourceSays(heap, voc, heap[v.id].fields, path, context, kind, source, e)
  {
    hide FieldSays, PropertyTasks;
    var node := heap[v.id];
    var tasks := PropertyTasks(voc, v.id, path, context, kind, node.keys);
    if child :| child in tasks && TaskSays(heap, voc, child, e) {
      assert SourceSays(heap, voc, node.fields, path, context, kind, child.source, e);
    }
    if source :| SourceSays(heap, voc, node.fields, path, context, kind, source, e) {
      var child := Property(v.id, path, context, kind, source);
      assert child in tasks && TaskSays(heap, voc, child, e);
    }
  }

  lemma NothingAbove(heap: Heap, voc: Vocabulary, tasks: seq<Task>, path: FieldPath, e: Event)
    requires |PathOf(e)| <= |path| && forall t <- tasks :: t.Property? && t.path == path
    ensures forall child <- tasks :: !TaskSays(heap, voc, child, e)
  {
  }

  lemma DocumentSays(heap: Heap, voc: Vocabulary, v: Value, path: FieldPath, inherited: Option<nat>,
                     range: Option<nat>, decoder: Option<nat>, ancestors: set<nat>, e: Event)
    requires Closed(heap)
    requires Clean(VisitDocument(heap, voc, v, path, inherited, range, decoder, ancestors).events)
    ensures VisitSays(heap, voc, VisitDocument(heap, voc, v, path, inherited, range, decoder, ancestors), e) <==>
              Says(heap, voc, v, path, inherited, e)
  {
    hide Clean, NoErrors, EnterRecord, HasHead, PropertyTasks, TaskSays, FieldSays;
    OneReport(Diagnostic(ProcessingLimitExceeded, path));
    OneReport(Diagnostic(NonJsonValue, path));
    OneReport(Diagnostic(InvalidDocumentRoot, path));
    if |path| <= MAXIMUM_PATH_DEPTH && IsRecord(heap, v) && v.id !in ancestors {
      var node := heap[v.id];
      assert WellFormed(heap, node);
      hide Closed;
      var alien := FirstAlien(node.keys, node.fields);
      if alien.Some? {
        OneReport(Diagnostic(NonJsonValue, At(path, Key(alien.value))));
      } else {
        var entrance := EnterRecord(heap, voc, node, path, inherited, range, decoder);
        ReportsAreClean(entrance.findings);
        if entrance.Turned? {
          TurnedIsDirty(entrance.findings);
        } else {
          var context, kind := entrance.context, entrance.kind;
          HeadsAreUnique(heap, voc, node, path, inherited, range, decoder);
          HeadsSay(heap, voc, node, path, inherited, range, decoder, e);
          var tasks := PropertyTasks(voc, v.id, path, context, kind, node.keys);
          if |path| < |PathOf(e)| {
            FieldsSay(heap, voc, v, path, context, kind, e);
          } else {
            NothingAbove(heap, voc, tasks, path, e);
          }
          HeadIsRead(heap, voc, v, path, inherited, context, kind, e);
          hide RecordSays, Says, SourceSays;
          var visit := VisitDocument(heap, voc, v, path, inherited, range, decoder, ancestors);
          assert visit.events == Reports(entrance.findings) && visit.children == tasks;
        }
      }
    }
  }

  lemma HeadIsRead(heap: Heap, voc: Vocabulary, v: Value, path: FieldPath, inherited: Option<nat>, context: nat,
                   kind: nat, e: Event)
    requires IsRecord(heap, v)
    requires forall c: nat, k: nat ::
               HasHead(heap, voc, heap[v.id].fields, inherited, c, k) <==> c == context && k == kind
    ensures Says(heap, voc, v, path, inherited, e) <==>
              && |path| < |PathOf(e)|
              && (("@context" !in heap[v.id].fields && inherited.None?
                   && e == Reported(Diagnostic(ImplicitActivityStreamsContext, At(path, Key("@context")))))
                  || exists source :: SourceSays(heap, voc, heap[v.id].fields, path, context, kind, source, e))
  {
    var fields := heap[v.id].fields;
    assert HasHead(heap, voc, fields, inherited, context, kind);
    hide HasHead;
    if |path| < |PathOf(e)| {
      RecordIsRead(heap, voc, fields, path, inherited, context, kind, e);
      assert Says(heap, voc, v, path, inherited, e) <==>
               RecordSays(heap, voc, fields, path, inherited, context, kind, e);
    }
  }

  lemma RecordIsRead(heap: Heap, voc: Vocabulary, fields: map<string, Value>, path: FieldPath, inherited: Option<nat>,
                     context: nat, kind: nat, e: Event)
    requires |path| < |PathOf(e)|
    ensures RecordSays(heap, voc, fields, path, inherited, context, kind, e) <==>
              || ("@context" !in fields && inherited.None?
                  && e == Reported(Diagnostic(ImplicitActivityStreamsContext, At(path, Key("@context")))))
              || exists source :: SourceSays(heap, voc, fields, path, context, kind, source, e)
  {
    hide FieldSays;
    if source :| SourceSays(heap, voc, fields, path, context, kind, source, e) {
      assert IsSaidOf(heap, voc, fields, path, context, kind, source, e);
    }
    if source :| IsSaidOf(heap, voc, fields, path, context, kind, source, e) {
      assert SourceSays(heap, voc, fields, path, context, kind, source, e);
    }
  }

  // ------------------------------------------------------------ references and other properties

  lemma ItemsSay(heap: Heap, voc: Vocabulary, items: seq<Value>, nulls: bool, path: FieldPath, context: nat,
                 range: Option<nat>, decoder: Option<nat>, e: Event)
    requires |path| < |PathOf(e)|
    ensures (exists child <- EmbeddedTasks(items, 0, nulls, path, context, range, decoder) ::
               TaskSays(heap, voc, child, e)) <==>
              exists i: nat | i < |items| :: Says(heap, voc, items[i], path + [Index(i)], Some(context), e)
  {
    hide Says, EmbeddedTasks;
    var tasks := EmbeddedTasks(items, 0, nulls, path, context, range, decoder);
    if child :| child in tasks && TaskSays(heap, voc, child, e) {
      EmbeddedAt(items, 0, nulls, path, context, range, decoder, child);
    }
    if i: nat :| i < |items| && Says(heap, voc, items[i], path + [Index(i)], Some(context), e) {
      NullSaysNothing(heap, voc, items[i], path + [Index(i)], Some(context), e);
      var child := Embedded(items[i], At(path, Index(i)), context, range, decoder);
      assert child in tasks && TaskSays(heap, voc, child, e);
    }
  }

  lemma NullSaysNothing(heap: Heap, voc: Vocabulary, v: Value, at: FieldPath, inherited: Option<nat>, e: Event)
    requires Says(heap, voc, v, at, inherited, e)
    ensures v.Ref? && |at| < |PathOf(e)|
  {
  }

  lemma {:induction false} EmbeddedAt(items: seq<Value>, from: nat, nulls: bool, path: FieldPath, context: nat,
                                      range: Option<nat>, decoder: Option<nat>, child: Task)
    requires child in EmbeddedTasks(items, from, nulls, path, context, range, decoder)
    ensures exists i: nat :: from <= i < |items|
                          && child == Embedded(items[i], path + [Index(i)], context, range, decoder)
    decreases |items| - from
  {
    if child in EmbeddedTasks(items, from + 1, nulls, path, context, range, decoder) {
      EmbeddedAt(items, from + 1, nulls, path, context, range, decoder, child);
    } else {
      assert child == Embedded(items[from], path + [Index(from)], context, range, decoder);
    }
  }

  lemma ReferencesSay(heap: Heap, voc: Vocabulary, rule: Rule, v: Value, path: FieldPath, context: nat, e: Event)
    requires rule.References? && IsQuiet(VisitReferences(heap, rule, v, path, context)) && |path| <= |PathOf(e)|
    requires !IsEmptyField(heap, rule, v)
    ensures VisitSays(heap, voc, VisitReferences(heap, rule, v, path, context), e) <==>
              FieldSays(heap, voc, v, Checked(rule), path, context, e)
  {
    hide Clean, EmbeddedTasks, CountValues, Says, IsEmptyField;
    OneReport(Diagnostic(UnsupportedValueForm, path));
    var visit := VisitReferences(heap, rule, v, path, context);
    if v.Null? {
      if Says(heap, voc, v, path, Some(context), e) { NullSaysNothing(heap, voc, v, path, Some(context), e); }
    } else if !IsList(heap, v) {
      var child := Embedded(v, path, context, rule.range, rule.decoder);
      assert visit.children == [child] && child in visit.children;
      assert TaskSays(heap, voc, child, e) <==> Says(heap, voc, v, path, Some(context), e);
    } else if heap[v.id].items != [] {
      ManyReferencesSay(heap, voc, rule, v, path, context, e);
    }
  }

  lemma ManyReferencesSay(heap: Heap, voc: Vocabulary, rule: Rule, v: Value, path: FieldPath, context: nat, e: Event)
    requires rule.References? && IsQuiet(VisitReferences(heap, rule, v, path, context)) && |path| <= |PathOf(e)|
    requires IsList(heap, v) && heap[v.id].items != []
    ensures VisitSays(heap, voc, VisitReferences(heap, rule, v, path, context), e) <==>
              |path| < |PathOf(e)| && exists i: nat | i < |heap[v.id].items| ::
                Says(heap, voc, heap[v.id].items[i], path + [Index(i)], Some(context), e)
  {
    hide EmbeddedTasks, CountValues, Says;
    var items, visit := heap[v.id].items, VisitReferences(heap, rule, v, path, context);
    var tasks := EmbeddedTasks(items, 0, !rule.navigation, path, context, rule.range, rule.decoder);
    var finding := Finding(Diagnostic(InvalidMultiplicity, path));
    var before := if rule.navigation && CountValues(heap, v) > 1 then [finding] else [];
    assert visit.children == before + tasks && forall child <- before :: child in visit.children;
    assert before == [] || finding in before;
    assert visit.children == tasks;
    if |path| < |PathOf(e)| {
      ItemsSay(heap, voc, items, !rule.navigation, path, context, rule.range, rule.decoder, e);
    } else {
      forall child <- tasks ensures !TaskSays(heap, voc, child, e) {
        if TaskSays(heap, voc, child, e) { NullSaysNothing(heap, voc, child.v, child.path, Some(context), e); }
      }
    }
  }

  lemma ReferencesSayBelow(heap: Heap, voc: Vocabulary, rule: Rule, v: Value, path: FieldPath, context: nat, e: Event)
    requires rule.References? && IsQuiet(VisitReferences(heap, rule, v, path, context))
    requires VisitSays(heap, voc, VisitReferences(heap, rule, v, path, context), e)
    ensures |path| <= |PathOf(e)|
  {
    hide Clean, CountValues, EmbeddedTasks;
    OneReport(Diagnostic(UnsupportedValueForm, path));
    var child :| child in VisitReferences(heap, rule, v, path, context).children && TaskSays(heap, voc, child, e);
  }

  lemma EmbeddedSays(heap: Heap, voc: Vocabulary, t: Task, ancestors: set<nat>, e: Event)
    requires Closed(heap) && t.Embedded? && Clean(VisitEmbedded(heap, voc, t, ancestors).events)
    ensures VisitSays(heap, voc, VisitEmbedded(heap, voc, t, ancestors), e) <==> TaskSays(heap, voc, t, e)
  {
    hide Clean, VisitDocument, Says, CheckScalar, Closed;
    OneReport(Diagnostic(NonJsonValue, t.path));
    OneReport(Diagnostic(UnsupportedValueForm, t.path));
    if IsRecord(heap, t.v) {
      DocumentSays(heap, voc, t.v, t.path, Some(t.context), t.range, t.decoder, ancestors, e);
    } else if !t.v.Alien? && !IsList(heap, t.v) {
      ScalarErrors(heap, voc, Reference, t.v, t.path);
      NoneAtAll(CheckScalar(heap, voc, Reference, t.v, t.path));
      OnlyRecordsSay(heap, voc, t.v, t.path, Some(t.context), e);
    }
  }

  lemma OnlyRecordsSay(heap: Heap, voc: Vocabulary, v: Value, at: FieldPath, inherited: Option<nat>, e: Event)
    ensures Says(heap, voc, v, at, inherited, e) ==> IsRecord(heap, v)
  {
  }

  lemma FindingsSayNothing(heap: Heap, voc: Vocabulary, findings: seq<Diagnostic>, e: Event)
    requires AllErrors(findings) && Clean(Reports(findings))
    ensures !VisitSays(heap, voc, Quiet(findings), e)
  {
    NoneAtAll(findings);
  }

  lemma CheckedSays(heap: Heap, voc: Vocabulary, t: Task, ancestors: set<nat>, e: Event)
    requires t.Property? && t.doc in heap && heap[t.doc].Record? && t.source in heap[t.doc].fields
    requires voc.plan(t.context, t.kind, t.source).Checked? && IsQuiet(VisitProperty(heap, voc, t, ancestors))
    ensures VisitSays(heap, voc, VisitProperty(heap, voc, t, ancestors), e) <==> TaskSays(heap, voc, t, e)
  {
    hide Clean, Aliased, Omittable, IsEmptyField, CheckLeaf, VisitReferences, Says;
    var fields := heap[t.doc].fields;
    var v, path, rule := fields[t.source], At(t.path, Key(t.source)), voc.plan(t.context, t.kind, t.source).rule;
    var visit := VisitProperty(heap, voc, t, ancestors);
    OmittableIsEmpty(heap, rule, v);
    OneReport(Diagnostic(InvalidMultiplicity, path));
    var alias := if Aliased(heap, voc, t.context, t.kind, fields, t.source)
                 then [Reported(Diagnostic(InvalidMultiplicity, path))] else [];
    if Omittable(heap, rule, v) {
      var reason := if IsList(heap, v) && heap[v.id].items == [] then EmptyPropertyList else AbsentIdentifier;
      var own := [Reported(Diagnostic(reason, path)), Proposed(path, v)];
      assert visit.events == alias + own && visit.children == [];
      EventsAreClean(alias, own);
      assert visit.events == own;
    } else if rule.References? {
      var inner := VisitReferences(heap, rule, v, path, t.context);
      EventsAreClean(alias, inner.events);
      assert visit == Prefixed(alias, inner) && visit.events == inner.events;
      if |path| <= |PathOf(e)| {
        ReferencesSay(heap, voc, rule, v, path, t.context, e);
      } else if VisitSays(heap, voc, inner, e) {
        ReferencesSayBelow(heap, voc, rule, v, path, t.context, e);
      }
    } else {
      var findings := CheckLeaf(heap, voc, rule, v, path);
      LeafErrors(heap, voc, rule, v, path);
      EventsAreClean(alias, Reports(findings));
      assert visit == Prefixed(alias, Quiet(findings)) && visit.events == Reports(findings);
      FindingsSayNothing(heap, voc, findings, e);
    }
  }

  lemma OpaqueSays(heap: Heap, voc: Vocabulary, t: Task, ancestors: set<nat>, e: Event)
    requires t.Property? && t.doc in heap && heap[t.doc].Record? && t.source in heap[t.doc].fields
    requires voc.plan(t.context, t.kind, t.source).Opaque? && IsQuiet(VisitProperty(heap, voc, t, ancestors))
    ensures VisitSays(heap, voc, VisitProperty(heap, voc, t, ancestors), e) <==> TaskSays(heap, voc, t, e)
  {
    hide Clean, VisitExtension;
    var v, path := heap[t.doc].fields[t.source], At(t.path, Key(t.source));
    var inner, warning :=
      VisitExtension(heap, v, path, true, ancestors), Reported(Diagnostic(ExtensionPropertyUnchecked, path));
    EventsAreClean([warning], inner.events);
    ExtensionSaysNothing(heap, voc, v, path, true, ancestors, e);
    assert VisitProperty(heap, voc, t, ancestors) == Prefixed([warning], inner);
  }

  lemma PropertySays(heap: Heap, voc: Vocabulary, t: Task, ancestors: set<nat>, e: Event)
    requires t.Property? && IsQuiet(VisitProperty(heap, voc, t, ancestors))
    ensures VisitSays(heap, voc, VisitProperty(heap, voc, t, ancestors), e) <==> TaskSays(heap, voc, t, e)
  {
    var path := At(t.path, Key(t.source));
    if TargetOf(heap, t).Some? {
      var plan := voc.plan(t.context, t.kind, t.source);
      OneReport(Diagnostic(UnsupportedProperty, path));
      OneReport(Diagnostic(UnsupportedValueForm, path));
      OneReport(Diagnostic(PropertyNotApplicable, path));
      hide Clean;
      if plan.Checked? { CheckedSays(heap, voc, t, ancestors, e); }
      else if plan.Opaque? { OpaqueSays(heap, voc, t, ancestors, e); }
    }
  }

  /** Quiet tasks say what is to be said of what they look at, themselves or through their children. */
  lemma TaskStep(heap: Heap, voc: Vocabulary, t: Task, ancestors: set<nat>, e: Event)
    requires Closed(heap) && IsQuiet(VisitTask(heap, voc, t, ancestors))
    ensures VisitSays(heap, voc, VisitTask(heap, voc, t, ancestors), e) <==> TaskSays(heap, voc, t, e)
  {
    hide Closed, VisitExtension, VisitDocument, VisitEmbedded, VisitProperty, Says, FieldSays, Clean;
    match t
    case Extension(v, path, keywords) => ExtensionSaysNothing(heap, voc, v, path, keywords, ancestors, e);
    case Document(v, path, inherited, range, decoder) =>
      DocumentSays(heap, voc, v, path, inherited, range, decoder, ancestors, e);
    case Embedded(_, _, _, _, _) => EmbeddedSays(heap, voc, t, ancestors, e);
    case Finding(d) => assert Reports([d]) == [Reported(d)];
    case Property(_, _, _, _, _) => PropertySays(heap, voc, t, ancestors, e);
  }

  // ------------------------------------------------------------ what the whole walk says

  lemma {:induction false} WalkSays(heap: Heap, voc: Vocabulary, t: Task, ancestors: set<nat>, e: Event)
    requires Closed(heap) && Bounded(t) && Clean(Walk(heap, voc, t, ancestors).0)
    ensures e in Walk(heap, voc, t, ancestors).0 <==> TaskSays(heap, voc, t, e)
    decreases Room(t) + 1, 0
  {
    var visit := VisitTask(heap, voc, t, ancestors);
    ChildrenHaveLessRoom(heap, voc, t, ancestors);
    hide VisitTask, WalkAll, TaskSays, Closed;
    var open := ancestors + Opened(visit);
    var below := WalkAll(heap, voc, visit.children, open, Room(t)).0;
    assert Walk(heap, voc, t, ancestors).0 == visit.events + below;
    hide Walk, Clean;
    EventsAreClean(visit.events, below);
    AllSay(heap, voc, visit.children, open, Room(t), e);
    forall child <- visit.children | child.Finding? ensures child.d.reason.Severity() == Warning {
      CleanChildren(heap, voc, visit.children, open, Room(t), child);
      FindingsAreWarnings(heap, voc, child, open);
    }
    TaskStep(heap, voc, t, ancestors, e);
  }

  lemma FindingsAreWarnings(heap: Heap, voc: Vocabulary, t: Task, ancestors: set<nat>)
    requires t.Finding? && Clean(Walk(heap, voc, t, ancestors).0)
    ensures t.d.reason.Severity() == Warning
  {
    assert Walk(heap, voc, t, ancestors).0 == Reports([t.d]) + [];
    assert Reports([t.d])[0] == Reported(t.d);
    assert Reported(t.d) in Walk(heap, voc, t, ancestors).0;
  }

  lemma {:induction false} AllSay(heap: Heap, voc: Vocabulary, tasks: seq<Task>, ancestors: set<nat>, room: nat,
                                  e: Event)
    requires Closed(heap) && forall t <- tasks :: Bounded(t) && Room(t) < room
    requires Clean(WalkAll(heap, voc, tasks, ancestors, room).0)
    ensures e in WalkAll(heap, voc, tasks, ancestors, room).0 <==> exists t <- tasks :: TaskSays(heap, voc, t, e)
    decreases room, |tasks|
  {
    hide Walk, TaskSays, Bounded, Room, Closed, Clean;
    if tasks != [] {
      var first, rest := Walk(heap, voc, tasks[0], ancestors).0, WalkAll(heap, voc, tasks[1..], ancestors, room).0;
      EventsAreClean(first, rest);
      WalkSays(heap, voc, tasks[0], ancestors, e);
      AllSay(heap, voc, tasks[1..], ancestors, room, e);
      assert tasks == [tasks[0]] + tasks[1..];
    }
  }

  /**
   * The check of an accepted document proposes to leave out exactly its empty fields, and warns of exactly
   * those, of the fields it does not look into, and of a missing context.
   */
  lemma RemarksOfAccepted(heap: Heap, voc: Vocabulary, root: Value, e: Event)
    requires Closed(heap) && !HasError(ReportedIn(Findings(heap, voc, root)))
    ensures e in Findings(heap, voc, root) <==> Says(heap, voc, root, [], None, e)
  {
    hide Walk, ReportedIn, HasError, Says, Clean;
    CleanMeansNoErrors(Findings(heap, voc, root));
    WalkSays(heap, voc, Document(root, [], None, None, None), {}, e);
  }
}
