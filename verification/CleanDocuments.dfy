/** A document that passes without an error is a finite tree of bounded depth. */
module CleanDocuments {
  import opened Wrappers
  import opened Diagnostics
  import opened DocumentGraph
  import opened DocumentRules
  import opened DocumentWalk

  ghost predicate NoErrors(findings: seq<Diagnostic>) {
    forall d <- findings :: d.reason.Severity() == Warning
  }

  ghost predicate Clean(events: seq<Event>) {
    forall e <- events | e.Reported? :: e.d.reason.Severity() == Warning
  }

  lemma {:induction false} CleanMeansNoErrors(events: seq<Event>)
    ensures Clean(events) <==> !HasError(ReportedIn(events))
  {
    if events != [] {
      CleanMeansNoErrors(events[1..]);
      assert events == [events[0]] + events[1..];
    }
  }

  // ------------------------------------------------------------ accepted leaves are flat

  lemma {:induction false} CleanItems(items: seq<Value>, from: nat, check: (nat, Value) -> seq<Diagnostic>, i: nat)
    requires NoErrors(OverItems(items, from, check)) && from <= i < |items|
    ensures NoErrors(check(i, items[i]))
    decreases |items| - from
  {
    var first, rest := check(from, items[from]), OverItems(items, from + 1, check);
    assert forall d <- first :: d in first + rest;
    assert forall d <- rest :: d in first + rest;
    if from < i { CleanItems(items, from + 1, check, i); }
  }

  lemma {:induction false} CleanKeys(keys: seq<string>, check: string -> seq<Diagnostic>, key: string)
    requires NoErrors(OverKeys(keys, check)) && key in keys
    ensures NoErrors(check(key))
  {
    var first, rest := check(keys[0]), OverKeys(keys[1..], check);
    assert forall d <- first :: d in first + rest;
    assert forall d <- rest :: d in first + rest;
    if key != keys[0] { CleanKeys(keys[1..], check, key); }
  }

  lemma NoneFound(d: Diagnostic, findings: seq<Diagnostic>)
    requires NoErrors(findings) && d in findings
    ensures d.reason.Severity() == Warning
  {
  }

  lemma {:induction false} NoAlien(keys: seq<string>, fields: map<string, Value>, key: string)
    requires FirstAlien(keys, fields).None? && key in keys && key in fields
    ensures !fields[key].Alien?
  {
    if key != keys[0] { NoAlien(keys[1..], fields, key); }
  }

  lemma FlatScalar(heap: Heap, v: Value, depth: nat)
    requires !v.Ref? && !v.Alien?
    ensures Unfold(heap, v, depth).Some?
  {
  }

  lemma FlatRecord(heap: Heap, v: Value, depth: nat)
    requires IsRecord(heap, v)
    requires forall key <- heap[v.id].fields :: Unfold(heap, heap[v.id].fields[key], depth).Some?
    ensures Unfold(heap, v, depth + 1).Some?
  {
  }

  lemma CleanTextIsFlat(heap: Heap, voc: Vocabulary, check: Check, v: Value, path: FieldPath)
    requires Closed(heap) && IsRecord(heap, v) && check.Text?
    requires NoErrors(CheckText(heap, voc, check, v, path))
    ensures Unfold(heap, v, 1).Some?
  {
    hide Unfold;
    var findings := CheckText(heap, voc, check, v, path);
    if |findings| > 0 { NoneFound(findings[0], findings); }
    var node := heap[v.id];
    assert WellFormed(heap, node);
    hide Closed;
    var checkField := (key: string) => CheckTextField(voc, check, node, key, At(path, Key(key)));
    forall key <- node.fields ensures Unfold(heap, node.fields[key], 0).Some? {
      CleanKeys(node.keys, checkField, key);
      var found := checkField(key);
      if |found| > 0 { NoneFound(found[0], found); }
      FlatScalar(heap, node.fields[key], 0);
    }
    FlatRecord(heap, v, 0);
  }

  lemma CleanScalarIsFlat(heap: Heap, voc: Vocabulary, check: Check, v: Value, path: FieldPath)
    requires Closed(heap) && Present(heap, v)
    requires NoErrors(CheckScalar(heap, voc, check, v, path))
    ensures Unfold(heap, v, 1).Some?
  {
    hide Unfold;
    var findings := CheckScalar(heap, voc, check, v, path);
    if |findings| > 0 { NoneFound(findings[0], findings); }
    hide OverKeys, FirstAlien;
    if IsRecord(heap, v) && check.Text? {
      CleanTextIsFlat(heap, voc, check, v, path);
    } else {
      FlatScalar(heap, v, 1);
    }
  }

  lemma CleanEntryIsFlat(heap: Heap, voc: Vocabulary, check: Check, v: Value, path: FieldPath)
    requires Closed(heap) && Present(heap, v)
    requires NoErrors(CheckEntry(heap, voc, check, v, path))
    ensures Unfold(heap, v, 1).Some?
  {
    var findings := CheckEntry(heap, voc, check, v, path);
    if |findings| > 0 { NoneFound(findings[0], findings); }
    hide CheckScalar;
    if !v.Null? && !v.Alien? && !IsList(heap, v) { CleanScalarIsFlat(heap, voc, check, v, path); }
  }

  lemma FlatList(heap: Heap, v: Value, depth: nat)
    requires IsList(heap, v)
    requires forall i | 0 <= i < |heap[v.id].items| :: Unfold(heap, heap[v.id].items[i], depth).Some?
    ensures Unfold(heap, v, depth + 1).Some?
  {
    forall item <- heap[v.id].items ensures Unfold(heap, item, depth).Some? {
      var i :| 0 <= i < |heap[v.id].items| && heap[v.id].items[i] == item;
    }
  }

  lemma CleanListIsFlat(heap: Heap, voc: Vocabulary, check: Check, v: Value, path: FieldPath)
    requires Closed(heap) && IsList(heap, v)
    requires var findings :=
             OverItems(heap[v.id].items, 0,
                       (i: nat, item: Value) => CheckEntry(heap, voc, check, item, At(path, Index(i))));
             NoErrors(findings)
    ensures Unfold(heap, v, 2).Some?
  {
    hide CheckEntry;
    var items := heap[v.id].items;
    assert WellFormed(heap, heap[v.id]);
    var checkItem := (i: nat, item: Value) => CheckEntry(heap, voc, check, item, At(path, Index(i)));
    forall i | 0 <= i < |items| ensures Unfold(heap, items[i], 1).Some? {
      CleanItems(items, 0, checkItem, i);
      assert items[i] in items;
      CleanEntryIsFlat(heap, voc, check, items[i], At(path, Index(i)));
    }
    FlatList(heap, v, 1);
  }

  lemma CleanMapIsFlat(heap: Heap, voc: Vocabulary, plain: bool, v: Value, path: FieldPath)
    requires Closed(heap) && Present(heap, v)
    requires NoErrors(CheckLanguageMap(heap, voc, plain, v, path))
    ensures Unfold(heap, v, 1).Some?
  {
    hide Unfold;
    var findings := CheckLanguageMap(heap, voc, plain, v, path);
    if v.Null? {
      FlatScalar(heap, v, 1);
    } else {
      if |findings| > 0 { NoneFound(findings[0], findings); }
      var node := heap[v.id];
      assert WellFormed(heap, node);
      hide Closed;
      forall key <- node.fields ensures Unfold(heap, node.fields[key], 0).Some? {
        CleanTranslationIsFlat(heap, voc, plain, node, key, path);
      }
      FlatRecord(heap, v, 0);
    }
  }

  lemma CleanTranslationIsFlat(heap: Heap, voc: Vocabulary, plain: bool, node: Node, key: string, path: FieldPath)
    requires node.Record? && key in node.keys && key in node.fields
    requires NoErrors(OverKeys(node.keys, (k: string) => CheckTranslation(voc, plain, node, k, At(path, Key(k)))))
    ensures Unfold(heap, node.fields[key], 0).Some?
  {
    var checkKey := (k: string) => CheckTranslation(voc, plain, node, k, At(path, Key(k)));
    CleanKeys(node.keys, checkKey, key);
    var found := checkKey(key);
    if |found| > 0 { NoneFound(found[|found| - 1], found); }
  }

  lemma CleanNoObjectIsFlat(heap: Heap, v: Value, path: FieldPath)
    requires Closed(heap) && Present(heap, v)
    requires NoErrors(CheckNoObject(heap, v, path))
    ensures Unfold(heap, v, 2).Some?
  {
    hide Unfold;
    var findings := CheckNoObject(heap, v, path);
    if |findings| > 0 { NoneFound(findings[0], findings); }
    if v.Null? { FlatScalar(heap, v, 2); }
    if IsList(heap, v) {
      var items := heap[v.id].items;
      var checkItem := (i: nat, item: Value) =>
        if item.Null? then []
        else if item.Alien? then [Diagnostic(NonJsonValue, At(path, Index(i)))]
        else if IsList(heap, item) then [Diagnostic(UnsupportedValueForm, At(path, Index(i)))]
        else [Diagnostic(PropertyNotApplicable, At(path, Index(i)))];
      forall i | 0 <= i < |items| ensures Unfold(heap, items[i], 1).Some? {
        CleanItems(items, 0, checkItem, i);
        var found := checkItem(i, items[i]);
        if |found| > 0 { NoneFound(found[0], found); }
        FlatScalar(heap, items[i], 1);
      }
      FlatList(heap, v, 1);
    }
  }

  lemma CleanSingleIsFlat(heap: Heap, voc: Vocabulary, check: Check, v: Value, path: FieldPath)
    requires Closed(heap) && Present(heap, v)
    requires NoErrors(CheckSingle(heap, voc, check, v, path)) || NoErrors(CheckMany(heap, voc, check, v, path))
    ensures Unfold(heap, v, 2).Some?
  {
    hide CheckScalar, CheckEntry, CountValues;
    if !IsList(heap, v) {
      CleanScalarIsFlat(heap, voc, check, v, path);
      UnfoldDeeper(heap, v, 1, 2);
    } else if heap[v.id].items == [] {
      FlatList(heap, v, 1);
    } else {
      var items :=
        OverItems(heap[v.id].items, 0, (i: nat, item: Value) => CheckEntry(heap, voc, check, item, At(path, Index(i))));
      if NoErrors(CheckSingle(heap, voc, check, v, path)) {
        assert forall d <- items :: d in CheckSingle(heap, voc, check, v, path);
      }
      assert NoErrors(items);
      CleanListIsFlat(heap, voc, check, v, path);
    }
  }

  lemma CleanLeafIsFlat(heap: Heap, voc: Vocabulary, rule: Rule, v: Value, path: FieldPath)
    requires Closed(heap) && Present(heap, v) && !rule.References?
    requires NoErrors(CheckLeaf(heap, voc, rule, v, path))
    ensures Unfold(heap, v, 2).Some?
  {
    hide CheckSingle, CheckMany, CheckLanguageMap, CheckNoObject;
    var findings := CheckLeaf(heap, voc, rule, v, path);
    match rule
    case Single(check) => CleanSingleIsFlat(heap, voc, check, v, path);
    case Many(check) => CleanSingleIsFlat(heap, voc, check, v, path);
    case LanguageMap(plain) => CleanMapIsFlat(heap, voc, plain, v, path); UnfoldDeeper(heap, v, 1, 2);
    case NoObject => CleanNoObjectIsFlat(heap, v, path);
    case Identifier => if !v.Str? { NoneFound(findings[0], findings); }
    case Unchecked => if !v.Null? { NoneFound(findings[0], findings); }
  }

  lemma OmittableIsFlat(heap: Heap, rule: Rule, v: Value)
    requires Omittable(heap, rule, v)
    ensures Unfold(heap, v, 2).Some?
  {
    if IsList(heap, v) { FlatList(heap, v, 1); }
  }

  // ------------------------------------------------------------ accepted documents

  /** The number of containers that may nest at and below a path of a document. */
  function Depth(path: FieldPath): nat {
    if |path| > 68 then 0 else 68 - |path|
  }

  /** What a clean walk of a task says about the value it checks. */
  ghost predicate Finite(heap: Heap, t: Task) {
    match t
    case Extension(v, path, _) => Unfold(heap, v, Depth(path)).Some?
    case Document(v, path, _, _, _) => Unfold(heap, v, Depth(path)).Some?
    case Embedded(v, path, _, _, _) => Unfold(heap, v, Depth(path)).Some?
    case Property(doc, path, _, _, source) =>
      doc in heap && heap[doc].Record? && source in heap[doc].fields ==>
        Unfold(heap, heap[doc].fields[source], Depth(At(path, Key(source)))).Some?
    case Finding(_) => true
  }

  /** The values a task holds are values of the heap. */
  ghost predicate Held(heap: Heap, t: Task) {
    match t
    case Property(_, _, _, _, _) => true
    case Finding(_) => true
    case _ => Present(heap, t.v)
  }

  lemma {:induction false} CleanChildren(heap: Heap, voc: Vocabulary, tasks: seq<Task>, ancestors: set<nat>, room: nat,
                                         t: Task)
    requires forall child <- tasks :: Bounded(child) && Room(child) < room
    requires Clean(WalkAll(heap, voc, tasks, ancestors, room).0) && t in tasks
    ensures Clean(Walk(heap, voc, t, ancestors).0)
  {
    hide Walk, Bounded, Room;
    var first, rest := Walk(heap, voc, tasks[0], ancestors).0, WalkAll(heap, voc, tasks[1..], ancestors, room).0;
    assert forall e <- first :: e in first + rest;
    assert forall e <- rest :: e in first + rest;
    if t != tasks[0] { CleanChildren(heap, voc, tasks[1..], ancestors, room, t); }
  }

  lemma CleanReports(findings: seq<Diagnostic>)
    requires Clean(Reports(findings))
    ensures NoErrors(findings)
  {
    forall d <- findings ensures d.reason.Severity() == Warning {
      var i :| 0 <= i < |findings| && findings[i] == d;
      assert Reports(findings)[i] in Reports(findings);
    }
  }

  lemma DirtyReport(d: Diagnostic)
    requires d.reason.Severity() == Error
    ensures !Clean(Reports([d]))
  {
    assert Reports([d])[0] in Reports([d]);
  }

  lemma CleanExtensionIsOpened(heap: Heap, v: Value, path: FieldPath, keywords: bool, ancestors: set<nat>)
    requires Closed(heap) && Present(heap, v)
    requires Clean(VisitExtension(heap, v, path, keywords, ancestors).events)
    ensures |path| <= MAXIMUM_PATH_DEPTH && !v.Alien?
    ensures var children := VisitExtension(heap, v, path, keywords, ancestors).children;
            && (IsList(heap, v) ==> forall i | 0 <= i < |heap[v.id].items| ::
                  Extension(heap[v.id].items[i], At(path, Index(i)), keywords) in children)
            && (IsRecord(heap, v) ==> forall key <- heap[v.id].fields ::
                  exists k :: Extension(heap[v.id].fields[key], At(path, Key(key)), k) in children)
  {
    hide CheckKeywords, IsJsonLiteral;
    var visit := VisitExtension(heap, v, path, keywords, ancestors);
    if |path| > MAXIMUM_PATH_DEPTH { DirtyReport(Diagnostic(ProcessingLimitExceeded, path)); }
    if v.Alien? || (v.Ref? && v.id in ancestors) { DirtyReport(Diagnostic(NonJsonValue, path)); }
    if IsList(heap, v) {
      forall i | 0 <= i < |heap[v.id].items|
        ensures Extension(heap[v.id].items[i], At(path, Index(i)), keywords) in visit.children
      {
        assert visit.children[i] in visit.children;
      }
    } else if IsRecord(heap, v) {
      var keys, fields := heap[v.id].keys, heap[v.id].fields;
      assert WellFormed(heap, heap[v.id]);
      var alien := FirstAlien(keys, fields);
      if alien.Some? { DirtyReport(Diagnostic(NonJsonValue, At(path, Key(alien.value)))); }
      forall key <- fields ensures exists k :: Extension(fields[key], At(path, Key(key)), k) in visit.children {
        var i :| 0 <= i < |keys| && keys[i] == key;
        var child := visit.children[i];
        assert child in visit.children && Extension(fields[key], At(path, Key(key)), child.keywords) == child;
      }
    }
  }

  /** A value whose check is clean, given that its children are finite. */
  lemma CleanExtensionIsFinite(heap: Heap, v: Value, path: FieldPath, keywords: bool, ancestors: set<nat>)
    requires Closed(heap) && Present(heap, v)
    requires var visit := VisitExtension(heap, v, path, keywords, ancestors);
             Clean(visit.events) && forall child <- visit.children :: Finite(heap, child)
    ensures Unfold(heap, v, Depth(path)).Some?
  {
    hide VisitExtension, Unfold;
    CleanExtensionIsOpened(heap, v, path, keywords, ancestors);
    var visit := VisitExtension(heap, v, path, keywords, ancestors);
    if IsList(heap, v) {
      forall i | 0 <= i < |heap[v.id].items| ensures Unfold(heap, heap[v.id].items[i], Depth(path) - 1).Some? {
        assert Finite(heap, Extension(heap[v.id].items[i], At(path, Index(i)), keywords));
      }
      FlatList(heap, v, Depth(path) - 1);
    } else if IsRecord(heap, v) {
      forall key <- heap[v.id].fields ensures Unfold(heap, heap[v.id].fields[key], Depth(path) - 1).Some? {
        var k :| Extension(heap[v.id].fields[key], At(path, Key(key)), k) in visit.children;
        assert Finite(heap, Extension(heap[v.id].fields[key], At(path, Key(key)), k));
      }
      FlatRecord(heap, v, Depth(path) - 1);
    } else {
      FlatScalar(heap, v, Depth(path));
    }
  }

  /** Type keys of an entered document hold plain strings, and its context is shallow. */
  lemma EnteredHeaderIsFlat(heap: Heap, voc: Vocabulary, node: Node, path: FieldPath, inherited: Option<nat>,
                            range: Option<nat>, decoder: Option<nat>, key: string)
    requires node.Record? && key in node.fields && (forall k :: k in node.keys <==> k in node.fields)
    requires var entrance := EnterRecord(heap, voc, node, path, inherited, range, decoder);
             entrance.Entered? && (key == "@context" || voc.names(entrance.context, key))
    ensures Unfold(heap, node.fields[key], CONTEXT_DEPTH).Some?
  {
    var entrance := EnterRecord(heap, voc, node, path, inherited, range, decoder);
    if key != "@context" {
      var types := TypeKeys(voc, entrance.context, node.keys);
      assert key in types;
    }
  }

  /** A clean visit has entered the document and left its properties to be checked. */
  lemma CleanDocumentIsEntered(heap: Heap, voc: Vocabulary, v: Value, path: FieldPath, inherited: Option<nat>,
                               range: Option<nat>, decoder: Option<nat>, ancestors: set<nat>)
    requires Clean(VisitDocument(heap, voc, v, path, inherited, range, decoder, ancestors).events)
    ensures |path| <= MAXIMUM_PATH_DEPTH && IsRecord(heap, v)
    ensures var entrance := EnterRecord(heap, voc, heap[v.id], path, inherited, range, decoder);
            && entrance.Entered?
            && VisitDocument(heap, voc, v, path, inherited, range, decoder, ancestors).children
               == PropertyTasks(voc, v.id, path, entrance.context, entrance.kind, heap[v.id].keys)
  {
    hide EnterRecord, PropertyTasks;
    if |path| > MAXIMUM_PATH_DEPTH { DirtyReport(Diagnostic(ProcessingLimitExceeded, path)); }
    if (v.Ref? && v.id in ancestors) || v.Alien? { DirtyReport(Diagnostic(NonJsonValue, path)); }
    if !IsRecord(heap, v) {
      DirtyReport(Diagnostic(InvalidDocumentRoot, path));
    } else {
      var alien := FirstAlien(heap[v.id].keys, heap[v.id].fields);
      if alien.Some? { DirtyReport(Diagnostic(NonJsonValue, At(path, Key(alien.value)))); }
      var entrance := EnterRecord(heap, voc, heap[v.id], path, inherited, range, decoder);
      if entrance.Turned? && Clean(Reports(entrance.findings)) { CleanReports(entrance.findings); }
    }
  }

  lemma CleanDocumentIsFinite(heap: Heap, voc: Vocabulary, v: Value, path: FieldPath, inherited: Option<nat>,
                              range: Option<nat>, decoder: Option<nat>, ancestors: set<nat>)
    requires Closed(heap) && Present(heap, v)
    requires var visit := VisitDocument(heap, voc, v, path, inherited, range, decoder, ancestors);
             Clean(visit.events) && forall child <- visit.children :: Finite(heap, child)
    ensures Unfold(heap, v, Depth(path)).Some?
  {
    hide EnterRecord, Unfold, VisitDocument;
    CleanDocumentIsEntered(heap, voc, v, path, inherited, range, decoder, ancestors);
    var node := heap[v.id];
    assert WellFormed(heap, node);
    hide Closed;
    var entrance := EnterRecord(heap, voc, node, path, inherited, range, decoder);
    forall key <- node.fields ensures Unfold(heap, node.fields[key], Depth(path) - 1).Some? {
      if key == "@context" || voc.names(entrance.context, key) {
        EnteredHeaderIsFlat(heap, voc, node, path, inherited, range, decoder, key);
        UnfoldDeeper(heap, node.fields[key], CONTEXT_DEPTH, Depth(path) - 1);
      } else {
        assert Finite(heap, Property(v.id, path, entrance.context, entrance.kind, key));
      }
    }
    FlatRecord(heap, v, Depth(path) - 1);
  }

  lemma ChildrenAreHeld(heap: Heap, voc: Vocabulary, t: Task, ancestors: set<nat>)
    requires Closed(heap) && Held(heap, t)
    ensures forall child <- VisitTask(heap, voc, t, ancestors).children :: Held(heap, child)
  {
    hide CheckLeaf, EnterRecord, Omittable, Aliased, CheckKeywords, CheckScalar, IsJsonLiteral, FirstAlien, CountValues;
    match t
    case Extension(v, _, _) => if v.Ref? { assert WellFormed(heap, heap[v.id]); }
    case Property(doc, _, _, _, source) =>
      if doc in heap && heap[doc].Record? && source in heap[doc].fields {
        assert WellFormed(heap, heap[doc]);
        var v := heap[doc].fields[source];
        if v.Ref? { assert WellFormed(heap, heap[v.id]); }
      }
    case Embedded(_, _, _, _, _) =>
    case Document(_, _, _, _, _) =>
    case Finding(_) =>
  }

  lemma CleanReferencesAreFinite(heap: Heap, rule: Rule, v: Value, path: FieldPath, context: nat)
    requires Closed(heap) && Present(heap, v) && rule.References? && |path| <= MAXIMUM_PATH_DEPTH + 1
    requires var visit := VisitReferences(heap, rule, v, path, context);
             Clean(visit.events) && forall child <- visit.children :: Finite(heap, child)
    ensures Unfold(heap, v, Depth(path)).Some?
  {
    hide Unfold, CountValues;
    var visit := VisitReferences(heap, rule, v, path, context);
    if v.Null? {
      FlatScalar(heap, v, Depth(path));
    } else if !IsList(heap, v) {
      assert Finite(heap, visit.children[0]);
    } else {
      var items := heap[v.id].items;
      if items == [] { DirtyReport(Diagnostic(UnsupportedValueForm, path)); }
      forall i | 0 <= i < |items| ensures Unfold(heap, items[i], Depth(path) - 1).Some? {
        if items[i].Null? {
          FlatScalar(heap, items[i], Depth(path) - 1);
        } else {
          var child := Embedded(items[i], At(path, Index(i)), context, rule.range, rule.decoder);
          assert child in visit.children;
          assert Finite(heap, child);
        }
      }
      FlatList(heap, v, Depth(path) - 1);
    }
  }

  lemma CleanPropertyIsFinite(heap: Heap, voc: Vocabulary, t: Task, ancestors: set<nat>)
    requires Closed(heap) && t.Property? && Bounded(t)
    requires var visit := VisitProperty(heap, voc, t, ancestors);
             Clean(visit.events) && forall child <- visit.children :: Finite(heap, child)
    ensures Finite(heap, t)
  {
    if t.doc in heap && heap[t.doc].Record? && t.source in heap[t.doc].fields {
      hide Unfold, Omittable, Aliased, CheckLeaf, VisitExtension, VisitReferences;
      assert WellFormed(heap, heap[t.doc]);
      var v := heap[t.doc].fields[t.source];
      var path := At(t.path, Key(t.source));
      var visit := VisitProperty(heap, voc, t, ancestors);
      match voc.plan(t.context, t.kind, t.source)
      case Opaque =>
        var inner := VisitExtension(heap, v, path, true, ancestors);
        assert forall e <- inner.events :: e in visit.events;
        CleanExtensionIsFinite(heap, v, path, true, ancestors);
      case Outside => DirtyReport(Diagnostic(UnsupportedProperty, path));
      case Incompatible => DirtyReport(Diagnostic(UnsupportedValueForm, path));
      case Inapplicable =>
        if !v.Null? { DirtyReport(Diagnostic(PropertyNotApplicable, path)); }
        FlatScalar(heap, v, Depth(path));
      case Checked(rule) =>
        if Omittable(heap, rule, v) {
          OmittableIsFlat(heap, rule, v);
          UnfoldDeeper(heap, v, 2, Depth(path));
        } else if rule.References? {
          assert forall e <- VisitReferences(heap, rule, v, path, t.context).events :: e in visit.events;
          CleanReferencesAreFinite(heap, rule, v, path, t.context);
        } else {
          var findings := CheckLeaf(heap, voc, rule, v, path);
          assert forall e <- Reports(findings) :: e in visit.events;
          CleanReports(findings);
          CleanLeafIsFlat(heap, voc, rule, v, path);
          UnfoldDeeper(heap, v, 2, Depth(path));
        }
    }
  }

  lemma CleanEmbeddedIsFinite(heap: Heap, voc: Vocabulary, t: Task, ancestors: set<nat>)
    requires Closed(heap) && t.Embedded? && Held(heap, t)
    requires var visit := VisitEmbedded(heap, voc, t, ancestors);
             Clean(visit.events) && forall child <- visit.children :: Finite(heap, child)
    ensures Finite(heap, t)
  {
    hide Unfold, CheckScalar, VisitDocument;
    if t.v.Alien? { DirtyReport(Diagnostic(NonJsonValue, t.path)); }
    else if IsList(heap, t.v) { DirtyReport(Diagnostic(UnsupportedValueForm, t.path)); }
    else if IsRecord(heap, t.v) {
      CleanDocumentIsFinite(heap, voc, t.v, t.path, Some(t.context), t.range, t.decoder, ancestors);
    } else {
      FlatScalar(heap, t.v, Depth(t.path));
    }
  }

  /** A task whose whole walk is clean checks a finite value, cycles and all. */
  lemma {:induction false} CleanIsFinite(heap: Heap, voc: Vocabulary, t: Task, ancestors: set<nat>)
    requires Closed(heap) && Bounded(t) && Held(heap, t)
    requires Clean(Walk(heap, voc, t, ancestors).0)
    ensures Finite(heap, t)
    decreases Room(t)
  {
    var visit := VisitTask(heap, voc, t, ancestors);
    ChildrenHaveLessRoom(heap, voc, t, ancestors);
    ChildrenAreHeld(heap, voc, t, ancestors);
    hide VisitExtension, VisitDocument, VisitProperty, VisitEmbedded, WalkAll;
    var below := WalkAll(heap, voc, visit.children, ancestors + Opened(visit), Room(t)).0;
    assert Walk(heap, voc, t, ancestors).0 == visit.events + below;
    hide Walk;
    assert forall e <- visit.events :: e in visit.events + below;
    assert forall e <- below :: e in visit.events + below;
    forall child <- visit.children ensures Finite(heap, child) {
      CleanChildren(heap, voc, visit.children, ancestors + Opened(visit), Room(t), child);
      CleanIsFinite(heap, voc, child, ancestors + Opened(visit));
    }
    match t
    case Extension(v, path, keywords) => CleanExtensionIsFinite(heap, v, path, keywords, ancestors);
    case Document(v, path, inherited, range, decoder) =>
      CleanDocumentIsFinite(heap, voc, v, path, inherited, range, decoder, ancestors);
    case Property(_, _, _, _, _) => CleanPropertyIsFinite(heap, voc, t, ancestors);
    case Embedded(_, _, _, _, _) => CleanEmbeddedIsFinite(heap, voc, t, ancestors);
    case Finding(_) =>
  }

  /** The most containers that nest in an accepted document: the path limit, and four for the last properties. */
  const MAXIMUM_NESTING := 68

  /**
   * A document checked without an error holds no cycle and nests at most 68 containers deep, so
   * copying it occurrence by occurrence, as the preview does, comes to an end.
   */
  lemma CleanDocumentsUnfold(heap: Heap, voc: Vocabulary, root: Value)
    requires Closed(heap) && Present(heap, root)
    requires !HasError(ReportedIn(Findings(heap, voc, root)))
    ensures Unfold(heap, root, MAXIMUM_NESTING).Some?
  {
    hide Walk, ReportedIn, HasError, Unfold;
    CleanMeansNoErrors(Findings(heap, voc, root));
    CleanIsFinite(heap, voc, Document(root, [], None, None, None), {});
  }
}
